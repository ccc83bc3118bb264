/** Runs of replicas. */
module Replicas {
  // A replica creates an item between two neighbours of its own list, tombstones
  // included.  It accepts an item of another replica once it holds the item's two
  // origins and all earlier items of that client, which is what `integrateStructs`
  // waits for.  Messages may be duplicated, reordered and delayed without bound.

  import opened Arcs
  import opened Common
  import opened Yata
  import opened Agreement

  datatype Doc = Doc(items: seq<Item>, deleted: set<ID>)

  /** `log` holds every item ever created, in the order of creation. */
  datatype World = World(log: seq<Item>, docs: map<nat, Doc>) {
    function At(c: nat): Doc {
      if c in docs then docs[c] else Doc([], {})
    }
  }

  const INIT := World([], map[])

  datatype Step =
    | Create(client: nat, pos: nat, clock: nat)   // an insertion by the client's own user
    | Deliver(client: nat, item: Item)            // an item arrives
    | Delete(client: nat, id: ID)                 // a deletion by the client's own user
    | DeliverDelete(client: nat, id: ID, from: nat)

  /** The item that an insertion in front of position `pos` creates. */
  function NewItem(s: seq<Item>, client: nat, pos: nat, clock: nat): Item
    requires pos <= |s|
  {
    Item(ID(client, clock),
         if pos == 0 then None else Some(s[pos - 1].id),
         if pos == |s| then None else Some(s[pos].id))
  }

  predicate Enabled(w: World, step: Step) {
    var d := w.At(step.client);
    match step
    case Create(c, pos, clock) =>
      pos <= |d.items| && forall e <- d.items :: e.id.client == c ==> e.id.clock < clock
    case Deliver(c, x) =>
      && x in w.log && !Has(d.items, x.id) && DepsIn(d.items, x)
      && forall e <- w.log :: e.id.client == x.id.client && e.id.clock < x.id.clock ==> Has(d.items, e.id)
    case Delete(c, id) => Has(d.items, id)
    case DeliverDelete(c, id, from) => Has(d.items, id) && id in w.At(from).deleted
  }

  function Next(w: World, step: Step): World
    requires Enabled(w, step)
  {
    var d := w.At(step.client);
    match step
    case Create(c, pos, clock) =>
      var x := NewItem(d.items, c, pos, clock);
      World(w.log + [x], w.docs[c := Doc(Integrate(d.items, x), d.deleted)])
    case Deliver(c, x) => w.(docs := w.docs[c := Doc(Integrate(d.items, x), d.deleted)])
    case Delete(c, id) => w.(docs := w.docs[c := Doc(d.items, d.deleted + {id})])
    case DeliverDelete(c, id, _) => w.(docs := w.docs[c := Doc(d.items, d.deleted + {id})])
  }

  /** A run: every step is enabled where it is taken. */
  predicate Run(w: World, steps: seq<Step>)
    decreases |steps|
  {
    steps == [] || (Enabled(w, steps[0]) && Run(Next(w, steps[0]), steps[1..]))
  }

  function After(w: World, steps: seq<Step>): World
    requires Run(w, steps)
    decreases |steps|
  {
    if steps == [] then w else After(Next(w, steps[0]), steps[1..])
  }

  // ----- What every step keeps -----

  /** A replica holds all the items of its own client. */
  predicate HoldsOwn(w: World, c: nat) {
    forall e <- w.log :: e.id.client == c ==> e in w.At(c).items
  }

  /** With an item a replica holds all earlier items of that item's client. */
  predicate HoldsEarlier(w: World, c: nat) {
    forall e <- w.At(c).items, f <- w.log :: f.id.client == e.id.client && f.id.clock < e.id.clock ==>
      f in w.At(c).items
  }

  predicate ValidAt(w: World, c: nat) {
    Replica(w.log, w.At(c).items) && HoldsOwn(w, c) && HoldsEarlier(w, c)
  }

  ghost predicate Valid(w: World) {
    CausalLog(w.log) && forall c: nat :: ValidAt(w, c)
  }

  lemma Holds(s: seq<Item>, id: ID) returns (e: Item)
    requires Has(s, id)
    ensures e in s && e.id == id && Find(s, e.id) == Find(s, id)
  {
    e := s[Find(s, id)];
  }

  lemma In(s: seq<Item>, e: Item)
    requires e in s
    ensures Has(s, e.id)
  {
    var i :| 0 <= i < |s| && s[i] == e;
    FindFirst(s, e.id, i);
  }

  /** The neighbours of an item relate in every replica as they do in its creator's. */
  lemma AnchorAgrees(log: seq<Item>, s: seq<Item>, t: seq<Item>, x: Item)
    requires CausalLog(log) && Replica(log, s) && Replica(log, t)
    requires x in t && DepsIn(s, x)
    requires forall e <- s :: e.id.client == x.id.client ==> e in t
    ensures Anchored(ArcsOf(s), ArcOf(s, x))
  {
    var i := Agreement.At(t, x);
    assert Placed(ArcsOf(t), i);
    if x.rightOrigin.Some? {
      var r := Shared(log, s, t, x.rightOrigin.value);
      NeighboursAgree(log, s, t, x, r);
    }
    forall j | 0 <= j < |s| ensures InFront(ArcsOf(s), ArcOf(s, x), j) {
      if LeftOf(s, s[j]) == LeftOf(s, x) && s[j].id.client == x.id.client && s[j].id.clock < x.id.clock {
        SiblingAgrees(log, s, t, x, j);
      }
    }
  }

  /** An earlier sibling of the same client stands behind the item everywhere. */
  lemma SiblingAgrees(log: seq<Item>, s: seq<Item>, t: seq<Item>, x: Item, j: nat)
    requires CausalLog(log) && Replica(log, s) && Replica(log, t)
    requires x in t && DepsIn(s, x) && j < |s| && s[j] in t
    requires LeftOf(s, s[j]) == LeftOf(s, x) && s[j].id.client == x.id.client && s[j].id.clock < x.id.clock
    ensures RightOf(s, x) <= j
  {
    var e := s[j];
    var i := Agreement.At(t, x);
    var m := Agreement.At(t, e);
    assert e in s && DepsIn(s, e);
    SameRefs(s, x, e);
    assert Placed(ArcsOf(t), i) && InFront(ArcsOf(t), ArcOf(t, x), m);
    var r := Shared(log, s, t, x.rightOrigin.value);
    FindAt(s, j);
    Agree(log, s, t, e, r);
  }

  lemma NeighboursAgree(log: seq<Item>, s: seq<Item>, t: seq<Item>, x: Item, r: Item)
    requires CausalLog(log) && Replica(log, s) && Replica(log, t)
    requires DepsIn(s, x) && DepsIn(t, x) && x.rightOrigin == Some(r.id)
    requires r in s && r in t
    requires LeftOf(t, x) < RightOf(t, x) && LeftOf(t, r) <= LeftOf(t, x)
    ensures LeftOf(s, x) < RightOf(s, x) && LeftOf(s, r) <= LeftOf(s, x)
  {
    if x.origin.Some? {
      var o := Shared(log, s, t, x.origin.value);
      Agree(log, s, t, o, r);
      if r.origin.Some? {
        var q := Shared(log, s, t, r.origin.value);
        Agree(log, s, t, o, q);
      }
    }
  }

  /** An item fits in every list where it has not arrived, because it fits in its creator's. */
  lemma DeliverAdmissible(w: World, c: nat, x: Item)
    requires Valid(w) && Enabled(w, Deliver(c, x))
    ensures Admissible(w.At(c).items, x)
  {
    var s := w.At(c).items;
    assert ValidAt(w, x.id.client) && ValidAt(w, c);
    AnchorAgrees(w.log, s, w.At(x.id.client).items, x);
    forall e | e in s && e.id.client == x.id.client ensures e.id.clock < x.id.clock {
      In(s, e);
      if e.id.clock > x.id.clock {
        In(s, x);
      }
    }
  }

  lemma CreateAdmissible(w: World, c: nat, pos: nat, clock: nat)
    requires Valid(w) && Enabled(w, Create(c, pos, clock))
    ensures Admissible(w.At(c).items, NewItem(w.At(c).items, c, pos, clock))
    ensures CausalLog(w.log + [NewItem(w.At(c).items, c, pos, clock)])
  {
    var s := w.At(c).items;
    var x := NewItem(s, c, pos, clock);
    assert ValidAt(w, c);
    if Has(s, x.id) {
      var e := Holds(s, x.id);
    }
    if pos > 0 {
      FindAt(s, pos - 1);
    }
    if pos < |s| {
      FindAt(s, pos);
      assert Placed(ArcsOf(s), pos);
    }
    forall j | 0 <= j < |s| && ArcsOf(s)[j].left == pos - 1 ensures pos <= j {
      assert Placed(ArcsOf(s), j);
    }
    LogGrows(w.log, s, x);
  }

  lemma FindPrefix(s: seq<Item>, x: Item, id: ID)
    requires Has(s, id)
    ensures Find(s + [x], id) == Find(s, id)
  {
    if s[0].id != id {
      assert (s + [x])[1..] == s[1..] + [x];
      FindPrefix(s[1..], x, id);
    }
  }

  lemma LogGrows(log: seq<Item>, s: seq<Item>, x: Item)
    requires CausalLog(log) && Replica(log, s) && DepsIn(s, x)
    requires forall e <- log :: e.id != x.id
    ensures CausalLog(log + [x])
  {
    var l := log + [x];
    forall i | 0 <= i < |l| ensures RefersBack(l, i) {
      if i < |log| {
        assert RefersBack(log, i);
      }
      if l[i].origin.Some? {
        if i == |log| {
          var o := Holds(s, x.origin.value);
          In(log, o);
        }
        FindPrefix(log, x, l[i].origin.value);
      }
      if l[i].rightOrigin.Some? {
        if i == |log| {
          var o := Holds(s, x.rightOrigin.value);
          In(log, o);
        }
        FindPrefix(log, x, l[i].rightOrigin.value);
      }
    }
  }

  lemma InitValid()
    ensures Valid(INIT)
  {
  }

  lemma CreateValid(w: World, c: nat, pos: nat, clock: nat)
    requires Valid(w) && Enabled(w, Create(c, pos, clock))
    ensures Valid(Next(w, Create(c, pos, clock)))
  {
    var s := w.At(c).items;
    var x := NewItem(s, c, pos, clock);
    var w' := Next(w, Create(c, pos, clock));
    assert ValidAt(w, c);
    CreateAdmissible(w, c, pos, clock);
    IntegrateCanonical(s, x);
    forall d: nat ensures ValidAt(w', d) {
      assert ValidAt(w, d);
      OthersKeep(w, w', c, d, x);
    }
  }

  lemma OthersKeep(w: World, w': World, c: nat, d: nat, x: Item)
    requires ValidAt(w, c) && ValidAt(w, d) && w'.log == w.log + [x] && x.id.client == c
    requires forall e <- w.At(c).items :: e.id.client == c ==> e.id.clock < x.id.clock
    requires w'.At(d) == if d == c then w'.At(c) else w.At(d)
    requires forall e :: e in w'.At(c).items <==> e == x || e in w.At(c).items
    requires Canonical(w'.At(c).items)
    ensures ValidAt(w', d)
  {
  }

  lemma DeliverValid(w: World, c: nat, x: Item)
    requires Valid(w) && Enabled(w, Deliver(c, x))
    ensures Valid(Next(w, Deliver(c, x)))
  {
    var s := w.At(c).items;
    var w' := Next(w, Deliver(c, x));
    assert ValidAt(w, c);
    DeliverAdmissible(w, c, x);
    IntegrateCanonical(s, x);
    forall e | e in w.log && e.id.client == x.id.client && e.id.clock < x.id.clock ensures e in s {
      var f := Holds(s, e.id);
      assert f in w.log;
    }
    forall d: nat ensures ValidAt(w', d) {
      assert ValidAt(w, d);
      assert d != c ==> w'.At(d) == w.At(d);
    }
  }

  lemma DeleteValid(w: World, w': World)
    requires Valid(w) && w'.log == w.log && forall d: nat :: w'.At(d).items == w.At(d).items
    ensures Valid(w')
  {
    forall d: nat ensures ValidAt(w', d) {
      assert ValidAt(w, d);
    }
  }

  /** Every step keeps the validity of every replica. */
  lemma StepValid(w: World, step: Step)
    requires Valid(w) && Enabled(w, step)
    ensures Valid(Next(w, step))
  {
    match step
    case Create(c, pos, clock) => CreateValid(w, c, pos, clock);
    case Deliver(c, x) => DeliverValid(w, c, x);
    case Delete(_, _) => DeleteValid(w, Next(w, step));
    case DeliverDelete(_, _, _) => DeleteValid(w, Next(w, step));
  }

  lemma {:induction false} RunValid(w: World, steps: seq<Step>)
    requires Valid(w) && Run(w, steps)
    ensures Valid(After(w, steps))
    decreases |steps|
  {
    if steps != [] {
      StepValid(w, steps[0]);
      RunValid(Next(w, steps[0]), steps[1..]);
    }
  }

  // ----- Convergence -----

  /** What the user sees of a document. */
  function Visible(items: seq<Item>, deleted: set<ID>): seq<ID> {
    if items == [] then []
    else (if items[0].id in deleted then [] else [items[0].id]) + Visible(items[1..], deleted)
  }

  /** In every run, whatever was created, delivered or deleted where and when: two
      replicas agree on the order of all items that both hold. */
  lemma OrderAgreed(steps: seq<Step>, c: nat, d: nat, x: Item, y: Item)
    requires Run(INIT, steps)
    requires x in After(INIT, steps).At(c).items && y in After(INIT, steps).At(c).items
    requires x in After(INIT, steps).At(d).items && y in After(INIT, steps).At(d).items
    ensures Before(After(INIT, steps).At(c).items, x, y) <==> Before(After(INIT, steps).At(d).items, x, y)
  {
    InitValid();
    RunValid(INIT, steps);
    var w := After(INIT, steps);
    assert ValidAt(w, c) && ValidAt(w, d);
    Agree(w.log, w.At(c).items, w.At(d).items, x, y);
  }

  /** In every run: replicas that received the same items hold the same list, and with
      the same deletions they show the same content. */
  lemma Converged(steps: seq<Step>, c: nat, d: nat)
    requires Run(INIT, steps)
    requires forall id :: Has(After(INIT, steps).At(c).items, id) <==> Has(After(INIT, steps).At(d).items, id)
    ensures After(INIT, steps).At(c).items == After(INIT, steps).At(d).items
    ensures After(INIT, steps).At(c).deleted == After(INIT, steps).At(d).deleted
      ==> Visible(After(INIT, steps).At(c).items, After(INIT, steps).At(c).deleted)
          == Visible(After(INIT, steps).At(d).items, After(INIT, steps).At(d).deleted)
  {
    InitValid();
    RunValid(INIT, steps);
    var w := After(INIT, steps);
    assert ValidAt(w, c) && ValidAt(w, d);
    var s, t := w.At(c).items, w.At(d).items;
    SameIdsSameItems(w.log, s, t);
    SameIdsSameItems(w.log, t, s);
    SameList(w.log, s, t);
  }

  lemma SameIdsSameItems(log: seq<Item>, s: seq<Item>, t: seq<Item>)
    requires CausalLog(log) && Replica(log, s) && Replica(log, t)
    requires forall id :: Has(s, id) <==> Has(t, id)
    ensures forall e <- s :: e in t
  {
    forall e | e in s ensures e in t {
      In(s, e);
      var f := Holds(t, e.id);
      assert e in log && f in log;
    }
  }
}
