/** Map entries and appends. */
module Registers {
  // All values that were ever set for a key form one list; the last one is the value of the
  // key.  Which one that is depends only on the set of items.

  import opened Arcs
  import opened Common
  import opened Yata
  import opened Agreement
  import R = Replicas

  predicate Appended(s: seq<Item>) {
    forall e <- s :: e.rightOrigin == None
  }

  function Items(s: seq<Item>): set<Item> {
    set e | e in s
  }

  // ----- The winner of a set of items -----

  /** No sibling of the item is of a higher client. */
  predicate Greatest(all: set<Item>, x: Item) {
    forall q <- all :: q.origin == x.origin && q != x ==> q.id.client < x.id.client
  }

  /** From the root of the origins down to `x`, each item is the greatest of its siblings. */
  ghost predicate OnPath(log: seq<Item>, all: set<Item>, x: Item)
    requires CausalLog(log) && x in log
    decreases Age(log, x)
  {
    && Greatest(all, x)
    && (x.origin.Some? ==> exists p <- all ::
         p in log && p.id == x.origin.value && Age(log, p) < Age(log, x) && OnPath(log, all, p))
  }

  /** The end of that path. */
  ghost predicate Wins(log: seq<Item>, all: set<Item>, x: Item)
    requires CausalLog(log)
  {
    x in all && x in log && OnPath(log, all, x) && forall q <- all :: q.origin != Some(x.id)
  }

  // ----- The winner is the last item -----

  /** All items after position `k` descend from the item there. */
  predicate RestDescends(s: seq<Item>, k: nat)
    requires k < |s|
  {
    forall j :: k < j < |s| ==> k <= LeftOf(s, s[j])
  }

  lemma SiblingsAscend(log: seq<Item>, s: seq<Item>, i: nat, j: nat)
    requires Replica(log, s) && Appended(s) && i < j < |s| && s[i].origin == s[j].origin
    ensures s[i].id.client < s[j].id.client
  {
    FindAt(s, i);
    FindAt(s, j);
    Pair(s, s[i], s[j]);
  }

  /** The list is a preorder: an item's origin is the item before it, or further out. */
  lemma Nested(log: seq<Item>, s: seq<Item>, i: nat, j: nat)
    requires Replica(log, s) && i < j < |s|
    ensures i <= LeftOf(s, s[j]) || LeftOf(s, s[j]) <= LeftOf(s, s[i])
    ensures LeftOf(s, s[j]) < j
  {
    FindAt(s, i);
    FindAt(s, j);
    Pair(s, s[i], s[j]);
    var k := Agreement.At(s, s[j]);
  }

  lemma Parent(log: seq<Item>, s: seq<Item>, i: nat) returns (m: nat)
    requires CausalLog(log) && Replica(log, s) && i < |s| && s[i].origin.Some?
    ensures m < i && m == LeftOf(s, s[i]) && s[m].id == s[i].origin.value && s[m] in log
    ensures Age(log, s[m]) < Age(log, s[i])
  {
    var k := Agreement.At(s, s[i]);
    FindAt(s, i);
    m := LeftOf(s, s[i]);
    assert s[i] in log && s[m] in log;
    Older(log, s[i]);
  }

  /** With all that follows among its descendants, an item is the greatest of its siblings. */
  lemma LastSibling(log: seq<Item>, s: seq<Item>, k: nat)
    requires Replica(log, s) && Appended(s) && k < |s| && RestDescends(s, k)
    ensures Greatest(Items(s), s[k])
  {
    var x := s[k];
    var i := Agreement.At(s, x);
    FindAt(s, k);
    forall q | q in Items(s) && q.origin == x.origin && q != x ensures q.id.client < x.id.client {
      var j :| 0 <= j < |s| && s[j] == q;
      SameRefs(s, q, x);
      SiblingsAscend(log, s, j, k);
    }
  }

  lemma ParentDescends(log: seq<Item>, s: seq<Item>, k: nat, m: nat)
    requires Replica(log, s) && k < |s| && RestDescends(s, k) && m < k && m == LeftOf(s, s[k])
    ensures RestDescends(s, m)
  {
    forall j | m < j < |s| ensures m <= LeftOf(s, s[j]) {
      if j < k {
        Nested(log, s, j, k);
      }
    }
  }

  lemma {:induction false} LastOnPath(log: seq<Item>, s: seq<Item>, k: nat)
    requires CausalLog(log) && Replica(log, s) && Appended(s) && k < |s| && RestDescends(s, k)
    ensures s[k] in log && OnPath(log, Items(s), s[k])
    decreases k
  {
    assert s[k] in s;
    LastSibling(log, s, k);
    if s[k].origin.Some? {
      var m := Parent(log, s, k);
      ParentDescends(log, s, k, m);
      LastOnPath(log, s, m);
      assert s[m] in Items(s);
    }
  }

  /** Whoever is on the path and before the last item has something after it that beats it. */
  lemma {:induction false} Climb(log: seq<Item>, s: seq<Item>, k: nat, j: nat)
    requires CausalLog(log) && Replica(log, s) && Appended(s) && k < j < |s|
    requires s[k] in log && LeftOf(s, s[j]) <= LeftOf(s, s[k])
    ensures !OnPath(log, Items(s), s[k])
    decreases k
  {
    var x, y := s[k], s[j];
    assert x in s && y in s;
    if LeftOf(s, y) == LeftOf(s, x) {
      SameRefs(s, x, y);
      SiblingsAscend(log, s, k, j);
      assert y in Items(s);
    } else {
      var m := Parent(log, s, k);
      Nested(log, s, m, j);
      Climb(log, s, m, j);
      forall p | p in Items(s) && p in log && p.id == x.origin.value && Age(log, p) < Age(log, x)
        ensures !OnPath(log, Items(s), p) {
        var i :| 0 <= i < |s| && s[i] == p;
        FindAt(s, i);
        FindAt(s, m);
      }
    }
  }

  /** In every replica the winner of its items, and no other item, is the last one. */
  lemma WinnerIsLast(log: seq<Item>, s: seq<Item>, x: Item)
    requires CausalLog(log) && Replica(log, s) && Appended(s) && x in s
    ensures Wins(log, Items(s), x) <==> x == s[|s| - 1]
  {
    var n := |s| - 1;
    var i :| 0 <= i < |s| && s[i] == x;
    assert x in log;
    if i == n {
      LastOnPath(log, s, n);
      forall q | q in Items(s) ensures q.origin != Some(x.id) {
        var j :| 0 <= j < |s| && s[j] == q;
        if q.origin.Some? {
          var m := Parent(log, s, j);
          assert m < n;
          FindAt(s, n);
        }
      }
    } else {
      FindAt(s, i);
      FindAt(s, n);
      Nested(log, s, i, i + 1);
      if LeftOf(s, s[i + 1]) == i {
        var m := Parent(log, s, i + 1);
        assert s[i + 1] in Items(s);
      } else {
        Climb(log, s, i, i + 1);
      }
    }
  }

  // ----- One replica of a map entry -----

  lemma {:induction false} Absent(s: seq<Item>, id: ID)
    requires forall e <- s :: e.id != id
    ensures !Has(s, id)
  {
    if s != [] {
      assert s[0] in s;
      Absent(s[1..], id);
    }
  }

  lemma AppendAdmissible(s: seq<Item>, client: nat, clock: nat)
    requires Canonical(s) && forall e <- s :: e.id.client == client ==> e.id.clock < clock
    ensures Admissible(s, R.NewItem(s, client, |s|, clock))
    ensures Position(s, R.NewItem(s, client, |s|, clock)) == |s|
  {
    var x := R.NewItem(s, client, |s|, clock);
    Absent(s, x.id);
    if |s| > 0 {
      FindAt(s, |s| - 1);
    }
    forall j | 0 <= j < |s| ensures InFront(ArcsOf(s), ArcOf(s, x), j) {
      assert Placed(ArcsOf(s), j);
    }
  }

  predicate AllButLast(s: seq<Item>, deleted: set<ID>) {
    forall i :: 0 <= i < |s| - 1 ==> s[i].id in deleted
  }

  /** What has to be deleted when `x` is inserted. */
  function Outdone(s: seq<Item>, k: nat, x: Item): set<ID> {
    if k < |s| then {x.id} else if s == [] then {} else {s[|s| - 1].id}
  }

  lemma EntryKept(s: seq<Item>, k: nat, x: Item, deleted: set<ID>)
    requires Appended(s) && x.rightOrigin == None && AllButLast(s, deleted) && k <= |s|
    ensures Appended(InsertAt(s, k, x)) && AllButLast(InsertAt(s, k, x), deleted + Outdone(s, k, x))
    ensures InsertAt(s, k, x)[|s|] == if k == |s| then x else s[|s| - 1]
    ensures k == |s| > 0 ==> InsertAt(s, k, x)[k - 1] == s[|s| - 1]
  {
    var t := InsertAt(s, k, x);
    forall i | 0 <= i < |t| - 1 ensures t[i].id in deleted + Outdone(s, k, x) {
      if i < k {
        assert t[i] == s[i];
      } else if i > k {
        assert t[i] == s[i - 1];
      }
    }
  }

  /** The items of one key of a map.  `current` is the entry of `_map`. */
  class MapEntry {
    var items: seq<Item>
    var deleted: set<ID>
    var current: Option<ID>

    /** The entry is the last item, and all other items are deleted. */
    ghost predicate Valid()
      reads this
    {
      && Canonical(items) && Appended(items)
      && current == (if items == [] then None else Some(items[|items| - 1].id))
      && AllButLast(items, deleted)
    }

    constructor ()
      ensures Valid() && items == [] && deleted == {}
    {
      items, deleted, current := [], {}, None;
    }

    /** `integrate` of an item with a `parentSub`. */
    method Integrate(x: Item)
      requires Valid() && Admissible(items, x) && x.rightOrigin == None
      modifies this
      ensures Valid() && items == Yata.Integrate(old(items), x)
      ensures var s := old(items);
        if items[|items| - 1] == x then deleted == (if s == [] then old(deleted) else old(deleted) + {s[|s| - 1].id})
        else deleted == old(deleted) + {x.id}
    {
      IntegrateCanonical(items, x);
      ghost var s := items;
      var k: nat := Position(items, x);
      EntryKept(items, k, x, deleted);
      items := InsertAt(items, k, x);
      if k == |items| - 1 {
        current := Some(x.id);
        if k > 0 {
          deleted := deleted + {items[k - 1].id};
        }
      } else {
        deleted := deleted + {x.id};
        Differs(s, x);
      }
    }

    /** `typeMapSet`: the new item is the value, whatever was there before. */
    method Set(client: nat, clock: nat)
      requires Valid() && forall e <- items :: e.id.client == client ==> e.id.clock < clock
      modifies this
      ensures Valid() && items == old(items) + [R.NewItem(old(items), client, |old(items)|, clock)]
      ensures ID(client, clock) !in old(deleted) ==> Get() == Some(ID(client, clock))
    {
      AppendAdmissible(items, client, clock);
      var x := Item(ID(client, clock), current, None);
      assert x == R.NewItem(items, client, |items|, clock);
      IntegrateCanonical(items, x);
      assert items[..|items|] == items && items[|items|..] == [];
      ghost var s := items;
      Integrate(x);
      NewLast(s, x, client, clock);
    }

    /** `typeMapDelete`. */
    method Delete()
      requires Valid()
      modifies this`deleted
      ensures Valid() && Get() == None && deleted == old(deleted) + (if current.Some? then {current.value} else {})
    {
      if current.Some? {
        deleted := deleted + {current.value};
      }
    }

    /** `typeMapGet`: the id of the value, if there is one. */
    function Get(): Option<ID>
      reads this
    {
      if current.Some? && current.value !in deleted then current else None
    }
  }

  lemma Differs(s: seq<Item>, x: Item)
    requires Canonical(s) && !Has(s, x.id) && s != []
    ensures s[|s| - 1] != x
  {
    FindAt(s, |s| - 1);
  }

  /** The item that was appended was not the last one before. */
  lemma NewLast(s: seq<Item>, x: Item, client: nat, clock: nat)
    requires Canonical(s) && forall e <- s :: e.id.client == client ==> e.id.clock < clock
    requires x.id == ID(client, clock)
    ensures s != [] ==> s[|s| - 1].id != x.id
  {
    if s != [] {
      assert s[|s| - 1] in s;
    }
  }

  // ----- Runs -----

  /** A run in which every insertion is an append. */
  predicate AppendRun(w: R.World, steps: seq<R.Step>)
    requires R.Run(w, steps)
    decreases |steps|
  {
    steps == [] || ((steps[0].Create? ==> steps[0].pos == |w.At(steps[0].client).items|)
                    && AppendRun(R.Next(w, steps[0]), steps[1..]))
  }

  lemma {:induction false} LogAppended(w: R.World, steps: seq<R.Step>)
    requires R.Run(w, steps) && AppendRun(w, steps) && Appended(w.log)
    ensures Appended(R.After(w, steps).log)
    decreases |steps|
  {
    if steps != [] {
      LogAppended(R.Next(w, steps[0]), steps[1..]);
    }
  }

  /** In every run of appends, in any order of delivery: the last item of a replica is the
      winner of the set of items that it holds. */
  lemma WinnerOfRun(steps: seq<R.Step>, c: nat, x: Item)
    requires R.Run(R.INIT, steps) && AppendRun(R.INIT, steps)
    requires x in R.After(R.INIT, steps).At(c).items
    ensures CausalLog(R.After(R.INIT, steps).log)
    ensures var w := R.After(R.INIT, steps);
      Wins(w.log, Items(w.At(c).items), x) <==> x == w.At(c).items[|w.At(c).items| - 1]
  {
    R.InitValid();
    R.RunValid(R.INIT, steps);
    LogAppended(R.INIT, steps);
    var w := R.After(R.INIT, steps);
    assert R.ValidAt(w, c);
    WinnerIsLast(w.log, w.At(c).items, x);
  }
}
