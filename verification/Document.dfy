/** The lists of a document. */
module Document {
  // Each type has a list of children, and a map type has one list for each of its keys.
  // `worlds` are the replicas that edit each list (module Replicas), and what they created.

  import opened Arcs
  import opened Common
  import opened Yata
  import opened Structs
  import opened MergeUpdates
  import opened Agreement
  import R = Replicas

  /** The fields `parent` and `parentSub` of every item of the store. */
  type Homes = map<ID, Place>

  type Lists = map<Place, seq<Yata.Item>>

  function ListAt(lists: Lists, p: Place): seq<Yata.Item> {
    if p in lists then lists[p] else []
  }

  /** `getMissing`: where an item belongs.  It belongs nowhere, and becomes a `GC`, when an
      item that it refers to was collected. */
  function PlaceOf(homes: Homes, u: Unit): Option<Place>
    requires u.Inserted?
  {
    if u.origin.Some? && u.origin.value !in homes then None
    else if u.rightOrigin.Some? && u.rightOrigin.value !in homes then None
    else
      match u.parent
      case Given(p) => if p.home.In? && p.home.item !in homes then None else Some(p)
      case Copied =>
        if u.origin.Some? then Some(homes[u.origin.value])
        else if u.rightOrigin.Some? then Some(homes[u.rightOrigin.value])
        else None
  }

  function ItemOf(id: ID, u: Unit): Yata.Item
    requires u.Inserted?
  {
    Yata.Item.Item(id, u.origin, u.rightOrigin)
  }

  /** `integrate` for one unit: it goes to its list, unless it belongs nowhere. */
  ghost predicate PutAs(homes: Homes, lists: Lists, homes': Homes, lists': Lists, id: ID, u: Unit) {
    var place := if u.Inserted? then PlaceOf(homes, u) else None;
    match place
    case None => homes' == homes && lists' == lists
    case Some(p) => homes' == homes[id := p] && lists' == lists[p := Integrate(ListAt(lists, p), ItemOf(id, u))]
  }

  // ----- What the replicas created -----

  type Worlds = Place -> R.World

  ghost predicate Reachable(w: R.World) {
    exists steps :: R.Run(R.INIT, steps) && R.After(R.INIT, steps) == w
  }

  ghost predicate Once(worlds: Worlds, p: Place, q: Place, x: Yata.Item, y: Yata.Item) {
    x in worlds(p).log && y in worlds(q).log && x.id == y.id ==> p == q
  }

  /** Every list is edited as in Replicas, and ids are unique. */
  ghost predicate History(worlds: Worlds) {
    (forall p :: Reachable(worlds(p))) && (forall p, q, x, y :: Once(worlds, p, q, x, y))
  }

  /** A unit of the list at `p`.  Without an origin and a right origin it names its place. */
  ghost predicate Created(worlds: Worlds, p: Place, id: ID, u: Unit) {
    && u.Inserted? && ItemOf(id, u) in worlds(p).log
    && (if u.parent.Given? then u.parent.place == p else u.origin.Some? || u.rightOrigin.Some?)
  }

  ghost predicate ExplainedAt(worlds: Worlds, id: ID, u: Unit) {
    u.Inserted? ==> exists p :: Created(worlds, p, id, u)
  }

  /** Updates hold what was created; any of it may have been collected since. */
  ghost predicate Explained(worlds: Worlds, content: Content) {
    forall id, u :: content(id, u) ==> ExplainedAt(worlds, id, u)
  }

  lemma WorldValid(worlds: Worlds, p: Place)
    requires History(worlds)
    ensures R.Valid(worlds(p))
  {
    var steps :| R.Run(R.INIT, steps) && R.After(R.INIT, steps) == worlds(p);
    R.InitValid();
    R.RunValid(R.INIT, steps);
  }

  // ----- The lists of a store -----

  ghost predicate ListOk(worlds: Worlds, homes: Homes, lists: Lists, p: Place) {
    Replica(worlds(p).log, ListAt(lists, p)) && forall e <- ListAt(lists, p) :: e.id in homes && homes[e.id] == p
  }

  ghost predicate HomeOk(homes: Homes, lists: Lists, id: ID)
    requires id in homes
  {
    Yata.Has(ListAt(lists, homes[id]), id)
  }

  /** Every list is arranged, and holds the items that belong there. */
  ghost predicate Filed(worlds: Worlds, homes: Homes, lists: Lists) {
    (forall p :: ListOk(worlds, homes, lists, p)) && (forall id <- homes :: HomeOk(homes, lists, id))
  }

  /** What a listed id stands for. */
  lemma FiledItem(worlds: Worlds, homes: Homes, lists: Lists, id: ID) returns (e: Yata.Item)
    requires Filed(worlds, homes, lists) && id in homes
    ensures e in ListAt(lists, homes[id]) && e.id == id && e in worlds(homes[id]).log
  {
    assert HomeOk(homes, lists, id) && ListOk(worlds, homes, lists, homes[id]);
    e := R.Holds(ListAt(lists, homes[id]), id);
  }

  /** What an item refers to belongs to the same list. */
  lemma SameHome(worlds: Worlds, homes: Homes, lists: Lists, p: Place, x: Yata.Item, o: ID)
    requires History(worlds) && Filed(worlds, homes, lists) && x in worlds(p).log && o in homes
    requires x.origin == Some(o) || x.rightOrigin == Some(o)
    ensures homes[o] == p && Yata.Has(ListAt(lists, p), o)
  {
    WorldValid(worlds, p);
    var log := worlds(p).log;
    var i :| 0 <= i < |log| && log[i] == x;
    assert RefersBack(log, i);
    var f := R.Holds(log, o);
    var e := FiledItem(worlds, homes, lists, o);
    assert Once(worlds, p, homes[o], f, e);
    assert HomeOk(homes, lists, o);
  }

  /** An item goes to the list that it was created for. */
  lemma RightPlace(worlds: Worlds, homes: Homes, lists: Lists, p: Place, id: ID, u: Unit)
    requires History(worlds) && Filed(worlds, homes, lists) && Created(worlds, p, id, u)
    ensures PlaceOf(homes, u).Some? ==> PlaceOf(homes, u).value == p && DepsIn(ListAt(lists, p), ItemOf(id, u))
  {
    var x := ItemOf(id, u);
    if u.origin.Some? && u.origin.value in homes {
      SameHome(worlds, homes, lists, p, x, u.origin.value);
    }
    if u.rightOrigin.Some? && u.rightOrigin.value in homes {
      SameHome(worlds, homes, lists, p, x, u.rightOrigin.value);
    }
  }

  /** The store has no later items of the client. */
  ghost predicate Latest(homes: Homes, id: ID) {
    forall e <- homes :: e.client == id.client ==> e.clock < id.clock
  }

  /** An item that comes next of its client fits in the list, whatever else was collected. */
  lemma FitsList(worlds: Worlds, homes: Homes, lists: Lists, p: Place, x: Yata.Item)
    requires History(worlds) && Filed(worlds, homes, lists) && Latest(homes, x.id)
    requires x in worlds(p).log && DepsIn(ListAt(lists, p), x)
    ensures Admissible(ListAt(lists, p), x)
  {
    WorldValid(worlds, p);
    var w, s := worlds(p), ListAt(lists, p);
    assert R.ValidAt(w, x.id.client) && ListOk(worlds, homes, lists, p);
    if Yata.Has(s, x.id) {
      var e := R.Holds(s, x.id);
    }
    R.AnchorAgrees(w.log, s, w.At(x.id.client).items, x);
  }

  /** Integrating an item into its list keeps all lists arranged. */
  lemma FiledNext(worlds: Worlds, homes: Homes, lists: Lists, p: Place, x: Yata.Item)
    requires History(worlds) && Filed(worlds, homes, lists) && Latest(homes, x.id)
    requires x in worlds(p).log && DepsIn(ListAt(lists, p), x)
    ensures Filed(worlds, homes[x.id := p], lists[p := Integrate(ListAt(lists, p), x)])
    ensures 0 <= Position(ListAt(lists, p), x) <= |ListAt(lists, p)|
    ensures Integrate(ListAt(lists, p), x) == InsertAt(ListAt(lists, p), Position(ListAt(lists, p), x), x)
  {
    var s := ListAt(lists, p);
    assert ListOk(worlds, homes, lists, p);
    FitsList(worlds, homes, lists, p, x);
    IntegrateCanonical(s, x);
    InsertedFiled(worlds, homes, lists, p, x, Position(s, x));
  }

  lemma InsertedFiled(worlds: Worlds, homes: Homes, lists: Lists, p: Place, x: Yata.Item, k: nat)
    requires Filed(worlds, homes, lists) && Latest(homes, x.id) && x in worlds(p).log
    requires k <= |ListAt(lists, p)| && Canonical(InsertAt(ListAt(lists, p), k, x))
    ensures Filed(worlds, homes[x.id := p], lists[p := InsertAt(ListAt(lists, p), k, x)])
  {
    var s := ListAt(lists, p);
    var t := InsertAt(s, k, x);
    var homes', lists' := homes[x.id := p], lists[p := t];
    forall q ensures ListOk(worlds, homes', lists', q) {
      assert ListOk(worlds, homes, lists, q);
      if q == p {
        forall e | e in t ensures e.id in homes' && homes'[e.id] == p && e in worlds(p).log {
          assert e == x || e in s;
        }
      }
    }
    forall id | id in homes' ensures HomeOk(homes', lists', id) {
      StillHome(homes, lists, p, x, k, id);
    }
  }

  lemma StillHome(homes: Homes, lists: Lists, p: Place, x: Yata.Item, k: nat, id: ID)
    requires k <= |ListAt(lists, p)| && (id == x.id || (id in homes && HomeOk(homes, lists, id)))
    ensures HomeOk(homes[x.id := p], lists[p := InsertAt(ListAt(lists, p), k, x)], id)
  {
    var s := ListAt(lists, p);
    if id == x.id {
      R.In(InsertAt(s, k, x), x);
    } else if homes[id] == p {
      FindInserted(s, k, x, id);
    }
  }

  // ----- Two stores with the same items -----

  lemma SameItemsFiled(worlds: Worlds, homes: Homes, lists: Lists, homes': Homes, lists': Lists, p: Place)
    requires History(worlds) && Filed(worlds, homes, lists) && Filed(worlds, homes', lists')
    requires homes.Keys <= homes'.Keys
    ensures forall e <- ListAt(lists, p) :: e in ListAt(lists', p)
  {
    WorldValid(worlds, p);
    forall e | e in ListAt(lists, p) ensures e in ListAt(lists', p) {
      assert ListOk(worlds, homes, lists, p) && e.id in homes.Keys;
      var f := FiledItem(worlds, homes', lists', e.id);
      assert Once(worlds, p, homes'[e.id], e, f);
    }
  }

  /** Stores that hold the same items hold the same lists, whatever the order of arrival. */
  lemma ListsAgree(worlds: Worlds, homes: Homes, lists: Lists, homes': Homes, lists': Lists, p: Place)
    requires History(worlds) && Filed(worlds, homes, lists) && Filed(worlds, homes', lists')
    requires homes.Keys == homes'.Keys
    ensures ListAt(lists, p) == ListAt(lists', p)
  {
    WorldValid(worlds, p);
    assert ListOk(worlds, homes, lists, p) && ListOk(worlds, homes', lists', p);
    SameItemsFiled(worlds, homes, lists, homes', lists', p);
    SameItemsFiled(worlds, homes', lists', homes, lists, p);
    SameList(worlds(p).log, ListAt(lists, p), ListAt(lists', p));
  }

  /** An item that two stores have in a list is in the same list of both. */
  lemma SharedHome(worlds: Worlds, homes: Homes, lists: Lists, homes': Homes, lists': Lists, id: ID)
    requires History(worlds) && Filed(worlds, homes, lists) && Filed(worlds, homes', lists')
    requires id in homes && id in homes'
    ensures homes[id] == homes'[id]
  {
    var e := FiledItem(worlds, homes, lists, id);
    var f := FiledItem(worlds, homes', lists', id);
    assert Once(worlds, homes[id], homes'[id], e, f);
  }

  lemma SameHomes(worlds: Worlds, homes: Homes, lists: Lists, homes': Homes, lists': Lists)
    requires History(worlds) && Filed(worlds, homes, lists) && Filed(worlds, homes', lists')
    requires homes.Keys == homes'.Keys
    ensures homes == homes'
  {
    forall id | id in homes.Keys ensures homes[id] == homes'[id] {
      SharedHome(worlds, homes, lists, homes', lists', id);
    }
  }

  /** Even where other items were collected, two stores agree about the order of the items
      that both hold. */
  lemma OrderAgreed(worlds: Worlds, homes: Homes, lists: Lists, homes': Homes, lists': Lists, p: Place, x: Yata.Item,
                    y: Yata.Item)
    requires History(worlds) && Filed(worlds, homes, lists) && Filed(worlds, homes', lists')
    requires x in ListAt(lists, p) && y in ListAt(lists, p) && x in ListAt(lists', p) && y in ListAt(lists', p)
    ensures Before(ListAt(lists, p), x, y) <==> Before(ListAt(lists', p), x, y)
  {
    WorldValid(worlds, p);
    assert ListOk(worlds, homes, lists, p) && ListOk(worlds, homes', lists', p);
    Agree(worlds(p).log, ListAt(lists, p), ListAt(lists', p), x, y);
  }

  // ----- Why items are deleted -----

  /** A value of a key that another value came after. */
  predicate Outdone(homes: Homes, lists: Lists, id: ID) {
    id in homes && homes[id].sub.Some? && var s := ListAt(lists, homes[id]); s != [] && s[|s| - 1].id != id
  }

  predicate ChildOf(homes: Homes, id: ID, parent: ID) {
    id in homes && homes[id].home == In(parent)
  }

  /** Parents are items too, older than what is inside of them. */
  ghost predicate Rooted(homes: Homes, time: Time) {
    forall id <- homes :: homes[id].home.In? ==> homes[id].home.item in homes && time(homes[id].home.item) < time(id)
  }

  lemma RootedNext(homes: Homes, time: Time, id: ID, u: Unit)
    requires Rooted(homes, time) && u.Inserted? && PlaceOf(homes, u).Some?
    requires forall d <- UnitDeps(u) :: time(d) < time(id)
    ensures Rooted(homes[id := PlaceOf(homes, u).value], time)
  {
    var p := PlaceOf(homes, u).value;
    if u.parent.Given? {
      assert p.home.In? ==> p.home.item in u.parent.Deps();
    } else if u.origin.Some? {
      assert u.origin.value in homes && u.origin.value in UnitDeps(u);
    } else {
      assert u.rightOrigin.value in homes && u.rightOrigin.value in UnitDeps(u);
    }
  }

  /** The reasons for which an id of the store is deleted: a delete set named it, it arrived
      without its content, it was collected, a later value of its key came, or the item
      that it is inside of is deleted. */
  ghost predicate Doomed(homes: Homes, lists: Lists, named: iset<ID>, gone: iset<ID>, deleted: iset<ID>, id: ID) {
    || id in named || id in gone || id !in homes || Outdone(homes, lists, id)
    || (homes[id].home.In? && homes[id].home.item in deleted)
  }

  /** The deleted ids of the store are exactly those that there is a reason for. */
  ghost predicate Ruled(homes: Homes, lists: Lists, sv: StateVector, named: iset<ID>, gone: iset<ID>,
                        deleted: iset<ID>) {
    forall id :: id in deleted <==> Held(sv, id) && Doomed(homes, lists, named, gone, deleted, id)
  }

  /** A value of a key is the last one, and what an item is inside of is not deleted. */
  predicate Shown(homes: Homes, lists: Lists, deleted: iset<ID>, id: ID)
    requires id in homes
  {
    var p := homes[id];
    && (p.sub.Some? ==> ListAt(lists, p) != [] && ListAt(lists, p)[|ListAt(lists, p)| - 1].id == id)
    && (p.home.In? ==> p.home.item !in deleted)
  }

  /** So of each key only the last value can be there, and it is, unless something named it or
      it is inside of something deleted. */
  lemma LiveIsShown(worlds: Worlds, homes: Homes, lists: Lists, sv: StateVector, named: iset<ID>, gone: iset<ID>,
                    deleted: iset<ID>, id: ID)
    requires Filed(worlds, homes, lists) && Ruled(homes, lists, sv, named, gone, deleted)
    requires id in homes && Held(sv, id)
    ensures id !in deleted <==> id !in named && id !in gone && Shown(homes, lists, deleted, id)
  {
    var e := FiledItem(worlds, homes, lists, id);
  }

  /** The reasons determine what is deleted. */
  lemma {:induction false} RuledOnce(homes: Homes, lists: Lists, sv: StateVector, named: iset<ID>, gone: iset<ID>,
                                     time: Time, deleted: iset<ID>, deleted': iset<ID>, id: ID)
    requires Ruled(homes, lists, sv, named, gone, deleted) && Ruled(homes, lists, sv, named, gone, deleted')
    requires Rooted(homes, time)
    ensures id in deleted <==> id in deleted'
    decreases time(id)
  {
    if id in homes && homes[id].home.In? {
      RuledOnce(homes, lists, sv, named, gone, time, deleted, deleted', homes[id].home.item);
    }
  }
}
