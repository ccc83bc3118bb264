/** Adding units, and deleting items. */
module Deletion {
  // An item is deleted with all that is inside of it.

  import opened Common
  import opened Yata
  import opened Blocks
  import opened Structs
  import opened MergeUpdates
  import opened Retry
  import opened DeleteSets
  import opened Document
  import A = ApplyDeletes
  import S = Store

  // ----- Adding units -----

  /** `getStateVector`. */
  function Vector(clients: A.Clients): StateVector {
    map c | c in clients :: A.State(clients[c])
  }

  function StructsOf(clients: A.Clients, c: nat): seq<Block> {
    if c in clients then clients[c] else []
  }

  /** `addStruct`, one unit at a time. */
  function AddUnit(clients: A.Clients, id: ID, u: Unit, deleted: bool): A.Clients {
    var b := Block(id, 1, if u.Inserted? then u.origin else None, if u.Inserted? then u.rightOrigin else None, deleted);
    clients[id.client := StructsOf(clients, id.client) + [b]]
  }

  lemma AddUnitStored(clients: A.Clients, id: ID, u: Unit, deleted: bool)
    requires A.Stored(clients) && id.clock == State(Vector(clients), id.client)
    ensures A.Stored(AddUnit(clients, id, u, deleted))
    ensures Vector(AddUnit(clients, id, u, deleted)) == Vector(clients)[id.client := id.clock + 1]
    ensures forall x :: A.Deleted(AddUnit(clients, id, u, deleted), x) <==>
      A.Deleted(clients, x) || (deleted && x == id)
  {
    var c, bs := id.client, StructsOf(clients, id.client);
    var b := AddUnit(clients, id, u, deleted)[c][|bs|];
    ExtendStored(clients, c, bs, b);
    forall x ensures A.Deleted(AddUnit(clients, id, u, deleted), x) <==> A.Deleted(clients, x) || (deleted && x == id) {
      if x.client == c {
        A.DeletedConcat(bs, [b], x.clock);
        assert A.DeletedAt([b], x.clock) <==> A.HoldsDeleted([b][0], x.clock);
        assert !A.DeletedAt([], x.clock);
      }
    }
  }

  /** One client got to clock `k`. */
  ghost predicate UpToNow(sv: StateVector, sv': StateVector, client: nat, k: nat) {
    State(sv, client) <= k && sv' == if State(sv, client) == k then sv else sv[client := k]
  }

  lemma UpToNext(sv: StateVector, now: StateVector, client: nat, k: nat)
    requires UpToNow(sv, now, client, k)
    ensures UpToNow(sv, now[client := k + 1], client, k + 1)
  {
  }

  lemma ExtendStored(clients: A.Clients, c: nat, bs: seq<Block>, b: Block)
    requires A.Stored(clients) && bs == StructsOf(clients, c) && b.id == ID(c, A.State(bs)) && b.len > 0
    ensures A.Stored(clients[c := bs + [b]])
    ensures Vector(clients[c := bs + [b]]) == Vector(clients)[c := A.State(bs) + b.len]
  {
    if bs == [] {
      assert bs + [b] == [b];
    } else {
      S.AddPartition(bs, c, b);
    }
    assert A.State(bs + [b]) == A.State(bs) + b.len;
  }

  // ----- Applying the ranges of delete sets -----

  predicate Named(ds: Option<DeleteSet>, id: ID) {
    ds.Some? && Names(ds.value, id)
  }

  /** The named ids that the store holds are applied, and the others pend.  `named` are all
      ids that were applied so far. */
  ghost predicate DeletesAt(pds: Option<DeleteSet>, ds: DeleteSet, sv: StateVector, named: iset<ID>,
                            pds': Option<DeleteSet>, named': iset<ID>, id: ID) {
    && (Named(pds', id) <==> (Names(ds, id) || Named(pds, id)) && !Held(sv, id))
    && (id in named' <==> id in named || ((Names(ds, id) || Named(pds, id)) && Held(sv, id)))
  }

  ghost predicate Deletes(pds: Option<DeleteSet>, ds: DeleteSet, sv: StateVector, named: iset<ID>,
                          pds': Option<DeleteSet>, named': iset<ID>) {
    forall id :: DeletesAt(pds, ds, sv, named, pds', named', id)
  }

  /** The units of every client, in the same order. */
  ghost predicate SameLists(clients: A.Clients, clients': A.Clients) {
    clients.Keys == clients'.Keys && forall c <- clients :: Flatten(clients'[c]) == Flatten(clients[c])
  }

  /** The named ids of the store are deleted, and `rest` names the others. */
  ghost predicate AppliesAt(clients: A.Clients, ds: DeleteSet, clients': A.Clients, rest: Option<DeleteSet>, id: ID) {
    && (A.Deleted(clients', id) <==> A.Deleted(clients, id) || (Names(ds, id) && Held(Vector(clients), id)))
    && (Named(rest, id) <==> Names(ds, id) && !Held(Vector(clients), id))
  }

  ghost predicate ClientApplied(clients: A.Clients, ds: DeleteSet, clients': A.Clients, unapplied: DeleteSet, c: nat)
    requires c in ds
  {
    && A.Applied(StructsOf(clients, c), StructsOf(clients', c), c, ds[c])
    && A.Rest(if c in unapplied then unapplied[c] else [], ds[c], A.State(StructsOf(clients, c)))
  }

  ghost predicate SameStore(c0: A.Clients, c1: A.Clients) {
    A.Stored(c0) && A.Stored(c1) && Vector(c1) == Vector(c0) && SameLists(c0, c1)
  }

  ghost predicate Untouched(c0: A.Clients, ds: DeleteSet, c1: A.Clients, todo: set<nat>) {
    c0.Keys == c1.Keys && forall c <- c0 :: c in todo || c !in ds ==> c1[c] == c0[c]
  }

  ghost predicate AppliedSoFar(c0: A.Clients, ds: DeleteSet, c1: A.Clients, unapplied: DeleteSet, todo: set<nat>) {
    && todo <= ds.Keys && unapplied.Keys <= ds.Keys - todo && Inhabited(unapplied)
    && SameStore(c0, c1) && Untouched(c0, ds, c1, todo)
    && (forall c <- ds.Keys - todo :: ClientApplied(c0, ds, c1, unapplied, c))
  }

  ghost predicate SameOthers(c0: A.Clients, c1: A.Clients, c: nat) {
    c0.Keys == c1.Keys && forall d <- c0 :: d != c ==> c1[d] == c0[d]
  }

  lemma AppliedSame(bs0: seq<Block>, bs: seq<Block>, c: nat, dels: seq<Range>)
    requires A.Applied(bs0, bs, c, dels) && bs0 != []
    ensures S.Partition(bs, c) && S.StateOf(bs) == A.State(bs0) && Flatten(bs) == Flatten(bs0)
  {
  }

  lemma ReplacedStored(c1: A.Clients, c: nat, bs: seq<Block>)
    requires A.Stored(c1) && c in c1 && S.Partition(bs, c) && S.StateOf(bs) == A.State(c1[c])
    ensures A.Stored(c1[c := bs]) && Vector(c1[c := bs]) == Vector(c1)
  {
  }

  lemma ReplacedLists(c1: A.Clients, c: nat, bs: seq<Block>)
    requires c in c1 && Flatten(bs) == Flatten(c1[c])
    ensures SameLists(c1, c1[c := bs])
  {
    forall d | d in c1 ensures Flatten(c1[c := bs][d]) == Flatten(c1[d]) {
      assert d != c ==> c1[c := bs][d] == c1[d];
    }
  }

  lemma SameListsTwice(c0: A.Clients, c1: A.Clients, c2: A.Clients)
    requires SameLists(c0, c1) && SameLists(c1, c2)
    ensures SameLists(c0, c2)
  {
    forall d | d in c0 ensures Flatten(c2[d]) == Flatten(c0[d]) {
      assert Flatten(c1[d]) == Flatten(c0[d]);
    }
  }

  lemma NextApplied(c0: A.Clients, ds: DeleteSet, c1: A.Clients, unapplied: DeleteSet, todo: set<nat>, c: nat,
                    more: seq<Range>, c2: A.Clients, u2: DeleteSet)
    requires AppliedSoFar(c0, ds, c1, unapplied, todo) && c in todo && SameStore(c1, c2) && SameOthers(c1, c2, c)
    requires A.Applied(StructsOf(c1, c), StructsOf(c2, c), c, ds[c]) && A.Rest(more, ds[c], A.State(StructsOf(c1, c)))
    requires u2 == if more != [] then unapplied[c := more] else unapplied
    ensures AppliedSoFar(c0, ds, c2, u2, todo - {c})
  {
    SameListsTwice(c0, c1, c2);
    NextUntouched(c0, ds, c1, unapplied, todo, c, c2, u2, more);
    NextClientApplied(c0, ds, c1, unapplied, todo, c, c2, u2);
  }

  lemma NextUntouched(c0: A.Clients, ds: DeleteSet, c1: A.Clients, unapplied: DeleteSet, todo: set<nat>, c: nat,
                      c2: A.Clients, u2: DeleteSet, more: seq<Range>)
    requires Untouched(c0, ds, c1, todo) && c in todo && todo <= ds.Keys && SameOthers(c1, c2, c)
    requires unapplied.Keys <= ds.Keys - todo && Inhabited(unapplied)
    requires u2 == if more != [] then unapplied[c := more] else unapplied
    ensures Untouched(c0, ds, c2, todo - {c}) && u2.Keys <= ds.Keys - (todo - {c}) && Inhabited(u2)
  {
  }

  lemma NextClientApplied(c0: A.Clients, ds: DeleteSet, c1: A.Clients, unapplied: DeleteSet, todo: set<nat>, c: nat,
                          c2: A.Clients, u2: DeleteSet)
    requires AppliedSoFar(c0, ds, c1, unapplied, todo) && c in todo
    requires c2.Keys == c1.Keys && forall d <- c1 :: d != c ==> c2[d] == c1[d]
    requires u2.Keys <= unapplied.Keys + {c} && unapplied.Keys <= u2.Keys
    requires forall d <- unapplied :: u2[d] == unapplied[d]
    requires A.Applied(StructsOf(c1, c), StructsOf(c2, c), c, ds[c])
    requires A.Rest(if c in u2 then u2[c] else [], ds[c], A.State(StructsOf(c1, c)))
    ensures forall d <- ds.Keys - (todo - {c}) :: ClientApplied(c0, ds, c2, u2, d)
  {
    assert StructsOf(c1, c) == StructsOf(c0, c);
    forall d | d in ds.Keys - (todo - {c}) ensures ClientApplied(c0, ds, c2, u2, d) {
      if d != c {
        assert ClientApplied(c0, ds, c1, unapplied, d);
        assert StructsOf(c2, d) == StructsOf(c1, d);
      }
    }
  }

  lemma AppliesId(clients: A.Clients, ds: DeleteSet, clients': A.Clients, unapplied: DeleteSet, id: ID)
    requires SameLists(clients, clients') && unapplied.Keys <= ds.Keys
    requires forall c <- ds :: ClientApplied(clients, ds, clients', unapplied, c)
    requires forall c <- clients :: c !in ds ==> clients'[c] == clients[c]
    ensures AppliesAt(clients, ds, clients', if unapplied == map[] then None else Some(unapplied), id)
  {
    var c := id.client;
    if c in ds {
      assert ClientApplied(clients, ds, clients', unapplied, c);
      assert A.AppliedIs(StructsOf(clients, c), StructsOf(clients', c), ds[c], id.clock);
      assert A.RestIs(if c in unapplied then unapplied[c] else [], ds[c], A.State(StructsOf(clients, c)), id.clock);
    }
  }

  lemma SameStoreSelf(c: A.Clients)
    requires A.Stored(c)
    ensures SameStore(c, c)
  {
  }

  lemma SameStoreTwice(c0: A.Clients, c1: A.Clients, c2: A.Clients)
    requires SameStore(c0, c1) && SameStore(c1, c2)
    ensures SameStore(c0, c2)
  {
    SameListsTwice(c0, c1, c2);
  }

  lemma MarkedId(c0: A.Clients, c1: A.Clients, id: ID, y: ID)
    requires SameStore(c0, c1) && SameOthers(c0, c1, id.client) && Held(Vector(c0), id)
    requires A.Applied(StructsOf(c0, id.client), StructsOf(c1, id.client), id.client, [Range(id.clock, 1)])
    ensures A.Deleted(c1, y) <==> A.Deleted(c0, y) || y == id
  {
    if y.client == id.client {
      assert A.AppliedIs(StructsOf(c0, y.client), StructsOf(c1, y.client), [Range(id.clock, 1)], y.clock);
      A.InOne(Range(id.clock, 1), y.clock);
    }
  }

  /** The named ids that the store holds. */
  ghost function NamedIn(ds: DeleteSet, sv: StateVector): iset<ID> {
    iset id: ID | Names(ds, id) && Held(sv, id)
  }

  lemma NamedNow(c0: A.Clients, ds: DeleteSet, c1: A.Clients, rest: Option<DeleteSet>, named: iset<ID>)
    requires Vector(c0) == Vector(c1) && forall id :: AppliesAt(c0, ds, c1, rest, id)
    ensures forall id :: DeletesAt(None, ds, Vector(c0), named, rest, named + NamedIn(ds, Vector(c0)), id)
  {
    forall id ensures DeletesAt(None, ds, Vector(c0), named, rest, named + NamedIn(ds, Vector(c0)), id) {
      assert AppliesAt(c0, ds, c1, rest, id);
    }
  }

  // ----- Items inside of items -----

  ghost function DeletedIds(clients: A.Clients): iset<ID> {
    iset id: ID | A.Deleted(clients, id)
  }

  /** The content was deleted before an update was written. */
  ghost predicate WasGone(content: Content, id: ID) {
    exists u :: content(id, u) && u.Inserted? && u.gone
  }

  ghost predicate NothingCollected(content: Content) {
    forall id, u :: content(id, u) ==> u.Inserted?
  }

  /** What is assumed of all updates. */
  ghost predicate Assumed(content: Content, time: Time, worlds: Worlds) {
    Causal(content, time) && History(worlds) && Explained(worlds, content)
  }

  /** The items of the store are in their lists. */
  ghost predicate Tidy(clients: A.Clients, homes: Homes, lists: Lists, time: Time, worlds: Worlds) {
    && A.Stored(clients) && Filed(worlds, homes, lists) && Rooted(homes, time)
    && forall id <- homes :: Held(Vector(clients), id)
  }

  lemma TidyIs(clients: A.Clients, homes: Homes, lists: Lists, time: Time, worlds: Worlds)
    requires Tidy(clients, homes, lists, time, worlds)
    ensures A.Stored(clients) && Filed(worlds, homes, lists) && forall id <- homes :: Held(Vector(clients), id)
  {
  }

  /** Nothing is missing from the lists but what was collected. */
  ghost predicate Complete(clients: A.Clients, homes: Homes, named: iset<ID>, gone: iset<ID>, content: Content) {
    && (forall id <- named :: Held(Vector(clients), id))
    && (forall id <- gone :: Held(Vector(clients), id) && WasGone(content, id))
    && (NothingCollected(content) ==> forall id :: Held(Vector(clients), id) ==> id in homes)
  }

  /** The deleted ids are those that there is a reason for. */
  ghost predicate Neat(clients: A.Clients, homes: Homes, lists: Lists, named: iset<ID>, gone: iset<ID>,
                       content: Content, time: Time, worlds: Worlds) {
    && Tidy(clients, homes, lists, time, worlds) && Complete(clients, homes, named, gone, content)
    && Ruled(homes, lists, Vector(clients), named, gone, DeletedIds(clients))
  }

  /** The deletion of items spreads to what is inside of them, and to nothing else. */
  ghost predicate SpreadAt(c0: A.Clients, c1: A.Clients, homes: Homes, y: ID) {
    && (A.Deleted(c0, y) ==> A.Deleted(c1, y))
    && (A.Deleted(c1, y) && !A.Deleted(c0, y) ==> Inside(c1, homes, y))
    && (InNew(c0, c1, homes, y) ==> A.Deleted(c1, y))
  }

  /** The item is inside of one that is deleted. */
  predicate Inside(clients: A.Clients, homes: Homes, y: ID) {
    y in homes && homes[y].home.In? && A.Deleted(clients, homes[y].home.item)
  }

  /** The item is inside of one that was deleted in between. */
  predicate InNew(c0: A.Clients, c1: A.Clients, homes: Homes, y: ID) {
    Inside(c1, homes, y) && !A.Deleted(c0, homes[y].home.item)
  }

  ghost predicate Spread(c0: A.Clients, c1: A.Clients, homes: Homes) {
    forall y :: SpreadAt(c0, c1, homes, y)
  }

  ghost predicate ChildrenDeleted(clients: A.Clients, homes: Homes, parent: ID) {
    forall y :: ChildOf(homes, y, parent) ==> A.Deleted(clients, y)
  }

  /** One item is deleted, and all that is inside of it. */
  ghost predicate DeepAt(c0: A.Clients, c1: A.Clients, homes: Homes, id: ID, y: ID) {
    && (A.Deleted(c0, y) || y == id ==> A.Deleted(c1, y))
    && (A.Deleted(c1, y) && !A.Deleted(c0, y) ==> y == id || Inside(c1, homes, y))
    && (InNew(c0, c1, homes, y) ==> A.Deleted(c1, y))
  }

  ghost predicate Deep(c0: A.Clients, c1: A.Clients, homes: Homes, id: ID) {
    forall y :: DeepAt(c0, c1, homes, id, y)
  }

  /** Values that others came after are deleted, but for one. */
  ghost predicate OutdoneBut(clients: A.Clients, homes: Homes, lists: Lists, id: ID) {
    forall y :: Outdone(homes, lists, y) ==> A.Deleted(clients, y) || y == id
  }

  ghost function Undeleted(clients: A.Clients, homes: Homes): set<ID> {
    set y | y in homes && !A.Deleted(clients, y)
  }

  ghost predicate Marked(c0: A.Clients, c1: A.Clients, id: ID) {
    forall y :: A.Deleted(c1, y) <==> A.Deleted(c0, y) || y == id
  }

  /** After an item was marked. */
  lemma MarkedOutdone(c0: A.Clients, c1: A.Clients, homes: Homes, lists: Lists, id: ID)
    requires Marked(c0, c1, id) && OutdoneBut(c0, homes, lists, id) && id in homes && !A.Deleted(c0, id)
    ensures OutdoneBut(c1, homes, lists, id) && A.Deleted(c1, id) && Undeleted(c1, homes) < Undeleted(c0, homes)
  {
    assert id in Undeleted(c0, homes) && id !in Undeleted(c1, homes);
  }

  lemma DeepSelf(c: A.Clients, homes: Homes, id: ID)
    requires A.Deleted(c, id)
    ensures Deep(c, c, homes, id)
  {
  }

  lemma DeepOf(c0: A.Clients, c1: A.Clients, c2: A.Clients, homes: Homes, id: ID)
    requires !A.Deleted(c0, id) && Marked(c0, c1, id) && Spread(c1, c2, homes) && ChildrenDeleted(c2, homes, id)
    ensures Deep(c0, c2, homes, id)
  {
    forall y ensures DeepAt(c0, c2, homes, id, y) {
      assert SpreadAt(c1, c2, homes, y);
      if InNew(c0, c2, homes, y) {
        assert ChildOf(homes, y, homes[y].home.item);
      }
    }
  }

  lemma SpreadDeep(c0: A.Clients, c1: A.Clients, c2: A.Clients, homes: Homes, id: ID)
    requires Spread(c0, c1, homes) && Deep(c1, c2, homes, id) && Inside(c1, homes, id)
    ensures Spread(c0, c2, homes)
  {
    assert DeepAt(c1, c2, homes, id, homes[id].home.item);
    forall y ensures SpreadAt(c0, c2, homes, y) {
      assert SpreadAt(c0, c1, homes, y) && DeepAt(c1, c2, homes, id, y);
      if y in homes && homes[y].home.In? {
        assert DeepAt(c1, c2, homes, id, homes[y].home.item);
      }
    }
  }

  lemma SpreadTwice(c0: A.Clients, c1: A.Clients, c2: A.Clients, homes: Homes)
    requires Spread(c0, c1, homes) && Spread(c1, c2, homes)
    ensures Spread(c0, c2, homes)
  {
    forall y ensures SpreadAt(c0, c2, homes, y) {
      assert SpreadAt(c0, c1, homes, y) && SpreadAt(c1, c2, homes, y);
      if y in homes && homes[y].home.In? {
        assert SpreadAt(c1, c2, homes, homes[y].home.item);
      }
    }
  }

  /** All that stands in a list that belongs to a type. */
  lemma ChildListed(worlds: Worlds, homes: Homes, lists: Lists, y: ID, parent: ID)
    requires Filed(worlds, homes, lists) && ChildOf(homes, y, parent)
    ensures homes[y] in lists && exists i :: 0 <= i < |lists[homes[y]]| && lists[homes[y]][i].id == y
  {
    var e := FiledItem(worlds, homes, lists, y);
    var s := ListAt(lists, homes[y]);
    var i :| 0 <= i < |s| && s[i] == e;
  }

  /** The first `n` items of a list are deleted; of a key, all but the last are anyway. */
  ghost predicate ItemsDeleted(clients: A.Clients, homes: Homes, lists: Lists, p: Place, n: nat) {
    n <= |ListAt(lists, p)| && forall i :: 0 <= i < n ==> ItemDeleted(clients, homes, lists, ListAt(lists, p)[i].id)
  }

  ghost predicate ItemDeleted(clients: A.Clients, homes: Homes, lists: Lists, id: ID) {
    A.Deleted(clients, id) || Outdone(homes, lists, id)
  }

  ghost predicate ListDeleted(clients: A.Clients, homes: Homes, lists: Lists, p: Place) {
    ItemsDeleted(clients, homes, lists, p, |ListAt(lists, p)|)
  }

  /** While the children of `parent` are deleted. */
  ghost predicate Going(c0: A.Clients, c1: A.Clients, homes: Homes, lists: Lists, parent: ID) {
    && SameStore(c0, c1) && Spread(c0, c1, homes) && OutdoneBut(c1, homes, lists, parent) && A.Deleted(c1, parent)
    && Undeleted(c1, homes) <= Undeleted(c0, homes)
  }

  lemma GoingStart(c: A.Clients, homes: Homes, lists: Lists, parent: ID)
    requires A.Stored(c) && OutdoneBut(c, homes, lists, parent) && A.Deleted(c, parent)
    ensures Going(c, c, homes, lists, parent)
  {
  }

  lemma GoingIs(c0: A.Clients, c1: A.Clients, homes: Homes, lists: Lists, parent: ID)
    requires Going(c0, c1, homes, lists, parent)
    ensures OutdoneBut(c1, homes, lists, parent) && A.Deleted(c1, parent) && SameStore(c0, c1)
    ensures Spread(c0, c1, homes) && Undeleted(c1, homes) <= Undeleted(c0, homes)
  {
  }

  lemma GoingTwice(c0: A.Clients, c1: A.Clients, c2: A.Clients, homes: Homes, lists: Lists, parent: ID)
    requires Going(c0, c1, homes, lists, parent) && Going(c1, c2, homes, lists, parent)
    ensures Going(c0, c2, homes, lists, parent)
  {
    SameStoreTwice(c0, c1, c2);
    SpreadTwice(c0, c1, c2, homes);
  }

  lemma GoingDeep(c0: A.Clients, c1: A.Clients, c2: A.Clients, homes: Homes, lists: Lists, parent: ID, id: ID)
    requires Going(c0, c1, homes, lists, parent) && SameStore(c1, c2) && Deep(c1, c2, homes, id)
    requires ChildOf(homes, id, parent)
    ensures Going(c0, c2, homes, lists, parent)
  {
    SameStoreTwice(c0, c1, c2);
    SpreadDeep(c0, c1, c2, homes, id);
    forall y ensures A.Deleted(c1, y) ==> A.Deleted(c2, y) {
      assert DeepAt(c1, c2, homes, id, y);
    }
  }

  lemma ItemsDeep(c1: A.Clients, c2: A.Clients, homes: Homes, lists: Lists, p: Place, n: nat)
    requires n < |ListAt(lists, p)| && ItemsDeleted(c1, homes, lists, p, n)
    requires Deep(c1, c2, homes, ListAt(lists, p)[n].id)
    ensures ItemsDeleted(c2, homes, lists, p, n + 1)
  {
    var s := ListAt(lists, p);
    forall i | 0 <= i < n + 1 ensures ItemDeleted(c2, homes, lists, s[i].id) {
      assert i < n ==> ItemDeleted(c1, homes, lists, s[i].id);
      assert DeepAt(c1, c2, homes, s[n].id, s[i].id);
    }
  }

  lemma ListStays(c1: A.Clients, c2: A.Clients, homes: Homes, lists: Lists, p: Place)
    requires ListDeleted(c1, homes, lists, p) && Spread(c1, c2, homes)
    ensures ListDeleted(c2, homes, lists, p)
  {
    var s := ListAt(lists, p);
    forall i | 0 <= i < |s| ensures ItemDeleted(c2, homes, lists, s[i].id) {
      assert ItemDeleted(c1, homes, lists, s[i].id) && SpreadAt(c1, c2, homes, s[i].id);
    }
  }

  /** The lists of `parent` have been deleted, but for those still to do. */
  ghost predicate ListsDeleted(clients: A.Clients, homes: Homes, lists: Lists, parent: ID, todo: set<Place>) {
    forall p <- lists :: p.home == In(parent) && p !in todo ==> ListDeleted(clients, homes, lists, p)
  }

  lemma ListsStay(c1: A.Clients, c2: A.Clients, homes: Homes, lists: Lists, parent: ID, todo: set<Place>, p: Place)
    requires ListsDeleted(c1, homes, lists, parent, todo) && Spread(c1, c2, homes) && ListDeleted(c2, homes, lists, p)
    ensures ListsDeleted(c2, homes, lists, parent, todo - {p})
  {
    forall q | q in lists && q.home == In(parent) && q !in todo - {p} ensures ListDeleted(c2, homes, lists, q) {
      if q != p {
        ListStays(c1, c2, homes, lists, q);
      }
    }
  }

  /** While the items of one list are deleted. */
  ghost predicate Listing(c0: A.Clients, c1: A.Clients, homes: Homes, lists: Lists, parent: ID, p: Place, n: nat) {
    Going(c0, c1, homes, lists, parent) && ItemsDeleted(c1, homes, lists, p, n)
  }

  /** The item that is deleted next. */
  lemma ListingItem(worlds: Worlds, c0: A.Clients, c1: A.Clients, homes: Homes, lists: Lists, parent: ID, p: Place,
                    n: nat)
    requires Listing(c0, c1, homes, lists, parent, p, n) && Filed(worlds, homes, lists)
    requires p in lists && p.home == In(parent) && n < |lists[p]|
    ensures ChildOf(homes, lists[p][n].id, parent) && OutdoneBut(c1, homes, lists, lists[p][n].id)
  {
    assert ListOk(worlds, homes, lists, p) && lists[p][n] in ListAt(lists, p);
  }

  lemma ListingNext(c0: A.Clients, c1: A.Clients, c2: A.Clients, homes: Homes, lists: Lists, parent: ID, p: Place,
                    n: nat)
    requires Listing(c0, c1, homes, lists, parent, p, n) && n < |ListAt(lists, p)| && SameStore(c1, c2)
    requires Deep(c1, c2, homes, ListAt(lists, p)[n].id) && ChildOf(homes, ListAt(lists, p)[n].id, parent)
    ensures Listing(c0, c2, homes, lists, parent, p, n + 1)
  {
    GoingDeep(c0, c1, c2, homes, lists, parent, ListAt(lists, p)[n].id);
    ItemsDeep(c1, c2, homes, lists, p, n);
  }

  /** All items of a list, or the last one for a key. */
  function FirstToDelete(lists: Lists, p: Place): (i: nat)
    ensures i <= |ListAt(lists, p)|
  {
    if p.sub.Some? && |ListAt(lists, p)| > 0 then |ListAt(lists, p)| - 1 else 0
  }

  lemma ListingStart(worlds: Worlds, c: A.Clients, homes: Homes, lists: Lists, parent: ID, p: Place)
    requires A.Stored(c) && Filed(worlds, homes, lists) && OutdoneBut(c, homes, lists, parent) && A.Deleted(c, parent)
    ensures Listing(c, c, homes, lists, parent, p, FirstToDelete(lists, p))
  {
    GoingStart(c, homes, lists, parent);
    FrontDeleted(worlds, c, homes, lists, p);
  }

  /** Of a list all that stands in front of the last item of a key was deleted before. */
  lemma FrontDeleted(worlds: Worlds, clients: A.Clients, homes: Homes, lists: Lists, p: Place)
    requires Filed(worlds, homes, lists)
    ensures ItemsDeleted(clients, homes, lists, p, FirstToDelete(lists, p))
  {
    var s := ListAt(lists, p);
    assert ListOk(worlds, homes, lists, p);
    if p.sub.Some? {
      forall i | 0 <= i < |s| - 1 ensures ItemDeleted(clients, homes, lists, s[i].id) {
        assert s[i] in s && s[i].id != s[|s| - 1].id;
      }
    }
  }

  lemma AllChildren(worlds: Worlds, clients: A.Clients, homes: Homes, lists: Lists, parent: ID)
    requires Filed(worlds, homes, lists) && OutdoneBut(clients, homes, lists, parent) && A.Deleted(clients, parent)
    requires ListsDeleted(clients, homes, lists, parent, {})
    ensures ChildrenDeleted(clients, homes, parent)
  {
    forall y | ChildOf(homes, y, parent) ensures A.Deleted(clients, y) {
      ChildListed(worlds, homes, lists, y, parent);
      var i :| 0 <= i < |lists[homes[y]]| && lists[homes[y]][i].id == y;
      assert ListDeleted(clients, homes, lists, homes[y]);
      assert ItemDeleted(clients, homes, lists, ListAt(lists, homes[y])[i].id);
    }
  }

  ghost predicate AllOutdone(clients: A.Clients, homes: Homes, lists: Lists) {
    forall y :: Outdone(homes, lists, y) ==> A.Deleted(clients, y)
  }

  /** What is inside of the items `done` has been deleted. */
  ghost predicate Emptied(c0: A.Clients, c1: A.Clients, homes: Homes, lists: Lists, done: set<ID>) {
    && SameStore(c0, c1) && Spread(c0, c1, homes) && AllOutdone(c1, homes, lists)
    && forall id <- done :: ChildrenDeleted(c1, homes, id)
  }

  lemma OneMore(newly: set<ID>, todo: set<ID>, id: ID)
    requires id in todo && todo <= newly
    ensures newly - todo + {id} == newly - (todo - {id})
  {
  }

  lemma EmptiedStart(c: A.Clients, homes: Homes, lists: Lists)
    requires A.Stored(c) && AllOutdone(c, homes, lists)
    ensures Emptied(c, c, homes, lists, {})
  {
  }

  lemma EmptiedStill(c0: A.Clients, c1: A.Clients, homes: Homes, lists: Lists, done: set<ID>, id: ID)
    requires Emptied(c0, c1, homes, lists, done) && A.Deleted(c0, id)
    ensures A.Deleted(c1, id) && OutdoneBut(c1, homes, lists, id)
  {
    assert SpreadAt(c0, c1, homes, id);
  }

  lemma EmptiedNext(c0: A.Clients, c1: A.Clients, c2: A.Clients, homes: Homes, lists: Lists, done: set<ID>, id: ID)
    requires Emptied(c0, c1, homes, lists, done) && Going(c1, c2, homes, lists, id) && ChildrenDeleted(c2, homes, id)
    ensures Emptied(c0, c2, homes, lists, done + {id})
  {
    SameStoreTwice(c0, c1, c2);
    SpreadTwice(c0, c1, c2, homes);
    forall e | e in done ensures ChildrenDeleted(c2, homes, e) {
      forall y | ChildOf(homes, y, e) ensures A.Deleted(c2, y) {
        assert SpreadAt(c1, c2, homes, y);
      }
    }
  }

  // ----- The rules of deletion -----

  /** The rules of deletion, while some ids may still have to be deleted. */
  ghost predicate RuledAt(homes: Homes, lists: Lists, sv: StateVector, named: iset<ID>, gone: iset<ID>,
                          deleted: iset<ID>, todo: iset<ID>, id: ID) {
    && (id in deleted ==> Held(sv, id) && Doomed(homes, lists, named, gone, deleted, id))
    && (id !in todo && Held(sv, id) && Doomed(homes, lists, named, gone, deleted, id) ==> id in deleted)
  }

  ghost predicate RuledBut(homes: Homes, lists: Lists, sv: StateVector, named: iset<ID>, gone: iset<ID>,
                           deleted: iset<ID>, todo: iset<ID>) {
    forall id :: RuledAt(homes, lists, sv, named, gone, deleted, todo, id)
  }

  lemma RuledNow(homes: Homes, lists: Lists, sv: StateVector, named: iset<ID>, gone: iset<ID>, deleted: iset<ID>)
    requires RuledBut(homes, lists, sv, named, gone, deleted, iset{})
    ensures Ruled(homes, lists, sv, named, gone, deleted)
  {
    forall id ensures id in deleted <==> Held(sv, id) && Doomed(homes, lists, named, gone, deleted, id) {
      assert RuledAt(homes, lists, sv, named, gone, deleted, iset{}, id);
    }
  }

  /** Deleting an item that there is a reason for. */
  lemma RuledDeep(c0: A.Clients, c1: A.Clients, homes: Homes, lists: Lists, sv: StateVector, named: iset<ID>,
                  gone: iset<ID>, todo: iset<ID>, id: ID)
    requires Deep(c0, c1, homes, id) && RuledBut(homes, lists, sv, named, gone, DeletedIds(c0), todo)
    requires (forall y <- homes :: Held(sv, y)) && Held(sv, id) && Doomed(homes, lists, named, gone, DeletedIds(c0), id)
    ensures RuledBut(homes, lists, sv, named, gone, DeletedIds(c1), todo - iset{id})
  {
    var d0, d1 := DeletedIds(c0), DeletedIds(c1);
    forall y ensures RuledAt(homes, lists, sv, named, gone, d1, todo - iset{id}, y) {
      assert RuledAt(homes, lists, sv, named, gone, d0, todo, y) && DeepAt(c0, c1, homes, id, y);
      if y in homes && homes[y].home.In? {
        assert DeepAt(c0, c1, homes, id, homes[y].home.item);
      }
      if y == id && id in homes && homes[id].home.In? {
        assert DeepAt(c0, c1, homes, id, homes[id].home.item);
      }
    }
  }

  /** A unit without a place counts as deleted. */
  lemma RuledNowhere(homes: Homes, lists: Lists, time: Time, sv: StateVector, sv': StateVector, named: iset<ID>,
                     gone: iset<ID>, deleted: iset<ID>, deleted': iset<ID>, id: ID)
    requires Ruled(homes, lists, sv, named, gone, deleted) && Rooted(homes, time) && id !in homes && !Held(sv, id)
    requires (forall y :: Held(sv', y) <==> Held(sv, y) || y == id)
    requires (forall y :: y in deleted' <==> y in deleted || y == id)
    ensures Ruled(homes, lists, sv', named, gone, deleted')
  {
    forall y ensures y in deleted' <==> Held(sv', y) && Doomed(homes, lists, named, gone, deleted', y) {
      assert y in homes && homes[y].home.In? ==> homes[y].home.item in homes;
    }
  }

  /** The values that a new item may make obsolete: the last one of its key, or itself. */
  function Obsolete(s: seq<Yata.Item>, p: Place, k: nat, id: ID): iset<ID> {
    iset{id} + if p.sub.Some? && k == |s| > 0 then iset{s[k - 1].id} else iset{}
  }

  lemma RuledPlaced(worlds: Worlds, homes: Homes, lists: Lists, time: Time, sv: StateVector, sv': StateVector,
                    named: iset<ID>, gone: iset<ID>, gone': iset<ID>, deleted: iset<ID>, deleted': iset<ID>, p: Place,
                    x: Yata.Item, k: nat)
    requires Ruled(homes, lists, sv, named, gone, deleted) && Rooted(homes, time) && Filed(worlds, homes, lists)
    requires x.id !in homes && !Held(sv, x.id) && k <= |ListAt(lists, p)|
    requires forall y :: Held(sv', y) <==> Held(sv, y) || y == x.id
    requires forall y :: y in deleted' <==> y in deleted || (y == x.id && y in gone')
    requires forall y :: y != x.id ==> (y in gone' <==> y in gone)
    ensures RuledBut(homes[x.id := p], lists[p := InsertAt(ListAt(lists, p), k, x)], sv', named, gone', deleted',
                     Obsolete(ListAt(lists, p), p, k, x.id))
  {
    var s := ListAt(lists, p);
    var t := InsertAt(s, k, x);
    var homes', lists', todo := homes[x.id := p], lists[p := t], Obsolete(s, p, k, x.id);
    forall y ensures RuledAt(homes', lists', sv', named, gone', deleted', todo, y) {
      assert y in homes && homes[y].home.In? ==> homes[y].home.item in homes;
      if y != x.id && y in homes {
        OutdoneSame(homes, lists, p, x, k, y);
      }
    }
  }

  lemma OutdoneSame(homes: Homes, lists: Lists, p: Place, x: Yata.Item, k: nat, y: ID)
    requires y in homes && y != x.id && k <= |ListAt(lists, p)|
    ensures var homes', lists' := homes[x.id := p], lists[p := InsertAt(ListAt(lists, p), k, x)];
      && (Outdone(homes, lists, y) ==> Outdone(homes', lists', y))
      && (Outdone(homes', lists', y) ==>
           Outdone(homes, lists, y) || y in Obsolete(ListAt(lists, p), p, k, x.id) ||
           !Yata.Has(ListAt(lists, homes[y]), y))
  {
    var s := ListAt(lists, p);
    var t := InsertAt(s, k, x);
    assert |t| == |s| + 1 && t[|t| - 1] == if k == |s| then x else s[|s| - 1];
  }

  /** Without collected units every unit has a place. */
  lemma HasPlace(clients: A.Clients, homes: Homes, named: iset<ID>, gone: iset<ID>, content: Content, worlds: Worlds,
                 id: ID, u: Unit)
    requires Complete(clients, homes, named, gone, content) && Explained(worlds, content) && content(id, u)
    requires NothingCollected(content) && forall d <- UnitDeps(u) :: Held(Vector(clients), d)
    ensures u.Inserted? && PlaceOf(homes, u).Some?
  {
    assert ExplainedAt(worlds, id, u);
    assert u.origin.Some? ==> u.origin.value in UnitDeps(u);
    assert u.rightOrigin.Some? ==> u.rightOrigin.value in UnitDeps(u);
    if u.parent.Given? && u.parent.place.home.In? {
      assert u.parent.Deps()[0] in UnitDeps(u);
    }
  }

  /** A new item that there is no reason to delete. */
  lemma NoReason(homes: Homes, lists: Lists, sv: StateVector, named: iset<ID>, gone: iset<ID>, deleted: iset<ID>,
                 id: ID)
    requires RuledBut(homes, lists, sv, named, gone, deleted, iset{id}) && id in homes
    requires id !in named && (id in gone ==> id in deleted) && !Outdone(homes, lists, id)
    requires homes[id].home.In? ==> homes[id].home.item !in deleted
    ensures RuledBut(homes, lists, sv, named, gone, deleted, iset{})
  {
    forall y ensures RuledAt(homes, lists, sv, named, gone, deleted, iset{}, y) {
      assert RuledAt(homes, lists, sv, named, gone, deleted, iset{id}, y);
    }
  }

  /** Only what still has to be deleted is obsolete and not deleted. */
  lemma OutdoneTodo(clients: A.Clients, homes: Homes, lists: Lists, named: iset<ID>, gone: iset<ID>, todo: iset<ID>,
                    id: ID)
    requires RuledBut(homes, lists, Vector(clients), named, gone, DeletedIds(clients), todo)
    requires forall y <- homes :: Held(Vector(clients), y)
    requires forall y <- todo :: Outdone(homes, lists, y) ==> y == id
    ensures OutdoneBut(clients, homes, lists, id)
  {
    forall y | Outdone(homes, lists, y) ensures A.Deleted(clients, y) || y == id {
      assert RuledAt(homes, lists, Vector(clients), named, gone, DeletedIds(clients), todo, y);
    }
  }

  /** Once a delete set was applied, what is inside of the deleted items is deleted as well. */
  lemma RuledSpread(c0: A.Clients, c1: A.Clients, c2: A.Clients, homes: Homes, lists: Lists, sv: StateVector,
                    time: Time, named: iset<ID>, named': iset<ID>, gone: iset<ID>, newly: set<ID>)
    requires Ruled(homes, lists, sv, named, gone, DeletedIds(c0)) && Rooted(homes, time)
    requires (forall y <- homes :: Held(sv, y)) && (forall y <- named' :: Held(sv, y))
    requires (forall y <- named :: y in named')
    requires forall y :: A.Deleted(c1, y) <==> A.Deleted(c0, y) || y in named'
    requires forall y :: y in newly <==> y in homes && A.Deleted(c1, y) && !A.Deleted(c0, y)
    requires Spread(c1, c2, homes) && forall y <- newly :: ChildrenDeleted(c2, homes, y)
    ensures Ruled(homes, lists, sv, named', gone, DeletedIds(c2))
  {
    forall y ensures y in DeletedIds(c2) <==> Held(sv, y) && Doomed(homes, lists, named', gone, DeletedIds(c2), y) {
      assert SpreadAt(c1, c2, homes, y);
      if y in homes && homes[y].home.In? {
        var parent := homes[y].home.item;
        assert parent in homes && SpreadAt(c1, c2, homes, parent);
        if parent in newly {
          assert ChildOf(homes, y, parent);
        }
      }
    }
  }

  /** What applying the ranges of a delete set means for the rules. */
  lemma AppliedRanges(c0: A.Clients, ds: DeleteSet, c1: A.Clients, rest: Option<DeleteSet>, homes: Homes, lists: Lists,
                      named: iset<ID>, gone: iset<ID>, newly: set<ID>)
    requires SameStore(c0, c1) && forall id :: AppliesAt(c0, ds, c1, rest, id)
    requires Ruled(homes, lists, Vector(c0), named, gone, DeletedIds(c0)) && forall y <- homes :: Held(Vector(c0), y)
    requires forall y <- named :: Held(Vector(c0), y)
    requires newly == set id | id in homes && Names(ds, id) && !A.Deleted(c0, id)
    ensures forall y :: A.Deleted(c1, y) <==> A.Deleted(c0, y) || y in named + NamedIn(ds, Vector(c0))
    ensures forall y :: y in newly <==> y in homes && A.Deleted(c1, y) && !A.Deleted(c0, y)
    ensures AllOutdone(c1, homes, lists)
  {
    forall y ensures A.Deleted(c1, y) <==> A.Deleted(c0, y) || y in named + NamedIn(ds, Vector(c0)) {
      assert AppliesAt(c0, ds, c1, rest, y);
      assert y in DeletedIds(c0) <==> Held(Vector(c0), y) && Doomed(homes, lists, named, gone, DeletedIds(c0), y);
    }
    forall y | Outdone(homes, lists, y) ensures A.Deleted(c1, y) {
      assert y in DeletedIds(c0) <==> Held(Vector(c0), y) && Doomed(homes, lists, named, gone, DeletedIds(c0), y);
    }
  }

  // ----- A new item -----

  /** What is known of a new item: no delete set named it, and it is deleted if it came so. */
  ghost predicate JustCame(clients: A.Clients, named: iset<ID>, gone: iset<ID>, id: ID) {
    id !in named && (id in gone ==> A.Deleted(clients, id))
  }

  ghost predicate Stands(homes: Homes, lists: Lists, p: Place, id: ID, hasRight: bool) {
    id in homes && homes[id] == p && (p.sub.Some? ==> (hasRight <==> Outdone(homes, lists, id)))
  }

  /** The new item stands at the end of its list, or others came after it. */
  ghost predicate WhereInserted(homes: Homes, lists: Lists, s: seq<Yata.Item>, p: Place, k: nat, id: ID) {
    && k <= |s| && Stands(homes, lists, p, id, k < |s|)
    && (if p.sub.Some? && k == |s| && k > 0
        then Obsolete(s, p, k, id) == iset{id} + iset{s[k - 1].id} && HasPrevious(homes, lists, p, id, s[k - 1].id)
        else Obsolete(s, p, k, id) == iset{id})
  }

  ghost predicate HasPrevious(homes: Homes, lists: Lists, p: Place, id: ID, previous: ID) {
    previous in homes && homes[previous] == p && previous != id && Last(lists, p, id)
  }

  lemma InsertedWhere(worlds: Worlds, homes: Homes, lists: Lists, p: Place, x: Yata.Item, k: nat)
    requires Filed(worlds, homes, lists) && x.id !in homes && k <= |ListAt(lists, p)|
    ensures WhereInserted(homes[x.id := p], lists[p := InsertAt(ListAt(lists, p), k, x)], ListAt(lists, p), p, k, x.id)
  {
    var s := ListAt(lists, p);
    var t := InsertAt(s, k, x);
    assert ListOk(worlds, homes, lists, p);
    assert |t| == |s| + 1 && t[|s|] == if k == |s| then x else s[|s| - 1];
    assert s != [] ==> s[|s| - 1] in s;
  }

  ghost function GoneWith(id: ID, u: Unit): iset<ID>
    requires u.Inserted?
  {
    if u.gone then iset{id} else iset{}
  }

  /** What is left to delete so that all is in order. */
  ghost predicate NeatBut(clients: A.Clients, homes: Homes, lists: Lists, named: iset<ID>, gone: iset<ID>,
                          content: Content, time: Time, worlds: Worlds, todo: iset<ID>) {
    && Tidy(clients, homes, lists, time, worlds) && Complete(clients, homes, named, gone, content)
    && RuledBut(homes, lists, Vector(clients), named, gone, DeletedIds(clients), todo)
  }

  lemma NeatTidy(c: A.Clients, homes: Homes, lists: Lists, named: iset<ID>, gone: iset<ID>,
                 content: Content, time: Time, worlds: Worlds, todo: iset<ID>)
    requires NeatBut(c, homes, lists, named, gone, content, time, worlds, todo)
    ensures Tidy(c, homes, lists, time, worlds)
  {
  }

  lemma NeatDeep(c0: A.Clients, c1: A.Clients, homes: Homes, lists: Lists, named: iset<ID>, gone: iset<ID>,
                 content: Content, time: Time, worlds: Worlds, todo: iset<ID>, id: ID)
    requires NeatBut(c0, homes, lists, named, gone, content, time, worlds, todo) && Tidy(c1, homes, lists, time, worlds)
    requires SameStore(c0, c1) && Deep(c0, c1, homes, id) && id in homes
    requires Doomed(homes, lists, named, gone, DeletedIds(c0), id)
    ensures NeatBut(c1, homes, lists, named, gone, content, time, worlds, todo - iset{id})
  {
    RuledDeep(c0, c1, homes, lists, Vector(c0), named, gone, todo, id);
  }

  /** An item that comes next of its client goes to the list that it was created for. */
  lemma NextFiled(clients: A.Clients, homes: Homes, lists: Lists, content: Content, time: Time, worlds: Worlds, id: ID,
                  u: Unit, p: Place)
    requires Assumed(content, time, worlds) && Tidy(clients, homes, lists, time, worlds)
    requires content(id, u) && id.clock == State(Vector(clients), id.client) && u.Inserted?
    requires PlaceOf(homes, u) == Some(p)
    ensures var s, x := ListAt(lists, p), ItemOf(id, u);
      && DepsIn(s, x) && 0 <= Position(s, x) <= |s| && Yata.Integrate(s, x) == InsertAt(s, Position(s, x), x)
      && Filed(worlds, homes[id := p], lists[p := Yata.Integrate(s, x)]) && Rooted(homes[id := p], time)
  {
    assert ExplainedAt(worlds, id, u);
    var q :| Created(worlds, q, id, u);
    RightPlace(worlds, homes, lists, q, id, u);
    FiledNext(worlds, homes, lists, p, ItemOf(id, u));
    RootedNext(homes, time, id, u);
  }

  /** What a new unit changes about what is held, deleted and gone. */
  lemma AddedIds(clients: A.Clients, homes: Homes, gone: iset<ID>, id: ID, u: Unit)
    requires A.Stored(clients) && id.clock == State(Vector(clients), id.client) && u.Inserted?
    requires forall y <- homes :: Held(Vector(clients), y)
    ensures var c1, gone' := AddUnit(clients, id, u, u.gone), gone + GoneWith(id, u);
      && id !in homes && !Held(Vector(clients), id)
      && (forall y :: Held(Vector(c1), y) <==> Held(Vector(clients), y) || y == id)
      && (forall y :: y != id ==> (y in gone' <==> y in gone))
  {
    AddUnitStored(clients, id, u, u.gone);
  }

  lemma AddedDeleted(clients: A.Clients, gone: iset<ID>, id: ID, u: Unit)
    requires A.Stored(clients) && id.clock == State(Vector(clients), id.client) && u.Inserted?
    requires forall y <- gone :: Held(Vector(clients), y)
    ensures forall y :: y in DeletedIds(AddUnit(clients, id, u, u.gone)) <==>
      y in DeletedIds(clients) || (y == id && y in gone + GoneWith(id, u))
  {
    AddUnitStored(clients, id, u, u.gone);
  }

  lemma PlacedNext(clients: A.Clients, homes: Homes, lists: Lists, named: iset<ID>, gone: iset<ID>,
                   content: Content, time: Time, worlds: Worlds, id: ID, u: Unit, p: Place, k: nat)
    requires Assumed(content, time, worlds) && Neat(clients, homes, lists, named, gone, content, time, worlds)
    requires content(id, u) && id.clock == State(Vector(clients), id.client) && u.Inserted?
    requires PlaceOf(homes, u) == Some(p)
    requires DepsIn(ListAt(lists, p), ItemOf(id, u)) && k == Position(ListAt(lists, p), ItemOf(id, u))
    ensures var s, x := ListAt(lists, p), ItemOf(id, u);
      k <= |s| && Yata.Integrate(s, x) == InsertAt(s, k, x)
    ensures var homes', lists' := homes[id := p], lists[p := Yata.Integrate(ListAt(lists, p), ItemOf(id, u))];
      && NeatBut(AddUnit(clients, id, u, u.gone), homes', lists', named, gone + GoneWith(id, u), content, time, worlds,
                 Obsolete(ListAt(lists, p), p, k, id))
      && WhereInserted(homes', lists', ListAt(lists, p), p, k, id)
    ensures Vector(AddUnit(clients, id, u, u.gone)) == Vector(clients)[id.client := id.clock + 1]
    ensures JustCame(AddUnit(clients, id, u, u.gone), named, gone + GoneWith(id, u), id)
  {
    var x, c1 := ItemOf(id, u), AddUnit(clients, id, u, u.gone);
    NextFiled(clients, homes, lists, content, time, worlds, id, u, p);
    AddUnitStored(clients, id, u, u.gone);
    AddedIds(clients, homes, gone, id, u);
    AddedDeleted(clients, gone, id, u);
    RuledPlaced(worlds, homes, lists, time, Vector(clients), Vector(c1), named, gone, gone + GoneWith(id, u),
                DeletedIds(clients), DeletedIds(c1), p, x, k);
    InsertedWhere(worlds, homes, lists, p, x, k);
  }

  /** The same for the variables that hold the new state. */
  lemma NextPlaced(clients: A.Clients, homes: Homes, lists: Lists, named: iset<ID>, gone: iset<ID>,
                   clients': A.Clients, homes': Homes, lists': Lists, gone': iset<ID>,
                   content: Content, time: Time, worlds: Worlds, id: ID, u: Unit, p: Place, k: nat)
    requires Assumed(content, time, worlds) && Neat(clients, homes, lists, named, gone, content, time, worlds)
    requires content(id, u) && id.clock == State(Vector(clients), id.client) && u.Inserted?
    requires PlaceOf(homes, u) == Some(p)
    requires DepsIn(ListAt(lists, p), ItemOf(id, u)) && k == Position(ListAt(lists, p), ItemOf(id, u))
    requires clients' == AddUnit(clients, id, u, u.gone) && gone' == gone + GoneWith(id, u)
    requires homes' == homes[id := p] && lists' == lists[p := Yata.Integrate(ListAt(lists, p), ItemOf(id, u))]
    ensures NeatBut(clients', homes', lists', named, gone', content, time, worlds, Obsolete(ListAt(lists, p), p, k, id))
    ensures WhereInserted(homes', lists', ListAt(lists, p), p, k, id) && JustCame(clients', named, gone', id)
    ensures Vector(clients') == Vector(clients)[id.client := id.clock + 1]
  {
    PlacedNext(clients, homes, lists, named, gone, content, time, worlds, id, u, p, k);
  }

  predicate Last(lists: Lists, p: Place, id: ID) {
    var s := ListAt(lists, p); s != [] && s[|s| - 1].id == id
  }
}
