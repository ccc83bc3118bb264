/** `readUpdateV2`. */
module Exchange {
  // A store that receives updates in any order.

  import opened Common
  import opened Yata
  import opened Blocks
  import opened Structs
  import opened MergeUpdates
  import opened Updates
  import opened Retry
  import opened DeleteSets
  import opened Document
  import opened Deletion
  import opened StoreLog
  import opened Settling
  import A = ApplyDeletes
  import D = Document
  import I = IntegrateStructs

  // ----- Small loops -----

  /** The test whether something pending may have become applicable. */
  method CanRetry(p: Pending, sv: StateVector) returns (retry: bool)
    ensures retry <==> Retries(p, sv)
  {
    var todo := p.missing.Keys;
    while todo != {}
      invariant todo <= p.missing.Keys
      invariant forall c <- p.missing.Keys - todo :: p.missing[c] >= State(sv, c)
    {
      var client :| client in todo;
      if p.missing[client] < State(sv, client) {
        return true;
      }
      todo := todo - {client};
    }
    return false;
  }

  /** Merges the recorded clocks of new leftovers into those of the pending structs. */
  method MergeMissing(pending: map<nat, nat>, more: map<nat, nat>) returns (missing: map<nat, nat>)
    ensures missing == MinMissing(pending, more)
  {
    missing := pending;
    var todo := more.Keys;
    while todo != {}
      invariant todo <= more.Keys
      invariant missing.Keys == pending.Keys + (more.Keys - todo)
      invariant forall c <- missing ::
        missing[c] == if c in pending && (c in todo || c !in more || pending[c] <= more[c]) then pending[c] else more[c]
    {
      var client :| client in todo;
      if client !in missing || missing[client] > more[client] {
        missing := missing[client := more[client]];
      }
      todo := todo - {client};
    }
  }

  lemma BothHold(a: seq<Struct>, b: seq<Struct>)
    ensures forall id :: HeldBy([a, b], id) <==> Holds(a, id) || Holds(b, id)
  {
    forall id ensures HeldBy([a, b], id) <==> Holds(a, id) || Holds(b, id) {
      assert a in [a, b] && b in [a, b];
    }
  }

  lemma BothNamed(a: DeleteSet, b: DeleteSet)
    ensures forall id :: NamedBy([a, b], id) <==> Names(a, id) || Names(b, id)
  {
    forall id ensures NamedBy([a, b], id) <==> Names(a, id) || Names(b, id) {
      assert NamedBy([a, b], id) <==> Names([a, b][0], id) || Names([a, b][1], id);
    }
  }

  /** What is pending is applied later as it would have been applied now. */
  lemma DeletesTwice(pds0: Option<DeleteSet>, ds: DeleteSet, sv1: StateVector, named0: iset<ID>,
                     pds1: Option<DeleteSet>, named1: iset<ID>, sv2: StateVector, pds2: Option<DeleteSet>,
                     named2: iset<ID>)
    requires Deletes(pds0, ds, sv1, named0, pds1, named1) && Deletes(pds1, map[], sv2, named1, pds2, named2)
    requires Grows(sv1, sv2)
    ensures Deletes(pds0, ds, sv2, named0, pds2, named2)
  {
    forall id ensures DeletesAt(pds0, ds, sv2, named0, pds2, named2, id) {
      assert DeletesAt(pds0, ds, sv1, named0, pds1, named1, id) &&
        DeletesAt(pds1, map[], sv2, named1, pds2, named2, id);
      assert State(sv1, id.client) <= State(sv2, id.client);
    }
  }

  /** An update and the retry after it, taken together. */
  lemma ReadTwice(content: Content, sv0: StateVector, p0: Option<Pending>, pds0: Option<DeleteSet>, named0: iset<ID>,
                  structs: seq<Struct>, ds: DeleteSet, sv1: StateVector, p1: Option<Pending>,
                  pds1: Option<DeleteSet>, named1: iset<ID>, sv2: StateVector, p2: Option<Pending>,
                  pds2: Option<DeleteSet>, named2: iset<ID>)
    requires Kept(sv0, p0, structs, sv1, p1) && Deletes(pds0, ds, sv1, named0, pds1, named1)
    requires p1.Some? && Kept(sv1, None, p1.value.update, sv2, p2) && Deletes(pds1, map[], sv2, named1, pds2, named2)
    requires Functional(content) ==>
      && Settles(content, sv0, IdsOf(structs), sv1) && RetriedBy(p0, sv1)
      && Reads(content, sv1, None, p1.value.update, sv2)
    ensures Kept(sv0, p0, structs, sv2, p2) && Deletes(pds0, ds, sv2, named0, pds2, named2)
    ensures Functional(content) ==> Reads(content, sv0, p0, structs, sv2)
  {
    KeptTwice(sv0, p0, structs, sv1, p1, p1.value.update, sv2, p2);
    DeletesTwice(pds0, ds, sv1, named0, pds1, named1, sv2, pds2, named2);
    if Functional(content) {
      ReadsAgain(content, sv0, p0, structs, sv1, p1, sv2);
    }
  }

  // ----- The store -----

  class StructStore {
    /** The units of all clients, when they were created, and in which lists. */
    ghost const content: Content
    ghost const time: Time
    ghost const worlds: Worlds
    var clients: A.Clients
    var homes: Homes
    var lists: Lists
    var pendingStructs: Option<Pending>
    var pendingDs: Option<DeleteSet>
    /** All calls of `integrate` so far. */
    ghost var log: seq<Struct>
    /** The ids that delete sets named and the store holds, and those that came without content. */
    ghost var named: iset<ID>
    ghost var gone: iset<ID>

    ghost predicate InOrder()
      reads this`clients, this`homes, this`lists
    {
      Assumed(content, time, worlds) && Tidy(clients, homes, lists, time, worlds)
    }

    ghost predicate Clean()
      reads this`clients, this`homes, this`lists, this`named, this`gone
    {
      Assumed(content, time, worlds) && Neat(clients, homes, lists, named, gone, content, time, worlds)
    }

    ghost predicate Sound()
      reads this`clients, this`homes, this`lists, this`named, this`gone, this`log
    {
      Clean() && Logged(clients, log, content, time)
    }

    ghost predicate Valid()
      reads this
    {
      && Sound()
      && (pendingStructs.Some? ==>
        Update(pendingStructs.value.update, content) && !Retries(pendingStructs.value, Vector(clients)))
      && (pendingDs.Some? ==> Inhabited(pendingDs.value))
    }

    /** Nothing pending is exposed: no retry can be missed. */
    ghost predicate Quiet()
      reads this`clients, this`pendingStructs
    {
      QuietOf(pendingStructs, content, time, Vector(clients))
    }

    /** No client's pending units begin behind a gap. */
    ghost predicate Whole()
      reads this`clients, this`pendingStructs
    {
      pendingStructs.Some? ==> Unbroken(pendingStructs.value, Vector(clients))
    }

    constructor (ghost content: Content, ghost time: Time, ghost worlds: Worlds)
      requires Assumed(content, time, worlds)
      ensures Valid() && this.content == content && this.time == time && this.worlds == worlds
      ensures clients == map[] && pendingStructs == None && pendingDs == None && log == [] && named == iset{}
    {
      this.content, this.time, this.worlds := content, time, worlds;
      clients, homes, lists, pendingStructs, pendingDs := map[], map[], map[], None, None;
      log, named, gone := [], iset{}, iset{};
    }

    /** The ranges of one client. */
    method ApplyClient(client: nat, dels: seq<Range>) returns (more: seq<Range>)
      requires A.Stored(clients)
      modifies this`clients
      ensures SameStore(old(clients), clients) && SameOthers(old(clients), clients, client)
      ensures A.Applied(StructsOf(old(clients), client), StructsOf(clients, client), client, dels)
      ensures A.Rest(more, dels, A.State(StructsOf(old(clients), client)))
    {
      var structs := StructsOf(clients, client);
      var bs;
      bs, more := A.ApplyToClient(structs, client, dels);
      if client in clients {
        AppliedSame(structs, bs, client, dels);
        ReplacedStored(clients, client, bs);
        ReplacedLists(clients, client, bs);
        clients := clients[client := bs];
      }
    }

    /** `markDeleted`. */
    method Mark(id: ID)
      requires A.Stored(clients) && Held(Vector(clients), id)
      modifies this`clients
      ensures SameStore(old(clients), clients) && Marked(old(clients), clients, id)
    {
      var more := ApplyClient(id.client, [Range(id.clock, 1)]);
      forall y ensures A.Deleted(clients, y) <==> A.Deleted(old(clients), y) || y == id {
        MarkedId(old(clients), clients, id, y);
      }
    }

    /** `Item.delete`: an item is deleted together with all that is inside of it. */
    method DeleteItem(id: ID)
      requires InOrder() && id in homes && OutdoneBut(clients, homes, lists, id)
      modifies this`clients
      decreases Undeleted(clients, homes), 0
      ensures InOrder() && SameStore(old(clients), clients) && Deep(old(clients), clients, homes, id)
    {
      hide Filed, Rooted, Causal, History, Explained, OutdoneBut, Going, Deep, Spread, ChildrenDeleted;
      if !A.Deleted(clients, id) {
        ghost var c0 := clients;
        Mark(id);
        ghost var c1 := clients;
        MarkedOutdone(c0, c1, homes, lists, id);
        DeleteChildren(id);
        GoingIs(c1, clients, homes, lists, id);
        DeepOf(c0, c1, clients, homes, id);
        SameStoreTwice(c0, c1, clients);
      } else {
        SameStoreSelf(clients);
        DeepSelf(clients, homes, id);
      }
    }

    /** `ContentType.delete`: deletes the children of a type, and the value of each key. */
    method DeleteChildren(parent: ID)
      requires InOrder() && A.Deleted(clients, parent) && OutdoneBut(clients, homes, lists, parent)
      modifies this`clients
      decreases Undeleted(clients, homes), 3
      ensures InOrder() && Going(old(clients), clients, homes, lists, parent) && ChildrenDeleted(clients, homes, parent)
    {
      hide Assumed, Tidy, OutdoneBut, Going, Spread, ListDeleted, ChildrenDeleted, SameStore;
      ghost var c0 := clients;
      var todo := set p | p in lists && p.home == In(parent);
      TidyIs(c0, homes, lists, time, worlds);
      GoingStart(c0, homes, lists, parent);
      while todo != {}
        invariant InOrder() && Going(c0, clients, homes, lists, parent)
        invariant forall p <- todo :: p in lists && p.home == In(parent)
        invariant ListsDeleted(clients, homes, lists, parent, todo)
      {
        var p :| p in todo;
        ghost var c1 := clients;
        GoingIs(c0, c1, homes, lists, parent);
        DeleteList(parent, p);
        GoingTwice(c0, c1, clients, homes, lists, parent);
        GoingIs(c1, clients, homes, lists, parent);
        ListsStay(c1, clients, homes, lists, parent, todo, p);
        todo := todo - {p};
      }
      GoingIs(c0, clients, homes, lists, parent);
      TidyIs(clients, homes, lists, time, worlds);
      AllChildren(worlds, clients, homes, lists, parent);
    }

    /** The items of one list; of a key only the last value was not deleted yet. */
    method DeleteList(parent: ID, p: Place)
      requires InOrder() && A.Deleted(clients, parent) && OutdoneBut(clients, homes, lists, parent)
      requires p in lists && p.home == In(parent)
      modifies this`clients
      decreases Undeleted(clients, homes), 2
      ensures InOrder() && Going(old(clients), clients, homes, lists, parent) && ListDeleted(clients, homes, lists, p)
    {
      hide Filed, Rooted, Causal, History, Explained;
      var items := lists[p];
      var start := FirstToDelete(lists, p);
      ListingStart(worlds, clients, homes, lists, parent, p);
      for i := start to |items|
        invariant InOrder() && Listing(old(clients), clients, homes, lists, parent, p, i)
      {
        DeleteNth(old(clients), parent, p, i);
      }
    }

    method DeleteNth(ghost c0: A.Clients, parent: ID, p: Place, i: nat)
      requires InOrder() && Listing(c0, clients, homes, lists, parent, p, i)
      requires p in lists && p.home == In(parent) && i < |lists[p]|
      modifies this`clients
      decreases Undeleted(clients, homes), 1
      ensures InOrder() && Listing(c0, clients, homes, lists, parent, p, i + 1)
    {
      hide Assumed, Tidy, Filed, Listing, Deep, OutdoneBut;
      ghost var c1 := clients;
      var item := lists[p][i];
      TidyIs(clients, homes, lists, time, worlds);
      ListingItem(worlds, c0, clients, homes, lists, parent, p, i);
      DeleteItem(item.id);
      ListingNext(c0, c1, clients, homes, lists, parent, p, i);
    }

    ghost predicate CleanBut(todo: iset<ID>)
      reads this`clients, this`homes, this`lists, this`named, this`gone
    {
      Assumed(content, time, worlds) && NeatBut(clients, homes, lists, named, gone, content, time, worlds, todo)
    }

    /** Deletes an item that there is a reason for. */
    method DeleteReasoned(id: ID, ghost todo: iset<ID>)
      requires CleanBut(todo) && id in homes && Doomed(homes, lists, named, gone, DeletedIds(clients), id)
      requires forall y <- todo :: Outdone(homes, lists, y) ==> y == id
      modifies this`clients
      ensures CleanBut(todo - iset{id}) && Vector(clients) == old(Vector(clients))
      ensures Deep(old(clients), clients, homes, id)
    {
      hide Assumed, Tidy, Outdone, Doomed, Deep, OutdoneBut, Complete, RuledBut;
      ghost var c0 := clients;
      NeatTidy(c0, homes, lists, named, gone, content, time, worlds, todo);
      OutdoneTodo(c0, homes, lists, named, gone, todo, id);
      DeleteItem(id);
      NeatDeep(c0, clients, homes, lists, named, gone, content, time, worlds, todo, id);
    }

    /** A unit that was collected, or refers to one that was. */
    method Collect(id: ID, u: Unit)
      requires Clean() && content(id, u) && id.clock == State(Vector(clients), id.client)
      requires forall d <- UnitDeps(u) :: Held(Vector(clients), d)
      requires u.Inserted? ==> PlaceOf(homes, u).None?
      modifies this`clients
      ensures Clean() && Vector(clients) == old(Vector(clients))[id.client := id.clock + 1]
    {
      hide Filed, Rooted, Causal, History, Explained;
      AddUnitStored(clients, id, u, true);
      ghost var c1 := AddUnit(clients, id, u, true);
      if NothingCollected(content) {
        HasPlace(clients, homes, named, gone, content, worlds, id, u);
      }
      RuledNowhere(homes, lists, time, Vector(clients), Vector(c1), named, gone, DeletedIds(clients), DeletedIds(c1),
        id);
      clients := AddUnit(clients, id, u, true);
    }

    /** The conflict scan, in the list of the item. */
    method FindPosition(id: ID, u: Unit, p: Place) returns (k: nat)
      requires Clean() && content(id, u) && id.clock == State(Vector(clients), id.client)
      requires u.Inserted? && PlaceOf(homes, u) == Some(p)
      ensures DepsIn(ListAt(lists, p), ItemOf(id, u)) && k == Position(ListAt(lists, p), ItemOf(id, u))
    {
      NextFiled(clients, homes, lists, content, time, worlds, id, u, p);
      k := Position(ListAt(lists, p), ItemOf(id, u));
    }

    /** Puts an item into its list and into the store. */
    method PutInPlace(id: ID, u: Unit, p: Place) returns (k: nat)
      requires Clean() && content(id, u) && id.clock == State(Vector(clients), id.client)
      requires u.Inserted? && PlaceOf(homes, u) == Some(p)
      modifies this`clients, this`homes, this`lists, this`gone
      ensures Vector(clients) == old(Vector(clients))[id.client := id.clock + 1]
      ensures PutAs(old(homes), old(lists), homes, lists, id, u)
      ensures WhereInserted(homes, lists, old(ListAt(lists, p)), p, k, id) && JustCame(clients, named, gone, id)
      ensures CleanBut(Obsolete(old(ListAt(lists, p)), p, k, id))
    {
      hide Neat, NeatBut, Assumed;
      var s, x := ListAt(lists, p), ItemOf(id, u);
      k := FindPosition(id, u, p);
      var clients', homes', lists' := AddUnit(clients, id, u, u.gone), homes[id := p], lists[p := Yata.Integrate(s, x)];
      ghost var gone' := gone + GoneWith(id, u);
      NextPlaced(clients, homes, lists, named, gone, clients', homes', lists', gone', content, time, worlds,
        id, u, p, k);
      clients, homes, lists, gone := clients', homes', lists', gone';
    }

    /** An item goes to its list; the value before it, or it itself, may have to be deleted. */
    method Insert(id: ID, u: Unit, p: Place)
      requires Clean() && content(id, u) && id.clock == State(Vector(clients), id.client)
      requires u.Inserted? && PlaceOf(homes, u) == Some(p)
      modifies this`clients, this`homes, this`lists, this`gone
      ensures Clean() && Vector(clients) == old(Vector(clients))[id.client := id.clock + 1]
      ensures PutAs(old(homes), old(lists), homes, lists, id, u)
    {
      hide Neat;
      var s := ListAt(lists, p);
      var k := PutInPlace(id, u, p);
      DeleteObsolete(id, s, p, k);
    }

    /** What a new item makes obsolete is deleted. */
    method DeleteObsolete(id: ID, s: seq<Yata.Item>, p: Place, k: nat)
      requires CleanBut(Obsolete(s, p, k, id)) && WhereInserted(homes, lists, s, p, k, id)
      requires JustCame(clients, named, gone, id)
      modifies this`clients
      ensures Clean() && Vector(clients) == old(Vector(clients))
    {
      hide NeatBut;
      if p.sub.Some? && k == |s| && k > 0 {
        DeletePrevious(id, s[k - 1].id, p);
      }
      DeleteSelf(id, p, k < |s|);
    }

    /** `this.left.delete`: the value of the key so far. */
    method DeletePrevious(id: ID, previous: ID, ghost p: Place)
      requires CleanBut(iset{id} + iset{previous}) && id in homes && homes[id] == p && p.sub.Some?
      requires HasPrevious(homes, lists, p, id, previous) && JustCame(clients, named, gone, id)
      modifies this`clients
      ensures CleanBut(iset{id}) && Vector(clients) == old(Vector(clients)) && JustCame(clients, named, gone, id)
    {
      hide NeatBut, Assumed;
      DeleteReasoned(previous, iset{id} + iset{previous});
      assert iset{id} + iset{previous} - iset{previous} == iset{id};
      assert DeepAt(old(clients), clients, homes, previous, id);
    }

    /** A new item is deleted if its parent is, or if another value came after it. */
    method DeleteSelf(id: ID, p: Place, hasRight: bool)
      requires CleanBut(iset{id}) && Stands(homes, lists, p, id, hasRight) && JustCame(clients, named, gone, id)
      modifies this`clients
      ensures Clean() && Vector(clients) == old(Vector(clients))
    {
      hide Filed, Rooted, Causal, History, Explained, Complete;
      if (p.home.In? && A.Deleted(clients, p.home.item)) || (p.sub.Some? && hasRight) {
        DeleteReasoned(id, iset{id});
        assert iset{id} - iset{id} == iset{};
      } else {
        NoReason(homes, lists, Vector(clients), named, gone, DeletedIds(clients), id);
      }
      RuledNow(homes, lists, Vector(clients), named, gone, DeletedIds(clients));
    }

    /** `integrate`, for one unit. */
    method IntegrateUnit(id: ID, u: Unit)
      requires Clean() && content(id, u) && id.clock == State(Vector(clients), id.client)
      requires forall d <- UnitDeps(u) :: Held(Vector(clients), d)
      modifies this`clients, this`homes, this`lists, this`gone
      ensures Clean() && Vector(clients) == old(Vector(clients))[id.client := id.clock + 1]
      ensures PutAs(old(homes), old(lists), homes, lists, id, u)
    {
      hide Neat;
      if u.Inserted? && PlaceOf(homes, u).Some? {
        Insert(id, u, PlaceOf(homes, u).value);
      } else {
        Collect(id, u);
      }
    }

    /** `integrate`: the units of a struct that the store does not hold yet. */
    method IntegrateStruct(s: Struct)
      requires Clean() && From(s, content) && !s.Skip? && s.clock <= State(Vector(clients), s.client) < s.End()
      requires forall d <- s.Deps() :: Held(Vector(clients), d)
      modifies this`clients, this`homes, this`lists, this`gone
      ensures Clean() && Vector(clients) == old(Vector(clients))[s.client := s.End()]
    {
      hide Neat;
      var start := State(Vector(clients), s.client);
      for k := start to s.End()
        invariant Clean() && UpToNow(old(Vector(clients)), Vector(clients), s.client, k)
      {
        IntegrateNext(s, k, old(Vector(clients)));
      }
    }

    method IntegrateNext(s: Struct, k: nat, ghost sv: StateVector)
      requires Clean() && From(s, content) && !s.Skip? && s.clock <= k < s.End()
      requires UpToNow(sv, Vector(clients), s.client, k)
      requires forall d <- s.Deps() :: Held(sv, d)
      modifies this`clients, this`homes, this`lists, this`gone
      ensures Clean() && UpToNow(sv, Vector(clients), s.client, k + 1)
    {
      hide Neat;
      var id := ID(s.client, k);
      assert s.Covers(id);
      UnitDepsHeld(s, id, content, sv, Vector(clients));
      UpToNext(sv, Vector(clients), s.client, k);
      IntegrateUnit(id, UnitOf(s, id));
    }

    method IntegrateAt(applied: seq<Struct>, i: nat, ghost sv: StateVector)
      requires Clean() && I.Legal(sv, applied) && (forall s <- applied :: From(s, content)) && i < |applied|
      requires Vector(clients) == I.Replay(sv, applied[..i])
      modifies this`clients, this`homes, this`lists, this`gone
      ensures Clean() && Vector(clients) == I.Replay(sv, applied[..i + 1])
    {
      hide Neat;
      LegalAt(sv, applied, i);
      ReplayNext(sv, applied, i);
      ReadyDeps(Vector(clients), applied[i], content, time);
      IntegrateStruct(applied[i]);
    }

    /** The calls of `integrate`, in their order. */
    method IntegrateAll(applied: seq<Struct>)
      requires Sound() && I.Legal(Vector(clients), applied) && forall s <- applied :: From(s, content)
      modifies this`clients, this`homes, this`lists, this`gone, this`log
      ensures Sound() && log == old(log) + applied && Vector(clients) == I.Replay(old(Vector(clients)), applied)
    {
      ghost var sv := Vector(clients);
      for i := 0 to |applied|
        invariant Clean() && Vector(clients) == I.Replay(sv, applied[..i]) && log == old(log)
      {
        IntegrateAt(applied, i, sv);
      }
      assert applied[..|applied|] == applied;
      LogGrows(map[], log, applied);
      log := log + applied;
    }

    /** Integrates what can be integrated of an update; the rest is left over. */
    method Integrate(structs: seq<Struct>) returns (rest: Option<I.Leftovers>)
      requires Sound() && Update(structs, content)
      modifies this`clients, this`homes, this`lists, this`gone, this`log
      ensures Sound() && old(log) <= log
      ensures Kept(old(Vector(clients)), None, structs, Vector(clients), LeftPending(rest))
      ensures I.Outcome(Grouped(structs), Vector(clients), LeftOrNone(rest))
      ensures rest.Some? ==>
        Update(LeftPending(rest).value.update, content) && !Retries(LeftPending(rest).value, Vector(clients))
    {
      hide Neat;
      var refs := Grouped(structs);
      GroupedFine(structs, content, time);
      var sv, applied, left := I.IntegrateStructs(refs, Vector(clients), time);
      ListedFrom(refs, applied, content);
      IntegratedKept(structs, Vector(clients), applied, left, content, time);
      LeftUpdate(structs, sv, left, content, time);
      IntegrateAll(applied);
      rest := left;
    }

    /** The ranges of all clients. */
    method ApplyRanges(ds: DeleteSet) returns (rest: Option<DeleteSet>)
      requires A.Stored(clients) && Inhabited(ds)
      modifies this`clients
      ensures SameStore(old(clients), clients)
      ensures rest.Some? ==> Inhabited(rest.value)
      ensures forall id :: AppliesAt(old(clients), ds, clients, rest, id)
    {
      var unapplied: DeleteSet := map[];
      var todo := ds.Keys;
      while todo != {}
        invariant AppliedSoFar(old(clients), ds, clients, unapplied, todo)
      {
        var client :| client in todo;
        ghost var c1, u1 := clients, unapplied;
        var more := ApplyClient(client, ds[client]);
        if more != [] {
          unapplied := unapplied[client := more];
        }
        NextApplied(old(clients), ds, c1, u1, todo, client, more, clients, unapplied);
        todo := todo - {client};
      }
      rest := if |unapplied| > 0 then Some(unapplied) else None;
      forall id ensures AppliesAt(old(clients), ds, clients, rest, id) {
        AppliesId(old(clients), ds, clients, unapplied, id);
      }
    }

    /** Deletes what is inside of the items that a delete set named. */
    method DeleteInside(newly: set<ID>)
      requires InOrder() && (forall id <- newly :: A.Deleted(clients, id)) && AllOutdone(clients, homes, lists)
      modifies this`clients
      ensures InOrder() && Emptied(old(clients), clients, homes, lists, newly)
    {
      var todo := newly;
      EmptiedStart(clients, homes, lists);
      while todo != {}
        invariant todo <= newly && InOrder() && Emptied(old(clients), clients, homes, lists, newly - todo)
      {
        var id :| id in todo;
        OneMore(newly, todo, id);
        Empty(old(clients), newly - todo, id);
        todo := todo - {id};
      }
      assert newly - {} == newly;
    }

    method Empty(ghost c0: A.Clients, ghost done: set<ID>, id: ID)
      requires InOrder() && Emptied(c0, clients, homes, lists, done) && A.Deleted(c0, id)
      modifies this`clients
      ensures InOrder() && Emptied(c0, clients, homes, lists, done + {id})
    {
      ghost var c1 := clients;
      EmptiedStill(c0, c1, homes, lists, done, id);
      DeleteChildren(id);
      EmptiedNext(c0, c1, clients, homes, lists, done, id);
    }

    /** Deletes the named ids that the store holds, with all that is inside of them, and
        returns the others. */
    method ReadAndApplyDeleteSet(ds: DeleteSet) returns (rest: Option<DeleteSet>)
      requires Clean() && Inhabited(ds)
      modifies this`clients, this`named
      ensures Clean() && SameStore(old(clients), clients)
      ensures rest.Some? ==> Inhabited(rest.value)
      ensures forall id :: DeletesAt(None, ds, Vector(clients), old(named), rest, named, id)
    {
      var newly := set id | id in homes && Names(ds, id) && !A.Deleted(clients, id);
      ghost var c0, sv := clients, Vector(clients);
      rest := ApplyRanges(ds);
      ghost var c1, named' := clients, named + NamedIn(ds, sv);
      NamedNow(c0, ds, c1, rest, named);
      AppliedRanges(c0, ds, c1, rest, homes, lists, named, gone, newly);
      DeleteInside(newly);
      RuledSpread(c0, c1, clients, homes, lists, sv, time, named, named', gone, newly);
      named := named';
      SameStoreTwice(c0, c1, clients);
    }

    /** Puts the leftovers of an update that was integrated with what is pending. */
    method KeepLeftovers(rest: Option<I.Leftovers>, ghost sv0: StateVector, ghost structs: seq<Struct>)
      returns (retry: bool)
      requires Sound() && Kept(sv0, None, structs, Vector(clients), LeftPending(rest)) && Update(structs, content)
      requires I.Outcome(Grouped(structs), Vector(clients), LeftOrNone(rest))
      requires (Functional(content) ==> Closed(content, sv0))
      requires rest.Some? ==>
        Update(LeftPending(rest).value.update, content) && !Retries(LeftPending(rest).value, Vector(clients))
      requires pendingStructs.Some? ==> Update(pendingStructs.value.update, content)
      modifies this`pendingStructs
      ensures Kept(sv0, old(pendingStructs), structs, Vector(clients), pendingStructs)
      ensures pendingStructs.Some? ==> Update(pendingStructs.value.update, content)
      ensures retry <==> old(pendingStructs).Some? && Retries(old(pendingStructs).value, Vector(clients))
      ensures retry ==> pendingStructs.Some?
      ensures !retry && pendingStructs.Some? ==> !Retries(pendingStructs.value, Vector(clients))
      ensures Functional(content) && !retry && Whole() && QuietOf(old(pendingStructs), content, time, sv0) ==> Quiet()
    {
      hide Neat;
      retry := false;
      var left := LeftPending(rest);
      ghost var p0, sv := pendingStructs, Vector(clients);
      if pendingStructs.Some? {
        retry := CanRetry(pendingStructs.value, Vector(clients));
        if left.Some? {
          var missing := MergeMissing(pendingStructs.value.missing, left.value.missing);
          var update := MergeUpdates.MergeUpdates([pendingStructs.value.update, left.value.update], content);
          BothHold(pendingStructs.value.update, left.value.update);
          pendingStructs := Some(Pending(update, missing));
          if !retry {
            MergedRetries(p0.value, left.value, pendingStructs.value, sv);
          }
        }
        MergedKept(sv0, p0.value, structs, sv, left, pendingStructs.value);
      } else {
        pendingStructs := left;
      }
      if Functional(content) && !retry && Whole() && QuietOf(p0, content, time, sv0) {
        StillQuiet(clients, log, content, time, structs, sv0, p0, rest, pendingStructs);
      }
    }

    /** Applies an update once. */
    method ReadOnce(structs: seq<Struct>, ds: DeleteSet) returns (retry: bool)
      requires Valid() && Update(structs, content) && Inhabited(ds)
      modifies this
      ensures Sound() && old(log) <= log && (pendingDs.Some? ==> Inhabited(pendingDs.value))
      ensures pendingStructs.Some? ==>
        Update(pendingStructs.value.update, content) && (retry || !Retries(pendingStructs.value, Vector(clients)))
      ensures Kept(old(Vector(clients)), old(pendingStructs), structs, Vector(clients), pendingStructs)
      ensures Deletes(old(pendingDs), ds, Vector(clients), old(named), pendingDs, named)
      ensures (retry <==> RetriedBy(old(pendingStructs), Vector(clients))) && (retry ==> pendingStructs.Some?)
      ensures Functional(content) ==> Settles(content, old(Vector(clients)), IdsOf(structs), Vector(clients))
      ensures Functional(content) && !retry && Whole() && old(Quiet()) ==> Quiet()
    {
      hide Neat, Kept, Deletes, Settles, NoneExposed, Update, Inhabited, Functional, Retries;
      ghost var sv0 := Vector(clients);
      if Functional(content) {
        StoreClosed(clients, log, content, time);
      }
      var rest := Integrate(structs);
      if Functional(content) {
        StoreClosed(clients, log, content, time);
        IntegratedSettles(structs, sv0, Vector(clients), rest, content, time);
      }
      retry := KeepLeftovers(rest, sv0, structs);
      ReadDeletes(ds);
    }

    /** Applies an update, and tries what is pending again if that may succeed. */
    method ReadUpdate(structs: seq<Struct>, ds: DeleteSet)
      requires Valid() && Update(structs, content) && Inhabited(ds)
      modifies this
      decreases pendingStructs.Some?
      ensures Valid() && old(log) <= log
      ensures Kept(old(Vector(clients)), old(pendingStructs), structs, Vector(clients), pendingStructs)
      ensures Deletes(old(pendingDs), ds, Vector(clients), old(named), pendingDs, named)
      ensures Functional(content) ==>
        Reads(content, old(Vector(clients)), old(pendingStructs), structs, Vector(clients))
      ensures Functional(content) && Whole() && (old(Quiet()) || RetriedBy(old(pendingStructs), Vector(clients))) ==>
        Quiet()
    {
      hide Neat, Logged, Kept, Deletes, Reads, Settles, NoneExposed, Retries;
      ghost var sv0, p0, pds0, named0 := Vector(clients), pendingStructs, pendingDs, named;
      var retry := ReadOnce(structs, ds);
      ghost var sv1, p1, pds1, named1 := Vector(clients), pendingStructs, pendingDs, named;
      if retry {
        var update := pendingStructs.value.update;
        pendingStructs := None;
        ReadUpdate(update, map[]);
        ReadTwice(content, sv0, p0, pds0, named0, structs, ds, sv1, p1, pds1, named1, Vector(clients), pendingStructs,
          pendingDs, named);
      } else if Functional(content) {
        ReadsDirectly(content, sv0, p0, structs, sv1);
      }
    }

    /** The deletes of an update, together with those that are pending. */
    method ReadDeletes(ds: DeleteSet)
      requires Sound() && Inhabited(ds) && (pendingDs.Some? ==> Inhabited(pendingDs.value))
      modifies this`clients, this`pendingDs, this`named
      ensures Sound() && Vector(clients) == old(Vector(clients)) && (pendingDs.Some? ==> Inhabited(pendingDs.value))
      ensures Deletes(old(pendingDs), ds, Vector(clients), old(named), pendingDs, named)
    {
      var dsRest := ReadAndApplyDeleteSet(ds);
      ghost var named1, sv := named, Vector(clients);
      if pendingDs.Some? {
        var dsRest2 := ReadAndApplyDeleteSet(pendingDs.value);
        if dsRest.Some? && dsRest2.Some? {
          var merged := MergeDeleteSets([dsRest.value, dsRest2.value]);
          BothNamed(dsRest.value, dsRest2.value);
          pendingDs := Some(merged);
        } else {
          pendingDs := if dsRest.Some? then dsRest else dsRest2;
        }
        forall id ensures DeletesAt(old(pendingDs), ds, sv, old(named), pendingDs, named, id) {
          assert DeletesAt(None, ds, sv, old(named), dsRest, named1, id);
          assert DeletesAt(None, old(pendingDs).value, sv, named1, dsRest2, named, id);
        }
      } else {
        pendingDs := dsRest;
        forall id ensures DeletesAt(old(pendingDs), ds, sv, old(named), pendingDs, named, id) {
          assert DeletesAt(None, ds, sv, old(named), dsRest, named, id);
        }
      }
    }
  }

  // ----- Whole runs -----

  datatype Message = Message(structs: seq<Struct>, ds: DeleteSet)

  ghost predicate Delivered(messages: seq<Message>, id: ID) {
    exists i :: 0 <= i < |messages| && Holds(messages[i].structs, id)
  }

  ghost predicate Revoked(messages: seq<Message>, id: ID) {
    exists i :: 0 <= i < |messages| && Names(messages[i].ds, id)
  }

  /** What became of an id after the messages: nothing that was delivered is lost, neither
      a unit nor a delete. */
  ghost predicate ReceivedAt(messages: seq<Message>, sv: StateVector, p: Option<Pending>, pds: Option<DeleteSet>,
                             named: iset<ID>, id: ID) {
    && (Held(sv, id) || InPending(p, id) <==> Delivered(messages, id))
    && (Named(pds, id) <==> Revoked(messages, id) && !Held(sv, id))
    && (id in named <==> Revoked(messages, id) && Held(sv, id))
  }

  ghost predicate Received(messages: seq<Message>, sv: StateVector, p: Option<Pending>, pds: Option<DeleteSet>,
                           named: iset<ID>) {
    forall id :: ReceivedAt(messages, sv, p, pds, named, id)
  }

  /** The deleted ids of the store: those that a message named, that came without content,
      that were collected, that a later value of their key came after, or whose parent is
      deleted. */
  ghost predicate DeletedAt(messages: seq<Message>, clients: A.Clients, homes: Homes, lists: Lists, gone: iset<ID>,
                            id: ID) {
    A.Deleted(clients, id) <==>
      Held(Vector(clients), id) &&
      (Revoked(messages, id) || id in gone || id !in homes || Outdone(homes, lists, id) || Inside(clients, homes, id))
  }

  lemma ReceivedNext(messages: seq<Message>, m: Message, sv0: StateVector, p0: Option<Pending>,
                     pds0: Option<DeleteSet>, named0: iset<ID>, sv1: StateVector, p1: Option<Pending>,
                     pds1: Option<DeleteSet>, named1: iset<ID>)
    requires Received(messages, sv0, p0, pds0, named0)
    requires Kept(sv0, p0, m.structs, sv1, p1) && Deletes(pds0, m.ds, sv1, named0, pds1, named1)
    ensures Received(messages + [m], sv1, p1, pds1, named1)
  {
    forall id ensures ReceivedAt(messages + [m], sv1, p1, pds1, named1, id) {
      assert ReceivedAt(messages, sv0, p0, pds0, named0, id);
      assert KeptAt(sv0, p0, m.structs, sv1, p1, id) && DeletesAt(pds0, m.ds, sv1, named0, pds1, named1, id);
      assert State(sv0, id.client) <= State(sv1, id.client);
      MessagesNext(messages, m, id);
    }
  }

  lemma MessagesNext(messages: seq<Message>, m: Message, id: ID)
    ensures Delivered(messages + [m], id) <==> Delivered(messages, id) || Holds(m.structs, id)
    ensures Revoked(messages + [m], id) <==> Revoked(messages, id) || Names(m.ds, id)
  {
    var all := messages + [m];
    assert all[|messages|] == m && forall i :: 0 <= i < |messages| ==> all[i] == messages[i];
  }

  lemma DeletedLaw(messages: seq<Message>, clients: A.Clients, homes: Homes, lists: Lists, p: Option<Pending>,
                   pds: Option<DeleteSet>, named: iset<ID>, gone: iset<ID>, id: ID)
    requires Received(messages, Vector(clients), p, pds, named)
    requires Ruled(homes, lists, Vector(clients), named, gone, DeletedIds(clients))
    ensures DeletedAt(messages, clients, homes, lists, gone, id)
  {
    assert ReceivedAt(messages, Vector(clients), p, pds, named, id);
    assert id in DeletedIds(clients) <==>
      Held(Vector(clients), id) && Doomed(homes, lists, named, gone, DeletedIds(clients), id);
  }

  /** An item is there exactly if nothing named it, it came with its content, and it is shown. */
  ghost predicate LiveAt(clients: A.Clients, homes: Homes, lists: Lists, named: iset<ID>, gone: iset<ID>, id: ID)
    requires id in homes
  {
    !A.Deleted(clients, id) <==> id !in named && id !in gone && Shown(homes, lists, DeletedIds(clients), id)
  }

  lemma NothingReceived()
    ensures Received([], Vector(map[]), None, None, iset{})
  {
  }

  /** A new store after a run of updates, in any order and with any repetitions. */
  method ReadAll(messages: seq<Message>, ghost content: Content, ghost time: Time, ghost worlds: Worlds)
    returns (store: StructStore)
    requires Assumed(content, time, worlds)
    requires forall m <- messages :: Update(m.structs, content) && Inhabited(m.ds)
    ensures store.Valid() && store.content == content && store.time == time && store.worlds == worlds && fresh(store)
    ensures Received(messages, Vector(store.clients), store.pendingStructs, store.pendingDs, store.named)
  {
    hide *;
    store := new StructStore(content, time, worlds);
    NothingReceived();
    for i := 0 to |messages|
      invariant store.Valid() && store.content == content && store.time == time && store.worlds == worlds
      invariant fresh(store)
      invariant Received(messages[..i], Vector(store.clients), store.pendingStructs, store.pendingDs, store.named)
    {
      ghost var sv0, p0, pds0, named0 := Vector(store.clients), store.pendingStructs, store.pendingDs, store.named;
      assert messages[i] in messages;
      store.ReadUpdate(messages[i].structs, messages[i].ds);
      ReceivedNext(messages[..i], messages[i], sv0, p0, pds0, named0, Vector(store.clients), store.pendingStructs,
        store.pendingDs, store.named);
      assert messages[..i + 1] == messages[..i] + [messages[i]];
    }
    assert messages[..|messages|] == messages;
  }

  /** What holds of the store after a run: nothing is lost, exactly these ids are deleted,
      and a retry can be missed exactly if a pending unit is exposed. */
  method Receive(messages: seq<Message>, ghost content: Content, ghost time: Time, ghost worlds: Worlds)
    returns (store: StructStore)
    requires Assumed(content, time, worlds)
    requires forall m <- messages :: Update(m.structs, content) && Inhabited(m.ds)
    ensures store.Valid() && store.content == content && store.time == time && store.worlds == worlds
    ensures Received(messages, Vector(store.clients), store.pendingStructs, store.pendingDs, store.named)
    ensures forall id :: DeletedAt(messages, store.clients, store.homes, store.lists, store.gone, id)
    ensures forall id <- store.homes :: LiveAt(store.clients, store.homes, store.lists, store.named, store.gone, id)
    ensures Functional(content) && store.pendingStructs.Some? ==> var p := store.pendingStructs.value;
      (exists sv :: Missed(p, content, Vector(store.clients), sv)) <==>
        exists id :: Exposed(p, content, time, Vector(store.clients), id)
    ensures store.Quiet() ==> forall id :: Waiting(store.pendingStructs, Vector(store.clients), id) ==>
      !Reached(content, Vector(store.clients), id)
    ensures store.Quiet() && SelfContained(messages, content) ==>
      forall id :: Delivered(messages, id) ==> Held(Vector(store.clients), id)
  {
    store := ReadAll(messages, content, time, worlds);
    forall id ensures DeletedAt(messages, store.clients, store.homes, store.lists, store.gone, id) {
      DeletedLaw(messages, store.clients, store.homes, store.lists, store.pendingStructs, store.pendingDs, store.named,
        store.gone, id);
    }
    forall id | id in store.homes
      ensures LiveAt(store.clients, store.homes, store.lists, store.named, store.gone, id)
    {
      LiveIsShown(worlds, store.homes, store.lists, Vector(store.clients), store.named, store.gone,
        DeletedIds(store.clients), id);
    }
    if Functional(content) && store.pendingStructs.Some? {
      StoreClosed(store.clients, store.log, content, time);
      RetryExact(store.pendingStructs.value, content, time, Vector(store.clients));
    }
    if store.Quiet() {
      QuietBlocked(store.pendingStructs, content, time, Vector(store.clients));
      if SelfContained(messages, content) {
        AllHeld(messages, content, time, Vector(store.clients), store.pendingStructs, store.pendingDs, store.named);
      }
    }
  }

  /** Pending and not in the store. */
  ghost predicate Waiting(p: Option<Pending>, sv: StateVector, id: ID) {
    InPending(p, id) && !Held(sv, id)
  }

  lemma QuietBlocked(p: Option<Pending>, content: Content, time: Time, sv: StateVector)
    requires QuietOf(p, content, time, sv)
    ensures forall id :: Waiting(p, sv, id) ==> !Reached(content, sv, id)
  {
    if p.Some? {
      NoneReached(p.value, content, time, sv);
    }
  }

  /** Everything that a delivered unit needs was delivered too. */
  ghost predicate SelfContained(messages: seq<Message>, content: Content) {
    forall id, d :: Delivered(messages, id) && Needs(content, id, d) ==> Delivered(messages, d)
  }

  /** Then nothing waits, unless something is exposed. */
  lemma AllHeld(messages: seq<Message>, content: Content, time: Time, sv: StateVector, p: Option<Pending>,
                pds: Option<DeleteSet>, named: iset<ID>)
    requires Received(messages, sv, p, pds, named) && SelfContained(messages, content)
    requires Causal(content, time) && QuietOf(p, content, time, sv)
    ensures forall id :: Delivered(messages, id) ==> Held(sv, id)
  {
    forall id | Delivered(messages, id) ensures Held(sv, id) {
      assert ReceivedAt(messages, sv, p, pds, named, id);
      if p.Some? {
        forall e, d | Waits(p.value, sv, e) && Needs(content, e, d) ensures Held(sv, d) || Holds(p.value.update, d) {
          assert ReceivedAt(messages, sv, p, pds, named, e) && ReceivedAt(messages, sv, p, pds, named, d);
        }
        NothingWaits(p.value, content, time, sv, id);
      }
    }
  }
}
