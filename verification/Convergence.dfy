/** Stores that agree. */
module Convergence {
  // Two stores that received the same, or different, updates; and a store that received a
  // part of an update instead of all of it.

  import opened Common
  import opened Yata
  import opened Agreement
  import opened Structs
  import opened MergeUpdates
  import opened Retry
  import opened DeleteSets
  import opened Document
  import opened Deletion
  import opened StoreLog
  import opened Settling
  import opened Exchange
  import DiffUpdate
  import A = ApplyDeletes
  import D = Document

  // ----- The same updates -----

  lemma SameMessages(messages: seq<Message>, messages': seq<Message>, id: ID)
    requires forall m :: m in messages ==> m in messages'
    ensures Delivered(messages, id) ==> Delivered(messages', id)
    ensures Revoked(messages, id) ==> Revoked(messages', id)
  {
    if i :| 0 <= i < |messages| && Holds(messages[i].structs, id) {
      assert messages[i] in messages';
      var j :| 0 <= j < |messages'| && messages'[j] == messages[i];
    }
    if i :| 0 <= i < |messages| && Names(messages[i].ds, id) {
      assert messages[i] in messages';
      var j :| 0 <= j < |messages'| && messages'[j] == messages[i];
    }
  }

  ghost function DeliveredIds(messages: seq<Message>): iset<ID> {
    iset id | Delivered(messages, id)
  }

  /** A quiet store holds what can be integrated of all that was delivered. */
  lemma DeliveredSettles(messages: seq<Message>, content: Content, time: Time, sv: StateVector, p: Option<Pending>,
                         pds: Option<DeleteSet>, named: iset<ID>)
    requires Received(messages, sv, p, pds, named) && Closed(content, sv) && QuietOf(p, content, time, sv)
    ensures Settles(content, map[], DeliveredIds(messages), sv)
  {
    QuietBlocked(p, content, time, sv);
    forall id ensures Held(sv, id) ==> id in DeliveredIds(messages)
      ensures id in DeliveredIds(messages) && !Held(sv, id) ==> !Reached(content, sv, id)
    {
      assert ReceivedAt(messages, sv, p, pds, named, id);
    }
  }

  /** Nothing is pending at either store, or no retry can be missed at either. */
  ghost predicate Comparable(content: Content, time: Time, sv: StateVector, p: Option<Pending>, sv': StateVector,
                             p': Option<Pending>) {
    || (p.None? && p'.None?)
    || (Closed(content, sv) && Closed(content, sv') && QuietOf(p, content, time, sv) && QuietOf(p', content, time, sv'))
  }

  /** Two stores that received the same updates hold the same units. */
  lemma SameHeld(messages: seq<Message>, messages': seq<Message>, content: Content, time: Time,
                 sv: StateVector, p: Option<Pending>, pds: Option<DeleteSet>, named: iset<ID>,
                 sv': StateVector, p': Option<Pending>, pds': Option<DeleteSet>, named': iset<ID>)
    requires (forall m :: m in messages <==> m in messages') && Causal(content, time)
    requires Received(messages, sv, p, pds, named) && Received(messages', sv', p', pds', named')
    requires Comparable(content, time, sv, p, sv', p')
    ensures forall id :: Held(sv, id) <==> Held(sv', id)
  {
    forall id ensures (Delivered(messages, id) <==> Delivered(messages', id))
      ensures p.None? && p'.None? ==> (Held(sv, id) <==> Held(sv', id))
    {
      assert ReceivedAt(messages, sv, p, pds, named, id) && ReceivedAt(messages', sv', p', pds', named', id);
      SameMessages(messages, messages', id);
      SameMessages(messages', messages, id);
    }
    if !(p.None? && p'.None?) {
      DeliveredSettles(messages, content, time, sv, p, pds, named);
      DeliveredSettles(messages', content, time, sv', p', pds', named');
      SettlesOnce(content, time, map[], DeliveredIds(messages), DeliveredIds(messages'), sv, sv');
    }
  }

  /** The same units stay pending, and the same deletes are applied or stay pending. */
  lemma SameRest(messages: seq<Message>, messages': seq<Message>, sv: StateVector, p: Option<Pending>,
                 pds: Option<DeleteSet>, named: iset<ID>, sv': StateVector, p': Option<Pending>,
                 pds': Option<DeleteSet>, named': iset<ID>, id: ID)
    requires (forall m :: m in messages <==> m in messages') && (Held(sv, id) <==> Held(sv', id))
    requires Received(messages, sv, p, pds, named) && Received(messages', sv', p', pds', named')
    ensures Waiting(p, sv, id) <==> Waiting(p', sv', id)
    ensures (id in named <==> id in named') && (Named(pds, id) <==> Named(pds', id))
    ensures id in named <==> Revoked(messages, id) && Held(sv, id)
  {
    assert ReceivedAt(messages, sv, p, pds, named, id) && ReceivedAt(messages', sv', p', pds', named', id);
    SameMessages(messages, messages', id);
    SameMessages(messages', messages, id);
  }

  /** What came without content was named as well, so that it makes no difference. */
  lemma RuledNamed(homes: Homes, lists: Lists, lists': Lists, sv: StateVector, sv': StateVector, named: iset<ID>,
                   named': iset<ID>, gone: iset<ID>, deleted: iset<ID>)
    requires Ruled(homes, lists, sv, named, gone, deleted) && forall id <- gone :: Held(sv, id) ==> id in named
    requires forall id :: (Held(sv, id) <==> Held(sv', id)) && (id in named <==> id in named')
    requires forall p :: ListAt(lists, p) == ListAt(lists', p)
    ensures Ruled(homes, lists', sv', named', iset{}, deleted)
  {
    forall id ensures id in deleted <==> Held(sv', id) && Doomed(homes, lists', named', iset{}, deleted, id) {
      assert id in deleted <==> Held(sv, id) && Doomed(homes, lists, named, gone, deleted, id);
      assert id in homes ==> ListAt(lists, homes[id]) == ListAt(lists', homes[id]);
    }
  }

  /** Two stores with the same items and the same named ids deleted the same ones. */
  lemma SameDeleted(content: Content, time: Time, c: A.Clients, homes: Homes, lists: Lists, named: iset<ID>,
                    gone: iset<ID>, c': A.Clients, lists': Lists, named': iset<ID>, gone': iset<ID>)
    requires Complete(c, homes, named, gone, content) && Complete(c', homes, named', gone', content)
    requires Rooted(homes, time) && forall p :: ListAt(lists, p) == ListAt(lists', p)
    requires forall id :: (Held(Vector(c), id) <==> Held(Vector(c'), id)) && (id in named <==> id in named')
    requires forall id :: WasGone(content, id) && Held(Vector(c), id) ==> id in named
    requires Ruled(homes, lists, Vector(c), named, gone, DeletedIds(c))
    requires Ruled(homes, lists', Vector(c'), named', gone', DeletedIds(c'))
    ensures forall id :: A.Deleted(c, id) <==> A.Deleted(c', id)
  {
    RuledNamed(homes, lists, lists', Vector(c), Vector(c'), named, named', gone, DeletedIds(c));
    RuledNamed(homes, lists', lists', Vector(c'), Vector(c'), named', named', gone', DeletedIds(c'));
    forall id ensures A.Deleted(c, id) <==> A.Deleted(c', id) {
      D.RuledOnce(homes, lists', Vector(c'), named', iset{}, time, DeletedIds(c), DeletedIds(c'), id);
    }
  }

  /** Two stores that hold the same units, none of them collected, hold the same lists. */
  lemma SameDocument(content: Content, time: Time, worlds: Worlds,
                     c: A.Clients, homes: Homes, lists: Lists, named: iset<ID>, gone: iset<ID>,
                     c': A.Clients, homes': Homes, lists': Lists, named': iset<ID>, gone': iset<ID>)
    requires Assumed(content, time, worlds) && homes.Keys == homes'.Keys
    requires Neat(c, homes, lists, named, gone, content, time, worlds)
    requires Neat(c', homes', lists', named', gone', content, time, worlds)
    requires forall id :: (Held(Vector(c), id) <==> Held(Vector(c'), id)) && (id in named <==> id in named')
    requires forall id :: WasGone(content, id) && Held(Vector(c), id) ==> id in named
    ensures homes == homes' && forall p :: ListAt(lists, p) == ListAt(lists', p)
    ensures forall id :: A.Deleted(c, id) <==> A.Deleted(c', id)
  {
    D.SameHomes(worlds, homes, lists, homes', lists');
    forall p ensures ListAt(lists, p) == ListAt(lists', p) {
      D.ListsAgree(worlds, homes, lists, homes', lists', p);
    }
    SameDeleted(content, time, c, homes, lists, named, gone, c', lists', named', gone');
  }

  lemma SameKeys(c: A.Clients, homes: Homes, c': A.Clients, homes': Homes)
    requires forall id :: Held(Vector(c), id) <==> Held(Vector(c'), id)
    requires (forall id <- homes :: Held(Vector(c), id)) && (forall id <- homes' :: Held(Vector(c'), id))
    requires forall id :: Held(Vector(c), id) ==> id in homes && id in homes'
    ensures homes.Keys == homes'.Keys
  {
  }

  ghost predicate ReceivedBy(messages: seq<Message>, s: StructStore)
    reads s
  {
    s.Valid() && Received(messages, Vector(s.clients), s.pendingStructs, s.pendingDs, s.named)
  }

  ghost predicate SameAssumptions(s: StructStore, t: StructStore) {
    s.content == t.content && s.time == t.time && s.worlds == t.worlds
  }

  /** Two stores that received the same updates, in whatever order and how often, hold the
      same units, have the same units pending, and applied or keep the same deletes, if
      nothing is pending, or if no retry can be missed. */
  lemma AnyOrderHeld(messages: seq<Message>, messages': seq<Message>, s: StructStore, t: StructStore)
    requires ReceivedBy(messages, s) && ReceivedBy(messages', t) && SameAssumptions(s, t)
    requires forall m :: m in messages <==> m in messages'
    requires (s.pendingStructs.None? && t.pendingStructs.None?) || (Functional(s.content) && s.Quiet() && t.Quiet())
    ensures forall id :: Held(Vector(s.clients), id) <==> Held(Vector(t.clients), id)
    ensures forall id ::
      Waiting(s.pendingStructs, Vector(s.clients), id) <==> Waiting(t.pendingStructs, Vector(t.clients), id)
    ensures forall id :: (id in s.named <==> id in t.named) && (Named(s.pendingDs, id) <==> Named(t.pendingDs, id))
    ensures forall id :: id in s.named <==> Revoked(messages, id) && Held(Vector(s.clients), id)
  {
    var sv, sv' := Vector(s.clients), Vector(t.clients);
    if Functional(s.content) {
      StoreClosed(s.clients, s.log, s.content, s.time);
      StoreClosed(t.clients, t.log, t.content, t.time);
    }
    SameHeld(messages, messages', s.content, s.time, sv, s.pendingStructs, s.pendingDs, s.named,
      sv', t.pendingStructs, t.pendingDs, t.named);
    forall id ensures Waiting(s.pendingStructs, sv, id) <==> Waiting(t.pendingStructs, sv', id)
      ensures (id in s.named <==> id in t.named) && (Named(s.pendingDs, id) <==> Named(t.pendingDs, id))
      ensures id in s.named <==> Revoked(messages, id) && Held(sv, id)
    {
      SameRest(messages, messages', sv, s.pendingStructs, s.pendingDs, s.named,
        sv', t.pendingStructs, t.pendingDs, t.named, id);
    }
  }

  /** They also hold the same lists with the same items deleted.  This holds for updates in
      which nothing was collected, and in which whatever came without its content is named
      by a delete set. */
  lemma AnyOrder(messages: seq<Message>, messages': seq<Message>, s: StructStore, t: StructStore)
    requires ReceivedBy(messages, s) && ReceivedBy(messages', t) && SameAssumptions(s, t)
    requires forall m :: m in messages <==> m in messages'
    requires (s.pendingStructs.None? && t.pendingStructs.None?) || (Functional(s.content) && s.Quiet() && t.Quiet())
    requires NothingCollected(s.content) && forall id :: WasGone(s.content, id) ==> Revoked(messages, id)
    ensures s.homes == t.homes && forall p :: ListAt(s.lists, p) == ListAt(t.lists, p)
    ensures forall id :: Held(Vector(s.clients), id) <==> Held(Vector(t.clients), id)
    ensures forall id :: A.Deleted(s.clients, id) <==> A.Deleted(t.clients, id)
  {
    AnyOrderHeld(messages, messages', s, t);
    SameKeys(s.clients, s.homes, t.clients, t.homes);
    SameDocument(s.content, s.time, s.worlds, s.clients, s.homes, s.lists, s.named, s.gone,
      t.clients, t.homes, t.lists, t.named, t.gone);
  }

  // ----- Different updates -----

  /** Whatever two stores received, collected and have pending: an item that both have in a
      list is in the same list, and both have the items that they share in the same order. */
  lemma SharedOrder(s: StructStore, t: StructStore)
    requires s.Valid() && t.Valid() && SameAssumptions(s, t)
    ensures forall id :: id in s.homes && id in t.homes ==> s.homes[id] == t.homes[id]
    ensures forall p, x, y :: InBoth(s, t, p, x) && InBoth(s, t, p, y) ==>
      (Before(ListAt(s.lists, p), x, y) <==> Before(ListAt(t.lists, p), x, y))
  {
    forall id | id in s.homes && id in t.homes ensures s.homes[id] == t.homes[id] {
      D.SharedHome(s.worlds, s.homes, s.lists, t.homes, t.lists, id);
    }
    forall p, x, y | InBoth(s, t, p, x) && InBoth(s, t, p, y)
      ensures Before(ListAt(s.lists, p), x, y) <==> Before(ListAt(t.lists, p), x, y)
    {
      D.OrderAgreed(s.worlds, s.homes, s.lists, t.homes, t.lists, p, x, y);
    }
  }

  ghost predicate InBoth(s: StructStore, t: StructStore, p: Place, x: Yata.Item)
    reads s`lists, t`lists
  {
    x in ListAt(s.lists, p) && x in ListAt(t.lists, p)
  }

  // ----- A part of an update -----

  /** What `diffUpdateV2` makes of an update for a state vector. */
  ghost predicate DiffFor(update: seq<Struct>, sv: StateVector, diff: seq<Struct>) {
    forall id :: Holds(diff, id) <==> Holds(update, id) && State(sv, id.client) <= id.clock
  }

  lemma DiffNew(update: seq<Struct>, sv: StateVector, diff: seq<Struct>, sv0: StateVector)
    requires DiffFor(update, sv, diff) && Grows(sv, sv0)
    ensures SameNew(sv0, IdsOf(diff), IdsOf(update))
  {
    forall id | !Held(sv0, id) ensures id in IdsOf(diff) <==> id in IdsOf(update) {
      assert State(sv, id.client) <= State(sv0, id.client);
    }
  }

  /** A peer that reads what `diffUpdateV2` made of an update for its state vector has
      afterwards the same units in its store and the same ones pending, and applied or keeps
      the same deletes, as one that reads the whole update. */
  lemma DiffSuffices(content: Content, time: Time, update: seq<Struct>, ds: DeleteSet, sv: StateVector,
                     diff: seq<Struct>, sv0: StateVector, p0: Option<Pending>, pds0: Option<DeleteSet>,
                     named0: iset<ID>, sv1: StateVector, p1: Option<Pending>, pds1: Option<DeleteSet>,
                     named1: iset<ID>, sv2: StateVector, p2: Option<Pending>, pds2: Option<DeleteSet>,
                     named2: iset<ID>)
    requires Causal(content, time) && DiffFor(update, sv, diff) && Grows(sv, sv0)
    requires Kept(sv0, p0, diff, sv1, p1) && Reads(content, sv0, p0, diff, sv1)
    requires Deletes(pds0, ds, sv1, named0, pds1, named1)
    requires Kept(sv0, p0, update, sv2, p2) && Reads(content, sv0, p0, update, sv2)
    requires Deletes(pds0, ds, sv2, named0, pds2, named2)
    ensures SameStates(sv1, sv2) && forall id :: Waiting(p1, sv1, id) <==> Waiting(p2, sv2, id)
    ensures named1 == named2 && forall id :: Named(pds1, id) <==> Named(pds2, id)
  {
    DiffNew(update, sv, diff, sv0);
    ReadsOnce(content, time, sv0, p0, diff, update, sv1, sv2);
    forall id ensures Waiting(p1, sv1, id) <==> Waiting(p2, sv2, id) {
      assert KeptAt(sv0, p0, diff, sv1, p1, id) && KeptAt(sv0, p0, update, sv2, p2, id);
      assert State(sv1, id.client) == State(sv2, id.client) && State(sv0, id.client) <= State(sv1, id.client);
    }
    forall id ensures (id in named1 <==> id in named2) && (Named(pds1, id) <==> Named(pds2, id)) {
      assert DeletesAt(pds0, ds, sv1, named0, pds1, named1, id) && DeletesAt(pds0, ds, sv2, named0, pds2, named2, id);
      assert State(sv1, id.client) == State(sv2, id.client);
    }
  }

  /** `applyUpdateV2` of a diff that was made for a state vector which the store had before:
      all of the update is in the store or pending, as if the whole update had been read. */
  method ReadDiff(store: StructStore, update: seq<Struct>, ds: DeleteSet, sv: StateVector)
    requires store.Valid() && Update(update, store.content) && Inhabited(ds) && Grows(sv, Vector(store.clients))
    modifies store
    ensures store.Valid()
    ensures Kept(old(Vector(store.clients)), old(store.pendingStructs), update, Vector(store.clients),
      store.pendingStructs)
    ensures Deletes(old(store.pendingDs), ds, Vector(store.clients), old(store.named), store.pendingDs, store.named)
    ensures Functional(store.content) ==>
      Reads(store.content, old(Vector(store.clients)), old(store.pendingStructs), update, Vector(store.clients))
  {
    var diff := DiffUpdate.DiffUpdate(update, sv, store.content);
    ghost var sv0, p0 := Vector(store.clients), store.pendingStructs;
    store.ReadUpdate(diff, ds);
    DiffNew(update, sv, diff, sv0);
    NewKept(sv0, p0, diff, update, Vector(store.clients), store.pendingStructs);
    if Functional(store.content) {
      NewReads(store.content, sv0, p0, diff, update, Vector(store.clients));
    }
  }

  lemma NewKept(sv: StateVector, p: Option<Pending>, a: seq<Struct>, b: seq<Struct>, sv': StateVector,
                p': Option<Pending>)
    requires SameNew(sv, IdsOf(a), IdsOf(b)) && Kept(sv, p, a, sv', p')
    ensures Kept(sv, p, b, sv', p')
  {
    forall id ensures KeptAt(sv, p, b, sv', p', id) {
      assert KeptAt(sv, p, a, sv', p', id);
      assert !Held(sv, id) ==> (id in IdsOf(a) <==> id in IdsOf(b));
    }
  }

  lemma NewReads(content: Content, sv: StateVector, p: Option<Pending>, a: seq<Struct>, b: seq<Struct>,
                 sv': StateVector)
    requires SameNew(sv, IdsOf(a), IdsOf(b)) && Reads(content, sv, p, a, sv')
    ensures Reads(content, sv, p, b, sv')
  {
    var sv1 :| ReadsVia(content, sv, p, a, sv1, sv');
    SettlesSame(content, sv, IdsOf(a), IdsOf(b), sv1);
    if RetriedBy(p, sv1) {
      SettlesSame(content, sv1, IdsOf(a) + PendingIds(p), IdsOf(b) + PendingIds(p), sv');
    }
    assert ReadsVia(content, sv, p, b, sv1, sv');
  }
}
