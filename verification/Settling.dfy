/** What an update comes to. */
module Settling {
  // Reading takes into the store exactly those units of an update whose dependencies can
  // all be met, whatever the order of its structs and wherever they are cut.

  import opened Common
  import opened Yata
  import opened Structs
  import opened MergeUpdates
  import opened Updates
  import opened Retry
  import opened Deletion
  import opened StoreLog
  import A = ApplyDeletes
  import I = IntegrateStructs

  /** Of the ids only what has everything it needs got into the store, and all of that. */
  ghost predicate Settles(content: Content, sv: StateVector, ids: iset<ID>, sv': StateVector) {
    && Grows(sv, sv') && Closed(content, sv')
    && (forall id :: Held(sv', id) && !Held(sv, id) ==> id in ids)
    && (forall id <- ids :: !Held(sv', id) ==> !Reached(content, sv', id))
  }

  ghost predicate SameNew(sv: StateVector, ids: iset<ID>, ids': iset<ID>) {
    forall id :: !Held(sv, id) ==> (id in ids <==> id in ids')
  }

  lemma {:induction false} SettlesWithin(content: Content, time: Time, sv: StateVector, ids: iset<ID>, ids': iset<ID>,
                                         sv1: StateVector, sv2: StateVector, id: ID)
    requires Causal(content, time) && SameNew(sv, ids, ids')
    requires Settles(content, sv, ids, sv1) && Settles(content, sv, ids', sv2)
    ensures Held(sv1, id) ==> Held(sv2, id)
    decreases time(id)
  {
    if Held(sv1, id) && !Held(sv, id) {
      forall d | Needs(content, id, d) ensures Held(sv2, d) {
        NeedsOlder(content, time, id, d);
        SettlesWithin(content, time, sv, ids, ids', sv1, sv2, d);
      }
    }
  }

  /** What gets into the store depends only on the ids that are new. */
  lemma SettlesOnce(content: Content, time: Time, sv: StateVector, ids: iset<ID>, ids': iset<ID>,
                    sv1: StateVector, sv2: StateVector)
    requires Causal(content, time) && SameNew(sv, ids, ids')
    requires Settles(content, sv, ids, sv1) && Settles(content, sv, ids', sv2)
    ensures SameStates(sv1, sv2)
  {
    forall c: nat ensures State(sv1, c) == State(sv2, c) {
      if State(sv1, c) < State(sv2, c) {
        SettlesWithin(content, time, sv, ids', ids, sv2, sv1, ID(c, State(sv1, c)));
      } else if State(sv2, c) < State(sv1, c) {
        SettlesWithin(content, time, sv, ids, ids', sv1, sv2, ID(c, State(sv2, c)));
      }
    }
  }

  ghost predicate SameStates(sv: StateVector, sv': StateVector) {
    forall c: nat :: State(sv, c) == State(sv', c)
  }

  ghost function IdsOf(structs: seq<Struct>): iset<ID> {
    iset id | Holds(structs, id)
  }

  ghost function PendingIds(p: Option<Pending>): iset<ID> {
    iset id | InPending(p, id)
  }

  /** A unit that was left over does not have everything it needs. */
  lemma LeftBlocked(refs: I.Refs, left: I.Leftovers, content: Content, sv: StateVector, id: ID)
    requires I.Outcome(refs, sv, left) && AllLists(left.structs, content) && Closed(content, sv)
    requires id.client in left.structs && Holds(left.structs[id.client], id) && !Held(sv, id)
    ensures !Reached(content, sv, id)
  {
    if Reached(content, sv, id) {
      assert id.clock > 0 ==> Needs(content, id, ID(id.client, id.clock - 1));
      HeadIsNext(refs, left, content, sv, id);
      var h := left.structs[id.client][0];
      assert I.LeftoverAt(refs, left, sv, id.client) && EntryAt(left.structs[id.client], id.client, content, 0);
      forall d | d in h.Deps() ensures Held(sv, d) {
        FirstNeeds(h, content, d);
      }
      NothingMissing(h, sv);
    }
  }

  lemma NothingMissing(h: Struct, sv: StateVector)
    requires forall d <- h.Deps() :: Held(sv, d)
    ensures Missing(h, sv).None?
  {
  }

  /** `integrateStructs` settles the ids of the update. */
  lemma IntegratedSettles(structs: seq<Struct>, sv: StateVector, sv': StateVector, left: Option<I.Leftovers>,
                          content: Content, time: Time)
    requires Update(structs, content) && Causal(content, time) && Closed(content, sv')
    requires I.Outcome(Grouped(structs), sv', LeftOrNone(left)) && Kept(sv, None, structs, sv', LeftPending(left))
    ensures Settles(content, sv, IdsOf(structs), sv')
  {
    GroupedFine(structs, content, time);
    LeftoverLists(Grouped(structs), sv', LeftOrNone(left), content);
    forall id | Held(sv', id) && !Held(sv, id) ensures id in IdsOf(structs) {
      assert KeptAt(sv, None, structs, sv', LeftPending(left), id);
    }
    forall id | id in IdsOf(structs) && !Held(sv', id) ensures !Reached(content, sv', id) {
      assert KeptAt(sv, None, structs, sv', LeftPending(left), id);
      LeftIds(LeftOrNone(left), content, id);
      LeftBlocked(Grouped(structs), LeftOrNone(left), content, sv', id);
    }
  }

  /** What an update and, if a recorded clock is passed, what was pending come to. */
  ghost predicate Reads(content: Content, sv: StateVector, p: Option<Pending>, structs: seq<Struct>, sv': StateVector) {
    exists sv1 :: ReadsVia(content, sv, p, structs, sv1, sv')
  }

  ghost predicate ReadsVia(content: Content, sv: StateVector, p: Option<Pending>, structs: seq<Struct>,
                           sv1: StateVector, sv': StateVector) {
    && Settles(content, sv, IdsOf(structs), sv1)
    && (if RetriedBy(p, sv1) then Settles(content, sv1, IdsOf(structs) + PendingIds(p), sv') else sv' == sv1)
  }

  lemma ReadsDirectly(content: Content, sv: StateVector, p: Option<Pending>, structs: seq<Struct>, sv': StateVector)
    requires Settles(content, sv, IdsOf(structs), sv') && !RetriedBy(p, sv')
    ensures Reads(content, sv, p, structs, sv')
  {
    assert ReadsVia(content, sv, p, structs, sv', sv');
  }

  lemma ReadsAgain(content: Content, sv: StateVector, p: Option<Pending>, structs: seq<Struct>, sv1: StateVector,
                   p1: Option<Pending>, sv': StateVector)
    requires Kept(sv, p, structs, sv1, p1) && p1.Some? && RetriedBy(p, sv1)
    requires Settles(content, sv, IdsOf(structs), sv1) && Reads(content, sv1, None, p1.value.update, sv')
    ensures Reads(content, sv, p, structs, sv')
  {
    var ids := IdsOf(structs) + PendingIds(p);
    assert Settles(content, sv1, IdsOf(p1.value.update), sv');
    forall id | !Held(sv1, id) ensures id in ids <==> id in IdsOf(p1.value.update) {
      assert KeptAt(sv, p, structs, sv1, p1, id);
      assert State(sv, id.client) <= State(sv1, id.client);
    }
    SettlesSame(content, sv1, IdsOf(p1.value.update), ids, sv');
    assert ReadsVia(content, sv, p, structs, sv1, sv');
  }

  lemma SettlesSame(content: Content, sv: StateVector, ids: iset<ID>, ids': iset<ID>, sv': StateVector)
    requires SameNew(sv, ids, ids') && Settles(content, sv, ids, sv')
    ensures Settles(content, sv, ids', sv')
  {
  }

  /** Updates that agree on what the store does not hold have the same effect. */
  lemma ReadsOnce(content: Content, time: Time, sv: StateVector, p: Option<Pending>, a: seq<Struct>, b: seq<Struct>,
                  sv1: StateVector, sv2: StateVector)
    requires Causal(content, time) && SameNew(sv, IdsOf(a), IdsOf(b))
    requires Reads(content, sv, p, a, sv1) && Reads(content, sv, p, b, sv2)
    ensures SameStates(sv1, sv2)
  {
    var s1 :| ReadsVia(content, sv, p, a, s1, sv1);
    var s2 :| ReadsVia(content, sv, p, b, s2, sv2);
    SettlesOnce(content, time, sv, IdsOf(a), IdsOf(b), s1, s2);
    SameRetries(p, s1, s2);
    if RetriedBy(p, s1) {
      SettlesFrom(content, s2, s1, IdsOf(b) + PendingIds(p), sv2);
      SettlesOnce(content, time, s1, IdsOf(a) + PendingIds(p), IdsOf(b) + PendingIds(p), sv1, sv2);
    }
  }

  lemma SameRetries(p: Option<Pending>, sv: StateVector, sv': StateVector)
    requires SameStates(sv, sv')
    ensures RetriedBy(p, sv) <==> RetriedBy(p, sv')
  {
  }

  lemma SettlesFrom(content: Content, sv: StateVector, sv0: StateVector, ids: iset<ID>, sv': StateVector)
    requires SameStates(sv, sv0) && Settles(content, sv, ids, sv')
    ensures Settles(content, sv0, ids, sv')
  {
  }

  // ----- What stays pending -----

  /** Everything that a pending unit needs is in the store or pending. */
  ghost predicate NoGaps(p: Pending, content: Content, sv: StateVector) {
    forall id, d :: Waits(p, sv, id) && Needs(content, id, d) ==> Held(sv, d) || Holds(p.update, d)
  }

  /** Where nothing is exposed, nothing waits that has everything it needs at hand. */
  lemma {:induction false} NothingWaits(p: Pending, content: Content, time: Time, sv: StateVector, id: ID)
    requires Causal(content, time) && NoneExposed(p, content, time, sv) && NoGaps(p, content, sv)
    ensures !Waits(p, sv, id)
    decreases time(id)
  {
    if Waits(p, sv, id) {
      NoneReached(p, content, time, sv);
      var d :| Needs(content, id, d) && !Held(sv, d);
      NeedsOlder(content, time, id, d);
      NothingWaits(p, content, time, sv, d);
    }
  }
}
