/** Retrying pending structs. */
module Retry {
  // `readUpdateV2` keeps the structs that `integrateStructs` left over, and tries them again
  // once the store passes a clock recorded in `missing`.  A retry can be missed exactly when
  // a pending unit is exposed: of all that it waits for, directly or indirectly, nothing is
  // at or after a recorded clock.

  import opened Common
  import opened Yata
  import opened Structs
  import opened MergeUpdates
  import opened Updates
  import I = IntegrateStructs

  datatype Pending = Pending(update: seq<Struct>, missing: map<nat, nat>)

  // ----- What a unit needs -----

  /** The unit before it of the same client, and the units that it refers to. */
  ghost predicate Needs(content: Content, id: ID, d: ID) {
    || (id.clock > 0 && d == ID(id.client, id.clock - 1))
    || exists u :: content(id, u) && d in UnitDeps(u)
  }

  /** Units refer to older units only. */
  ghost predicate Causal(content: Content, time: Time) {
    && ClocksAscend(time)
    && forall id, u, d :: content(id, u) && d in UnitDeps(u) ==> time(d) < time(id)
  }

  /** All updates agree about what a unit refers to. */
  ghost predicate Functional(content: Content) {
    forall id, u, u' :: content(id, u) && content(id, u') ==> UnitDeps(u) == UnitDeps(u')
  }

  lemma NeedsOlder(content: Content, time: Time, id: ID, d: ID)
    requires Causal(content, time) && Needs(content, id, d)
    ensures time(d) < time(id)
  {
    if id.clock > 0 && d == ID(id.client, id.clock - 1) {
      assert AscendsAt(time, id.client, d.clock, id.clock);
    }
  }

  /** Everything that the unit needs is in the store. */
  ghost predicate Reached(content: Content, sv: StateVector, id: ID) {
    forall d :: Needs(content, id, d) ==> Held(sv, d)
  }

  /** Every unit got into the store after what it needs. */
  ghost predicate Closed(content: Content, sv: StateVector) {
    forall id :: Held(sv, id) ==> Reached(content, sv, id)
  }

  ghost predicate Known(content: Content, id: ID) {
    exists u :: content(id, u)
  }

  /** A store that can come of another one by integrating units of the content. */
  ghost predicate Possible(content: Content, sv: StateVector, sv': StateVector) {
    && Grows(sv, sv') && Closed(content, sv')
    && forall id :: Held(sv', id) && !Held(sv, id) ==> Known(content, id)
  }

  // ----- Missing a retry -----

  /** Pending and not in the store. */
  ghost predicate Waits(p: Pending, sv: StateVector, id: ID) {
    Holds(p.update, id) && !Held(sv, id)
  }

  /** The test before a retry. */
  ghost predicate Retries(p: Pending, sv: StateVector) {
    exists c <- p.missing :: p.missing[c] < State(sv, c)
  }

  /** A later store in which a pending unit has everything it needs, although nothing
      triggers a retry. */
  ghost predicate Missed(p: Pending, content: Content, sv: StateVector, sv': StateVector) {
    Possible(content, sv, sv') && !Retries(p, sv') && exists id :: Waits(p, sv', id) && Reached(content, sv', id)
  }

  /** The unit can get into the store without triggering a retry. */
  predicate Passes(p: Pending, d: ID) {
    d.client in p.missing ==> d.clock < p.missing[d.client]
  }

  /** No unit that is older and not in the store, and on which `id` depends directly or
      indirectly, triggers a retry.  The times only bound the recursion. */
  ghost predicate Clear(p: Pending, content: Content, time: Time, sv: StateVector, id: ID)
    decreases time(id)
  {
    forall d :: Needs(content, id, d) && !Held(sv, d) && time(d) < time(id) ==>
      Passes(p, d) && Known(content, d) && Clear(p, content, time, sv, d)
  }

  /** A pending unit for which no recorded clock stands. */
  ghost predicate Exposed(p: Pending, content: Content, time: Time, sv: StateVector, id: ID) {
    Waits(p, sv, id) && Clear(p, content, time, sv, id)
  }

  lemma NotPassed(p: Pending, sv: StateVector, c: nat)
    requires !Retries(p, sv) && c in p.missing
    ensures State(sv, c) <= p.missing[c]
  {
  }

  /** What is reached without a retry was clear before. */
  lemma {:induction false} ReachedClear(p: Pending, content: Content, time: Time, sv: StateVector, sv': StateVector,
                                        id: ID)
    requires Causal(content, time) && Possible(content, sv, sv') && !Retries(p, sv')
    requires Reached(content, sv', id)
    ensures Clear(p, content, time, sv, id)
    decreases time(id)
  {
    forall d | Needs(content, id, d) && !Held(sv, d) && time(d) < time(id)
      ensures Passes(p, d) && Known(content, d) && Clear(p, content, time, sv, d)
    {
      if d.client in p.missing {
        NotPassed(p, sv', d.client);
      }
      ReachedClear(p, content, time, sv, sv', d);
    }
  }

  /** A store on the way to one that holds what an exposed unit needs. */
  ghost predicate OnTheWay(p: Pending, content: Content, time: Time, sv: StateVector, cur: StateVector, bound: nat) {
    && Possible(content, sv, cur)
    && forall d :: Held(cur, d) && !Held(sv, d) ==> time(d) < bound && Passes(p, d)
  }

  ghost predicate CanArrive(p: Pending, content: Content, time: Time, sv: StateVector, d: ID) {
    Held(sv, d) || (Passes(p, d) && Known(content, d) && Clear(p, content, time, sv, d))
  }

  function Previous(id: ID): seq<ID> {
    if id.clock > 0 then [ID(id.client, id.clock - 1)] else []
  }

  /** All that a unit needs, as a list. */
  lemma NeedsListed(content: Content, id: ID) returns (ids: seq<ID>)
    requires Functional(content) && Known(content, id)
    ensures forall d :: d in ids <==> Needs(content, id, d)
  {
    var u :| content(id, u);
    ids := Previous(id) + UnitDeps(u);
    forall d ensures d in ids <==> Needs(content, id, d) {
      if Needs(content, id, d) && !(id.clock > 0 && d == ID(id.client, id.clock - 1)) {
        var u' :| content(id, u') && d in UnitDeps(u');
        assert UnitDeps(u') == UnitDeps(u);
      }
    }
  }

  /** A unit arrives after everything that it needs. */
  lemma Arrives(p: Pending, content: Content, time: Time, sv: StateVector, cur: StateVector, bound: nat, d: ID)
    returns (next: StateVector)
    requires OnTheWay(p, content, time, sv, cur, bound) && CanArrive(p, content, time, sv, d) && time(d) < bound
    requires Reached(content, cur, d)
    ensures OnTheWay(p, content, time, sv, next, bound) && Grows(cur, next) && Held(next, d)
  {
    if Held(cur, d) {
      next := cur;
    } else {
      assert d.clock > 0 ==> Needs(content, d, ID(d.client, d.clock - 1));
      next := cur[d.client := d.clock + 1];
      assert forall id :: Held(next, id) <==> Held(cur, id) || id == d;
    }
  }

  /** Units arrive, and what they need before them. */
  lemma {:induction false} AllArrive(p: Pending, content: Content, time: Time, sv: StateVector, cur: StateVector,
                                     bound: nat, ids: seq<ID>, limit: nat) returns (next: StateVector)
    requires Causal(content, time) && Functional(content) && OnTheWay(p, content, time, sv, cur, bound)
    requires limit <= bound && forall d <- ids :: time(d) < limit && CanArrive(p, content, time, sv, d)
    ensures OnTheWay(p, content, time, sv, next, bound) && Grows(cur, next) && forall d <- ids :: Held(next, d)
    decreases limit, |ids|
  {
    next := cur;
    if ids != [] {
      var d, rest := ids[0], ids[1..];
      next := AllArrive(p, content, time, sv, cur, bound, rest, limit);
      if !Held(next, d) {
        assert State(sv, d.client) <= State(next, d.client) && CanArrive(p, content, time, sv, d);
        assert Known(content, d);
        var needs := NeedsListed(content, d);
        forall e | e in needs ensures time(e) < time(d) && CanArrive(p, content, time, sv, e) {
          NeedsOlder(content, time, d, e);
        }
        next := AllArrive(p, content, time, sv, next, bound, needs, time(d));
        ghost var got := next;
        assert Reached(content, got, d) by {
          forall e | Needs(content, d, e) ensures Held(got, e) {
            assert e in needs;
          }
        }
        next := Arrives(p, content, time, sv, next, bound, d);
      }
      forall e | e in ids ensures Held(next, e) {
        assert e == d || e in rest;
      }
    }
  }

  /** Everything that an exposed unit needs can arrive without a retry. */
  lemma ExposedMissed(p: Pending, content: Content, time: Time, sv: StateVector, id: ID) returns (sv': StateVector)
    requires Causal(content, time) && Functional(content) && Closed(content, sv) && !Retries(p, sv)
    requires Exposed(p, content, time, sv, id) && Known(content, id)
    ensures Missed(p, content, sv, sv')
  {
    var needs := NeedsListed(content, id);
    forall d | d in needs ensures time(d) < time(id) && CanArrive(p, content, time, sv, d) {
      NeedsOlder(content, time, id, d);
    }
    sv' := AllArrive(p, content, time, sv, sv, time(id), needs, time(id));
    forall c | c in p.missing ensures p.missing[c] >= State(sv', c) {
      NotPassed(p, sv, c);
      assert !Passes(p, ID(c, p.missing[c])) && !Held(sv, ID(c, p.missing[c]));
    }
    assert Waits(p, sv', id) && Reached(content, sv', id);
  }

  lemma PendingKnown(p: Pending, content: Content, id: ID)
    requires Update(p.update, content) && Holds(p.update, id)
    ensures Known(content, id)
  {
    var i :| 0 <= i < |p.update| && MergeUpdates.Has(p.update[i], id);
    assert From(p.update[i], content) && content(id, UnitOf(p.update[i], id));
  }

  /** A retry can be missed if and only if a pending unit is exposed. */
  lemma RetryExact(p: Pending, content: Content, time: Time, sv: StateVector)
    requires Causal(content, time) && Functional(content) && Update(p.update, content)
    requires Closed(content, sv) && !Retries(p, sv)
    ensures (exists sv' :: Missed(p, content, sv, sv')) <==> exists id :: Exposed(p, content, time, sv, id)
  {
    if sv' :| Missed(p, content, sv, sv') {
      var id :| Waits(p, sv', id) && Reached(content, sv', id);
      ReachedClear(p, content, time, sv, sv', id);
      assert Exposed(p, content, time, sv, id);
    }
    if id :| Exposed(p, content, time, sv, id) {
      PendingKnown(p, content, id);
      var sv' := ExposedMissed(p, content, time, sv, id);
    }
  }

  ghost predicate NoneExposed(p: Pending, content: Content, time: Time, sv: StateVector) {
    forall id :: !Exposed(p, content, time, sv, id)
  }

  /** Where nothing is exposed, no pending unit has everything that it needs. */
  lemma NoneReached(p: Pending, content: Content, time: Time, sv: StateVector)
    requires NoneExposed(p, content, time, sv)
    ensures forall id :: Waits(p, sv, id) ==> !Reached(content, sv, id)
  {
    forall id | Waits(p, sv, id) ensures !Reached(content, sv, id) {
      assert !Exposed(p, content, time, sv, id);
    }
  }

  /** As long as nothing triggers a retry, nothing gets exposed. */
  lemma StaysUnexposed(p: Pending, content: Content, time: Time, sv: StateVector, sv': StateVector)
    requires Causal(content, time) && Functional(content) && Update(p.update, content)
    requires Closed(content, sv) && Possible(content, sv, sv') && !Retries(p, sv')
    requires NoneExposed(p, content, time, sv)
    ensures NoneExposed(p, content, time, sv')
  {
    forall id ensures !Exposed(p, content, time, sv', id) {
      if Exposed(p, content, time, sv', id) {
        PendingKnown(p, content, id);
        var sv'' := ExposedMissed(p, content, time, sv', id);
        assert Missed(p, content, sv, sv'');
        assert forall c :: c in p.missing ==> State(sv, c) <= State(sv', c);
        RetryExact(p, content, time, sv);
      }
    }
  }

  // ----- What is watched -----

  ghost predicate WatchedAt(p: Pending, c: nat, j: nat) {
    Holds(p.update, ID(c, j)) || (c in p.missing && p.missing[c] <= j)
  }

  /** The store cannot come to hold `d` without integrating a pending unit or passing a
      recorded clock. */
  ghost predicate Watched(p: Pending, sv: StateVector, d: ID) {
    exists j: nat :: State(sv, d.client) <= j <= d.clock && WatchedAt(p, d.client, j)
  }

  /** The unit waits for something that is watched. */
  ghost predicate WaitsWatched(p: Pending, content: Content, sv: StateVector, id: ID) {
    exists d :: Needs(content, id, d) && !Held(sv, d) && Watched(p, sv, d)
  }

  /** With a unit all earlier units of its client are clear. */
  lemma {:induction false} EarlierClear(p: Pending, content: Content, time: Time, sv: StateVector, d: ID, j: nat)
    requires Causal(content, time) && Passes(p, d) && Clear(p, content, time, sv, d)
    requires State(sv, d.client) <= j <= d.clock
    ensures Passes(p, ID(d.client, j)) && Clear(p, content, time, sv, ID(d.client, j))
    ensures time(ID(d.client, j)) <= time(d)
    decreases d.clock - j
  {
    if j < d.clock {
      var e := ID(d.client, d.clock - 1);
      assert Needs(content, d, e) && AscendsAt(time, d.client, e.clock, d.clock);
      EarlierClear(p, content, time, sv, e, j);
    }
  }

  /** `p` pends with `q`: it holds its units, and records its clocks. */
  ghost predicate Includes(p: Pending, q: Pending) {
    && (forall id :: Holds(q.update, id) ==> Holds(p.update, id))
    && (forall c <- q.missing :: c in p.missing && p.missing[c] <= q.missing[c])
  }

  /** With more recorded clocks no more is clear. */
  lemma {:induction false} ClearLess(p: Pending, r: Pending, content: Content, time: Time, sv: StateVector, id: ID)
    requires Includes(r, p) && Clear(r, content, time, sv, id)
    ensures Clear(p, content, time, sv, id)
    decreases time(id)
  {
    forall d | Needs(content, id, d) && !Held(sv, d) && time(d) < time(id)
      ensures Passes(p, d) && Clear(p, content, time, sv, d)
    {
      ClearLess(p, r, content, time, sv, d);
    }
  }

  /** Each pending unit was pending before, or waits for something watched. */
  ghost predicate OldOrWatched(p: Pending, r: Pending, content: Content, sv: StateVector) {
    forall id :: Waits(r, sv, id) ==> Waits(p, sv, id) || WaitsWatched(r, content, sv, id)
  }

  lemma {:induction false} NotClear(p: Pending, r: Pending, content: Content, time: Time, sv: StateVector, id: ID)
    requires Causal(content, time) && Includes(r, p) && NoneExposed(p, content, time, sv)
    requires OldOrWatched(p, r, content, sv) && Waits(r, sv, id)
    ensures !Clear(r, content, time, sv, id)
    decreases time(id)
  {
    if Clear(r, content, time, sv, id) {
      ClearLess(p, r, content, time, sv, id);
      assert !Exposed(p, content, time, sv, id);
      var d :| Needs(content, id, d) && !Held(sv, d) && Watched(r, sv, d);
      var j: nat :| State(sv, d.client) <= j <= d.clock && WatchedAt(r, d.client, j);
      NeedsOlder(content, time, id, d);
      EarlierClear(r, content, time, sv, d, j);
      NotClear(p, r, content, time, sv, ID(d.client, j));
    }
  }

  /** Merging with what waits for something watched exposes nothing. */
  lemma MergedUnexposed(p: Pending, r: Pending, content: Content, time: Time, sv: StateVector)
    requires Causal(content, time) && Includes(r, p) && NoneExposed(p, content, time, sv)
    requires OldOrWatched(p, r, content, sv)
    ensures NoneExposed(r, content, time, sv)
  {
    forall id ensures !Exposed(r, content, time, sv, id) {
      if Waits(r, sv, id) {
        NotClear(p, r, content, time, sv, id);
      }
    }
  }

  // ----- What is left over -----

  /** Structs of the content depend on older units only. */
  lemma FromAcyclic(s: Struct, content: Content, time: Time)
    requires From(s, content) && Causal(content, time)
    ensures Acyclic(time, s)
  {
    if s.Item? {
      var id := ID(s.client, s.clock);
      assert s.Covers(id) && content(id, UnitOf(s, id));
      assert UnitDeps(UnitOf(s, id)) == s.Deps();
    }
  }

  /** The first unit of a struct needs what the struct depends on. */
  lemma FirstNeeds(s: Struct, content: Content, d: ID)
    requires s.Item? && From(s, content) && d in s.Deps()
    ensures Needs(content, ID(s.client, s.clock), d)
  {
    var id := ID(s.client, s.clock);
    assert s.Covers(id) && content(id, UnitOf(s, id));
    assert d in UnitDeps(UnitOf(s, id));
  }

  /** Of each client with pending units, the one that comes next is pending. */
  ghost predicate Unbroken(p: Pending, sv: StateVector) {
    forall id :: Waits(p, sv, id) ==> Holds(p.update, ID(id.client, State(sv, id.client)))
  }

  ghost predicate AllLists(refs: I.Refs, content: Content) {
    forall c <- refs :: ClientList(refs[c], c, content)
  }

  function AsPending(left: I.Leftovers): Pending {
    Pending(Written(left.structs, left.structs.Keys), left.missing)
  }

  /** The first unit left over of a client comes next of the client. */
  lemma HeadWaits(left: I.Leftovers, content: Content, sv: StateVector, c: nat)
    requires AllLists(left.structs, content) && c in left.structs && left.structs[c] != [] && !left.structs[c][0].Skip?
    ensures Holds(AsPending(left).update, ID(c, left.structs[c][0].clock))
  {
    var h := left.structs[c][0];
    WrittenUpdate(left.structs, left.structs.Keys, content);
    assert EntryAt(left.structs[c], c, content, 0);
    assert MergeUpdates.Has(h, ID(c, h.clock));
  }

  /** What is left over of a client is not in the store. */
  lemma HeadUnheld(refs0: I.Refs, left: I.Leftovers, content: Content, sv: StateVector, c: nat)
    requires I.Outcome(refs0, sv, left) && AllLists(left.structs, content) && Closed(content, sv) && c in left.structs
    ensures left.structs[c] != [] && !left.structs[c][0].Skip?
    ensures Waits(AsPending(left), sv, ID(c, left.structs[c][0].clock))
  {
    assert I.LeftoverAt(refs0, left, sv, c);
    var h := left.structs[c][0];
    assert EntryAt(left.structs[c], c, content, 0);
    HeadWaits(left, content, sv, c);
    if h.clock < State(sv, c) {
      assert Reached(content, sv, ID(c, h.clock));
      forall d | d in h.Deps() ensures Held(sv, d) {
        FirstNeeds(h, content, d);
      }
    }
  }

  /** Of each client with leftovers, the unit that comes next is watched. */
  lemma NextWatched(refs0: I.Refs, left: I.Leftovers, p: Pending, content: Content, sv: StateVector, c: nat)
    requires I.Outcome(refs0, sv, left) && AllLists(left.structs, content) && Closed(content, sv) && c in left.structs
    requires Includes(p, AsPending(left)) && Unbroken(p, sv)
    ensures WatchedAt(p, c, State(sv, c))
  {
    HeadUnheld(refs0, left, content, sv, c);
    assert Waits(p, sv, ID(c, left.structs[c][0].clock));
  }

  /** What the first leftover of a client lacks is watched. */
  lemma DepWatched(refs0: I.Refs, left: I.Leftovers, p: Pending, content: Content, sv: StateVector, d: ID)
    requires I.Outcome(refs0, sv, left) && AllLists(left.structs, content) && Closed(content, sv)
    requires Includes(p, AsPending(left)) && Unbroken(p, sv) && !Held(sv, d)
    requires I.Recorded(left, sv, d.client)
    ensures Watched(p, sv, d)
  {
    if d.client in left.structs {
      NextWatched(refs0, left, p, content, sv, d.client);
    }
    assert WatchedAt(p, d.client, State(sv, d.client));
  }

  /** A unit left over that comes next of its client begins the leftovers. */
  lemma HeadIsNext(refs0: I.Refs, left: I.Leftovers, content: Content, sv: StateVector, id: ID)
    requires I.Outcome(refs0, sv, left) && AllLists(left.structs, content) && Closed(content, sv)
    requires id.client in left.structs && Holds(left.structs[id.client], id) && id.clock == State(sv, id.client)
    ensures left.structs[id.client] != [] && left.structs[id.client][0].clock == id.clock
  {
    HeadUnheld(refs0, left, content, sv, id.client);
    ListBegins(left.structs[id.client], content, id);
  }

  lemma ListBegins(list: seq<Struct>, content: Content, id: ID)
    requires ClientList(list, id.client, content) && Holds(list, id)
    ensures list[0].clock <= id.clock
  {
    var k :| 0 <= k < |list| && MergeUpdates.Has(list[k], id);
    ListStarts(list, id.client, content, k);
  }

  lemma HeadWatched(refs0: I.Refs, left: I.Leftovers, p: Pending, content: Content, sv: StateVector, id: ID)
    requires I.Outcome(refs0, sv, left) && AllLists(left.structs, content) && Closed(content, sv)
    requires Includes(p, AsPending(left)) && Unbroken(p, sv)
    requires id.client in left.structs && left.structs[id.client] != [] && left.structs[id.client][0].clock == id.clock
    requires id.clock == State(sv, id.client)
    ensures WaitsWatched(p, content, sv, id)
  {
    var h := left.structs[id.client][0];
    assert I.LeftoverAt(refs0, left, sv, id.client);
    assert EntryAt(left.structs[id.client], id.client, content, 0);
    var d := MissingDep(h, sv);
    FirstNeeds(h, content, d);
    DepWatched(refs0, left, p, content, sv, d);
  }

  lemma {:induction false} ListStarts(list: seq<Struct>, c: nat, content: Content, k: nat)
    requires ClientList(list, c, content) && k < |list|
    ensures list[0].clock <= list[k].clock
  {
    if k > 0 {
      assert JoinsAt(list, k - 1) && EntryAt(list, c, content, k - 1);
      ListStarts(list, c, content, k - 1);
    }
  }

  lemma WaitsLeft(left: I.Leftovers, content: Content, sv: StateVector, id: ID)
    requires AllLists(left.structs, content) && Waits(AsPending(left), sv, id)
    ensures id.client in left.structs && Holds(left.structs[id.client], id) && !Held(sv, id)
  {
    WrittenUpdate(left.structs, left.structs.Keys, content);
  }

  /** What is left over waits for something watched, unless it is behind a gap that
      nothing else that is pending fills. */
  lemma LeftoverWatched(refs0: I.Refs, left: I.Leftovers, p: Pending, content: Content, sv: StateVector, id: ID)
    requires I.Outcome(refs0, sv, left) && AllLists(left.structs, content) && Closed(content, sv)
    requires Includes(p, AsPending(left)) && Unbroken(p, sv) && Waits(AsPending(left), sv, id)
    ensures WaitsWatched(p, content, sv, id)
  {
    hide I.Outcome, AllLists, Closed, Includes, Unbroken, Waits, Update, AsPending;
    WaitsLeft(left, content, sv, id);
    if State(sv, id.client) < id.clock {
      var d := ID(id.client, id.clock - 1);
      NextWatched(refs0, left, p, content, sv, id.client);
      assert Needs(content, id, d) && Watched(p, sv, d);
    } else {
      HeadIsNext(refs0, left, content, sv, id);
      HeadWatched(refs0, left, p, content, sv, id);
    }
  }

  // ----- Merging pending updates -----

  /** The smaller clock of each client. */
  function MinMissing(a: map<nat, nat>, b: map<nat, nat>): map<nat, nat> {
    map c | c in a.Keys + b.Keys ::
      if c in a && (c !in b || a[c] <= b[c]) then a[c] else b[c]
  }

  lemma MergedRetries(p: Pending, q: Pending, r: Pending, sv: StateVector)
    requires !Retries(p, sv) && !Retries(q, sv) && r.missing == MinMissing(p.missing, q.missing)
    ensures !Retries(r, sv)
  {
    forall c | c in r.missing ensures r.missing[c] >= State(sv, c) {
      if c in p.missing {
        NotPassed(p, sv, c);
      }
      if c in q.missing {
        NotPassed(q, sv, c);
      }
    }
  }

  // ----- A retry that is missed -----

  /** An update in which client 2's struct waits for clock 2 of client 1, and of client 1
      there is clock 5 only. */
  function GapUpdate(): I.Refs {
    map[1 := [Struct.Item(1, 5, 1, None, None, Given(Place(In(ID(0, 0)), None)), false)],
        2 := [Struct.Item(2, 0, 1, Some(ID(1, 2)), None, Copied, false)]]
  }

  /** The update with what client 2's struct waits for. */
  function GapFiller(): I.Refs {
    map[1 := [Struct.Item(1, 0, 3, None, None, Given(Place(In(ID(0, 0)), None)), false)]]
  }

  lemma TwoAscending()
    ensures I.Ascending({1, 2}) == [1, 2] && I.Ascending({1}) == [1]
  {
    assert I.Ascending({}) == [];
    assert I.Largest({1}) == 1 && {1} - {1} == {};
    assert I.Largest({1, 2}) == 2 && {1, 2} - {2} == {1};
  }

  /** The variables once both clients have been read. */
  function GapStack(): I.Machine {
    var item, late := GapUpdate()[2][0], GapUpdate()[1][0];
    I.Machine(I.Vars(GapUpdate(), map[1 := 1, 2 := 1], [1, 2], [item], map[], map[], map[2 := 0], map[0 := 1], []),
              Some(late), Some(2))
  }

  /** Client 2 is read first. */
  lemma GapStart()
    ensures I.Next(I.Start(GapUpdate(), map[0 := 1]), None) ==
            I.Machine(I.Vars(GapUpdate(), map[1 := 0, 2 := 1], [1, 2], [], map[], map[], map[], map[0 := 1], []),
                      Some(GapUpdate()[2][0]), Some(2))
  {
    GapVars();
    var v := I.Start(GapUpdate(), map[0 := 1]);
    assert I.Popped(v.ids, v.refs, v.read) == [1, 2];
    assert v.read[2 := 1] == map[1 := 0, 2 := 1];
  }

  lemma GapVars()
    ensures I.Start(GapUpdate(), map[0 := 1]) ==
            I.Vars(GapUpdate(), map[1 := 0, 2 := 0], [1, 2], [], map[], map[], map[], map[0 := 1], [])
  {
    TwoAscending();
    var refs := GapUpdate();
    assert refs.Keys == {1, 2};
    assert (map c | c in refs :: 0) == map[1 := 0, 2 := 0];
  }

  /** Its struct waits for client 1, which is read next. */
  lemma GapRead()
    ensures I.Steps(I.Next(I.Start(GapUpdate(), map[0 := 1]), None), 1) == GapStack()
  {
    GapStart();
    var m, item := I.Next(I.Start(GapUpdate(), map[0 := 1]), None), GapUpdate()[2][0];
    GapWait(m.v, item);
    assert I.Steps(m, 1) == I.Step(I.Steps(m, 0));
  }

  lemma GapWait(v: I.Vars, item: Struct)
    requires v == I.Vars(GapUpdate(), map[1 := 0, 2 := 1], [1, 2], [], map[], map[], map[], map[0 := 1], [])
    requires item == GapUpdate()[2][0]
    ensures I.Handled(v, item) == (GapStack().v, GapStack().head)
  {
    assert item.Deps() == [ID(1, 2)] && Missing(item, map[0 := 1]) == Some(1);
    var w := I.Looked(v, 2);
    assert w.stack + [item] == [item] && w.read[1 := 1] == map[1 := 1, 2 := 1];
    assert I.Read(w, [item], 1) == GapStack().v;
  }

  /** The variables while the stack is given up: `w` before, then without client 2, then without both. */
  function GapGiving(): I.Vars {
    I.Looked(GapStack().v, 1).(stack := [GapUpdate()[2][0], GapUpdate()[1][0]], missing := map[1 := 4])
  }

  function GapHalf(): I.Vars {
    GapGiving().(rest := map[2 := GapUpdate()[2]], refs := map[1 := GapUpdate()[1]], read := map[1 := 1], ids := [1])
  }

  function GapNone(): I.Vars {
    GapGiving().(rest := GapUpdate(), refs := map[], read := map[], ids := [])
  }

  lemma GapFirst()
    ensures I.GiveUpOne(GapGiving(), GapUpdate()[2][0]) == GapHalf()
  {
    var w := GapGiving();
    assert [1, 2][1..] == [2] && I.Without([1, 2], {2}) == [1];
    assert w.refs - {2} == map[1 := GapUpdate()[1]] && w.read - {2} == map[1 := 1];
    assert w.rest[2 := w.refs[2][0..]] == map[2 := GapUpdate()[2]];
  }

  lemma GapSecond()
    ensures I.GiveUpOne(GapHalf(), GapUpdate()[1][0]) == GapNone()
  {
    var w := GapHalf();
    assert I.Without([1], {1}) == [];
    assert w.refs - {1} == map[] && w.read - {1} == map[];
    assert w.rest[1 := w.refs[1][0..]] == GapUpdate();
  }

  lemma GapAll()
    ensures I.GiveUpAll(GapGiving(), GapGiving().stack) == GapNone()
  {
    var w, item, late := GapGiving(), GapUpdate()[2][0], GapUpdate()[1][0];
    GapFirst();
    GapSecond();
    assert [item, late][..1] == [item] && [item][..0] == [];
    assert I.GiveUpAll(w, [item]) == GapHalf();
  }

  /** Client 1's struct stands behind a gap: the stack is given up. */
  lemma GapGivenUp()
    ensures I.Handled(GapStack().v, GapUpdate()[1][0]) == (GapNone().(stack := []), None)
  {
    var v, item, late := I.Looked(GapStack().v, 1), GapUpdate()[2][0], GapUpdate()[1][0];
    GapAll();
    assert [item] + [late] == [item, late];
    assert v.state[1] == 0 && late.clock == 5;
    assert I.GaveUp(v, late, 1, 4) == GapNone().(stack := []);
  }

  /** Nothing is left to read. */
  lemma GapEnd()
    ensures I.Next(GapNone().(stack := []), Some(2)) == I.Machine(GapNone().(stack := []), None, None)
  {
  }

  lemma GapStep()
    ensures I.Step(GapStack()) == I.Machine(GapNone().(stack := []), None, None)
  {
    GapGivenUp();
    GapEnd();
  }

  lemma GapLast()
    ensures var v := GapNone().(stack := []); v.sv == map[0 := 1] && v.applied == []
    ensures I.LeftOf(GapNone().(stack := [])) == Some(I.Leftovers(GapUpdate(), map[1 := 4]))
  {
    assert 1 in GapUpdate();
  }

  /** Both structs of the update are left over; of client 1, clock 4 is recorded. */
  lemma GapLeft()
    ensures I.Computes(GapUpdate(), map[0 := 1], map[0 := 1], [], Some(I.Leftovers(GapUpdate(), map[1 := 4])))
  {
    GapRead();
    GapStep();
    GapLast();
    var m := I.Next(I.Start(GapUpdate(), map[0 := 1]), None);
    assert I.Steps(m, 2) == I.Step(I.Steps(m, 1));
    assert I.HaltsIn(GapUpdate(), map[0 := 1], 2, map[0 := 1], [], Some(I.Leftovers(GapUpdate(), map[1 := 4])));
  }

  lemma FillerVars()
    ensures I.Start(GapFiller(), map[0 := 1]) ==
      I.Vars(GapFiller(), map[1 := 0], [1], [], map[], map[], map[], map[0 := 1], [])
  {
    hide I.Ascending;
    TwoAscending();
    var refs := GapFiller();
    assert refs.Keys == {1};
    assert (map c | c in refs :: 0) == map[1 := 0];
  }

  /** The one struct is read. */
  function FillerRead(): I.Machine {
    I.Machine(I.Vars(GapFiller(), map[1 := 1], [1], [], map[], map[], map[], map[0 := 1], []), Some(GapFiller()[1][0]),
      Some(1))
  }

  lemma FillerStart()
    ensures I.Next(I.Start(GapFiller(), map[0 := 1]), None) == FillerRead()
  {
    FillerVars();
    FillerPicked();
    assert map[1 := 0][1 := 1] == map[1 := 1];
  }

  lemma FillerPicked()
    ensures var v := I.Vars(GapFiller(), map[1 := 0], [1], [], map[], map[], map[], map[0 := 1], []);
      I.Picked(v, None) == (v, Some(1))
  {
    assert I.Popped([1], GapFiller(), map[1 := 0]) == [1];
  }

  /** It is integrated. */
  function FillerDone(): I.Vars {
    I.Vars(GapFiller(), map[1 := 1], [1], [], map[], map[], map[1 := 3], map[0 := 1, 1 := 3], GapFiller()[1])
  }

  lemma FillerHandled()
    ensures I.Handled(FillerRead().v, GapFiller()[1][0]) == (FillerDone(), None)
  {
    var s, v := GapFiller()[1][0], FillerRead().v;
    assert s.Deps() == [ID(0, 0)] && Missing(s, v.sv).None?;
    FillerApplied(I.Looked(v, 1), s);
  }

  lemma FillerApplied(v: I.Vars, s: Struct)
    requires v == FillerRead().v.(state := map[1 := 0]) && s == GapFiller()[1][0]
    ensures I.Applied(v, s) == FillerDone()
  {
    assert v.sv[1 := 3] == map[0 := 1, 1 := 3] && v.state[1 := 3] == map[1 := 3];
    assert v.applied + [s] == GapFiller()[1];
  }

  lemma FillerNext()
    ensures I.Next(FillerDone(), Some(1)) == I.Machine(FillerDone().(ids := []), None, None)
  {
    var v := FillerDone();
    assert [1][..0] == [];
    assert I.Popped([1], v.refs, v.read) == I.Popped([], v.refs, v.read) == [];
  }

  /** Nothing is left over of what fills a part of the gap. */
  lemma GapFilled()
    ensures I.Computes(GapFiller(), map[0 := 1], map[0 := 1, 1 := 3], GapFiller()[1], None)
  {
    FillerStart();
    FillerHandled();
    FillerNext();
    var m := I.Next(I.Start(GapFiller(), map[0 := 1]), None);
    assert I.Steps(m, 1) == I.Step(I.Steps(m, 0));
    assert I.HaltsIn(GapFiller(), map[0 := 1], 1, map[0 := 1, 1 := 3], GapFiller()[1], None);
  }

  /** The arrival of clocks 0 to 2 of client 1 leaves nothing over and triggers nothing,
      although client 2's struct could be integrated now. */
  lemma MissedRetry()
    ensures I.Computes(GapUpdate(), map[0 := 1], map[0 := 1], [], Some(I.Leftovers(GapUpdate(), map[1 := 4])))
    ensures I.Computes(GapFiller(), map[0 := 1], map[0 := 1, 1 := 3], GapFiller()[1], None)
    ensures !Retries(AsPending(I.Leftovers(GapUpdate(), map[1 := 4])), map[0 := 1, 1 := 3])
    ensures I.Ready(GapUpdate()[2][0], map[0 := 1, 1 := 3])
  {
    GapLeft();
    GapFilled();
    NotTriggered(AsPending(I.Leftovers(GapUpdate(), map[1 := 4])));
    NowReady();
  }

  lemma NotTriggered(p: Pending)
    requires p.missing == map[1 := 4]
    ensures !Retries(p, map[0 := 1, 1 := 3])
  {
  }

  lemma NowReady()
    ensures I.Ready(GapUpdate()[2][0], map[0 := 1, 1 := 3])
  {
    assert GapUpdate()[2][0].Deps() == [ID(1, 2)];
  }
}
