/** What became of the updates read. */
module StoreLog {
  import opened Common
  import opened Yata
  import opened Structs
  import opened MergeUpdates
  import opened Updates
  import opened Retry
  import opened DeleteSets
  import opened Document
  import opened Deletion
  import A = ApplyDeletes
  import I = IntegrateStructs

  // ----- The log of all calls of `integrate` -----

  lemma LogSnoc(sv: StateVector, log: seq<Struct>, s: Struct)
    ensures I.Replay(sv, log + [s]) == I.Replay(sv, log)[s.client := s.End()]
    ensures I.Legal(sv, log + [s]) <==> I.Legal(sv, log) && I.Ready(s, I.Replay(sv, log))
  {
    assert (log + [s])[..|log|] == log;
  }

  lemma {:induction false} LogGrows(sv: StateVector, log: seq<Struct>, applied: seq<Struct>)
    requires I.Legal(sv, log) && I.Legal(I.Replay(sv, log), applied)
    ensures I.Legal(sv, log + applied) && I.Replay(sv, log + applied) == I.Replay(I.Replay(sv, log), applied)
  {
    if applied == [] {
      assert log + applied == log;
    } else {
      var n := |applied| - 1;
      var first, last := applied[..n], applied[n];
      assert applied == first + [last];
      LogGrows(sv, log, first);
      LogGrowsBy(sv, log, first, last);
    }
  }

  lemma LogGrowsBy(sv: StateVector, log: seq<Struct>, first: seq<Struct>, last: Struct)
    requires I.Legal(sv, log + first) && I.Replay(sv, log + first) == I.Replay(I.Replay(sv, log), first)
    requires I.Legal(I.Replay(sv, log), first + [last])
    ensures I.Legal(sv, log + (first + [last]))
    ensures I.Replay(sv, log + (first + [last])) == I.Replay(I.Replay(sv, log), first + [last])
  {
    LogSnoc(I.Replay(sv, log), first, last);
    LogSnoc(sv, log + first, last);
    Associative(log, first, [last]);
  }

  lemma {:induction false} ReplayGrows(sv: StateVector, applied: seq<Struct>)
    requires I.Legal(sv, applied)
    ensures Grows(sv, I.Replay(sv, applied))
  {
    if applied != [] {
      ReplayGrows(sv, applied[..|applied| - 1]);
    }
  }

  /** The store is causally closed: what it holds came with a struct, and all that this
      struct refers to is in the store. */
  lemma {:induction false} LogClosed(sv: StateVector, log: seq<Struct>, content: Content, time: Time, id: ID)
    returns (i: nat)
    requires I.Legal(sv, log) && Causal(content, time) && (forall s <- log :: From(s, content))
    requires Held(I.Replay(sv, log), id) && !Held(sv, id)
    ensures i < |log| && !log[i].Skip? && log[i].Covers(id) && forall d <- log[i].Deps() :: Held(I.Replay(sv, log), d)
  {
    var n := |log| - 1;
    var before := I.Replay(sv, log[..n]);
    if Held(before, id) {
      i := LogClosed(sv, log[..n], content, time, id);
    } else {
      i := n;
      FromAcyclic(log[n], content, time);
      forall d | d in log[n].Deps() ensures Held(I.Replay(sv, log), d) {
        if d.client == log[n].client && log[n].clock <= d.clock {
          assert AscendsAt(time, d.client, log[n].clock, d.clock);
        }
      }
    }
  }

  /** A unit of a struct refers to the unit before it, or to what the struct refers to. */
  lemma UnitRefersTo(s: Struct, id: ID, d: ID)
    requires !s.Skip? && s.Covers(id) && d in UnitDeps(UnitOf(s, id))
    ensures d in s.Deps() || (id.clock > 0 && d == ID(id.client, id.clock - 1))
  {
  }

  /** What a unit refers to is in the store when it comes next. */
  lemma UnitDepsHeld(s: Struct, id: ID, content: Content, sv: StateVector, now: StateVector)
    requires !s.Skip? && s.Covers(id) && UpToNow(sv, now, id.client, id.clock) && forall d <- s.Deps() :: Held(sv, d)
    requires From(s, content)
    ensures content(id, UnitOf(s, id)) && State(now, id.client) == id.clock
    ensures forall d <- UnitDeps(UnitOf(s, id)) :: Held(now, d)
  {
    forall d | d in UnitDeps(UnitOf(s, id)) ensures Held(now, d) {
      UnitRefersTo(s, id, d);
    }
  }

  /** A unit of the store has everything that it needs in the store. */
  lemma HeldReached(log: seq<Struct>, content: Content, time: Time, id: ID)
    requires I.Legal(map[], log) && Causal(content, time) && Functional(content)
    requires (forall s <- log :: From(s, content))
    requires Held(I.Replay(map[], log), id)
    ensures Reached(content, I.Replay(map[], log), id)
  {
    var sv := I.Replay(map[], log);
    var i := LogClosed(map[], log, content, time, id);
    assert From(log[i], content) && content(id, UnitOf(log[i], id));
    forall d | Needs(content, id, d) ensures Held(sv, d) {
      if !(id.clock > 0 && d == ID(id.client, id.clock - 1)) {
        var u :| content(id, u) && d in UnitDeps(u);
        UnitRefersTo(log[i], id, d);
      }
    }
  }

  lemma {:induction false} LegalAt(sv: StateVector, applied: seq<Struct>, i: nat)
    requires I.Legal(sv, applied) && i < |applied|
    ensures I.Legal(sv, applied[..i]) && I.Ready(applied[i], I.Replay(sv, applied[..i]))
    decreases |applied|
  {
    var n := |applied| - 1;
    if i < n {
      LegalAt(sv, applied[..n], i);
      assert applied[..n][..i] == applied[..i];
    }
  }

  lemma ReplayNext(sv: StateVector, applied: seq<Struct>, i: nat)
    requires i < |applied|
    ensures I.Replay(sv, applied[..i + 1]) == I.Replay(sv, applied[..i])[applied[i].client := applied[i].End()]
  {
    assert applied[..i + 1][..i] == applied[..i];
  }

  /** What a struct refers to is in the store when it is integrated. */
  lemma ReadyDeps(sv: StateVector, s: Struct, content: Content, time: Time)
    requires I.Ready(s, sv) && From(s, content) && Causal(content, time)
    ensures forall d <- s.Deps() :: Held(sv, d)
  {
    FromAcyclic(s, content, time);
    forall d | d in s.Deps() ensures Held(sv, d) {
      assert d.client == s.client && s.clock < d.clock ==> AscendsAt(time, d.client, s.clock, d.clock);
    }
  }

  // ----- What the structs of an update come to -----

  lemma GroupedFine(structs: seq<Struct>, content: Content, time: Time)
    requires Update(structs, content) && Causal(content, time)
    ensures I.WellFormed(Grouped(structs), time) && AllLists(Grouped(structs), content)
  {
    var refs := Grouped(structs);
    forall c | c in refs ensures ClientList(refs[c], c, content) {
      ByClientList(structs, content, c);
    }
    forall c, k | c in refs && 0 <= k < |refs[c]| ensures I.OkAt(refs, time, c, k) {
      assert EntryAt(refs[c], c, content, k);
      FromAcyclic(refs[c][k], content, time);
    }
  }

  /** The leftovers of a client are the end of its list. */
  lemma LeftSuffix(refs: I.Refs, sv: StateVector, left: I.Leftovers, c: nat) returns (n: nat)
    requires I.Outcome(refs, sv, left) && c in left.structs
    ensures c in refs && n <= |refs[c]| && left.structs[c] == refs[c][n..]
    ensures forall k :: 0 <= k < n ==> I.Done(refs[c][k], sv)
  {
    assert I.LeftoverAt(refs, left, sv, c);
    n := |refs[c]| - |left.structs[c]|;
  }

  lemma SuffixList(list: seq<Struct>, n: nat, c: nat, content: Content)
    requires ClientList(list, c, content) && n <= |list|
    ensures ClientList(list[n..], c, content)
  {
    forall i | 0 <= i < |list[n..]| ensures EntryAt(list[n..], c, content, i) {
      assert EntryAt(list, c, content, n + i);
    }
    forall i | 0 <= i < |list[n..]| - 1 ensures JoinsAt(list[n..], i) {
      assert JoinsAt(list, n + i);
    }
  }

  lemma LeftoverLists(refs: I.Refs, sv: StateVector, left: I.Leftovers, content: Content)
    requires I.Outcome(refs, sv, left) && AllLists(refs, content)
    ensures AllLists(left.structs, content)
  {
    forall c | c in left.structs ensures ClientList(left.structs[c], c, content) {
      var n := LeftSuffix(refs, sv, left, c);
      SuffixList(refs[c], n, c, content);
    }
  }

  /** The ids of the pending update are those of the leftovers. */
  lemma LeftIds(left: I.Leftovers, content: Content, id: ID)
    requires AllLists(left.structs, content)
    ensures Holds(AsPending(left).update, id) <==> id.client in left.structs && Holds(left.structs[id.client], id)
  {
    WrittenUpdate(left.structs, left.structs.Keys, content);
  }

  /** What an update holds is in the store or left over. */
  lemma NothingLost(structs: seq<Struct>, sv: StateVector, left: I.Leftovers, content: Content, id: ID)
    requires I.Outcome(Grouped(structs), sv, left) && AllLists(left.structs, content)
    requires Holds(structs, id)
    ensures Held(sv, id) || Holds(AsPending(left).update, id)
  {
    var i :| 0 <= i < |structs| && MergeUpdates.Has(structs[i], id);
    assert structs[i] in structs;
    ListSettled(Grouped(structs), sv, left, structs[i], id);
    LeftIds(left, content, id);
  }

  lemma ListSettled(refs: I.Refs, sv: StateVector, left: I.Leftovers, s: Struct, id: ID)
    requires I.Outcome(refs, sv, left) && id.client in refs && s in refs[id.client] && MergeUpdates.Has(s, id)
    ensures Held(sv, id) || (id.client in left.structs && Holds(left.structs[id.client], id))
  {
    var c := id.client;
    var k :| 0 <= k < |refs[c]| && refs[c][k] == s;
    if c in left.structs {
      var n := LeftSuffix(refs, sv, left, c);
      if k >= n {
        assert left.structs[c][k - n] == s;
      }
    } else {
      assert I.SettledAt(refs, sv, c, k);
    }
  }

  /** Nothing is left over that the update does not hold. */
  lemma LeftFromUpdate(structs: seq<Struct>, sv: StateVector, left: I.Leftovers, content: Content, id: ID)
    requires I.Outcome(Grouped(structs), sv, left) && AllLists(left.structs, content)
    requires Holds(AsPending(left).update, id)
    ensures Holds(structs, id)
  {
    LeftIds(left, content, id);
    var s := LeftListed(Grouped(structs), sv, left, id);
    InGroup(structs, s, id);
  }

  lemma LeftListed(refs: I.Refs, sv: StateVector, left: I.Leftovers, id: ID) returns (s: Struct)
    requires I.Outcome(refs, sv, left) && id.client in left.structs && Holds(left.structs[id.client], id)
    ensures id.client in refs && s in refs[id.client] && MergeUpdates.Has(s, id)
  {
    var k :| 0 <= k < |left.structs[id.client]| && MergeUpdates.Has(left.structs[id.client][k], id);
    var n := LeftSuffix(refs, sv, left, id.client);
    s := left.structs[id.client][k];
  }

  lemma InGroup(structs: seq<Struct>, s: Struct, id: ID)
    requires id.client in Grouped(structs) && s in Grouped(structs)[id.client] && MergeUpdates.Has(s, id)
    ensures Holds(structs, id)
  {
    assert s in structs;
    var i :| 0 <= i < |structs| && structs[i] == s;
  }

  lemma ListedFrom(refs: I.Refs, applied: seq<Struct>, content: Content)
    requires I.AllListed(refs, applied) && AllLists(refs, content)
    ensures forall s <- applied :: From(s, content)
  {
    forall s | s in applied ensures From(s, content) {
      var i :| 0 <= i < |applied| && applied[i] == s;
      assert I.ListedAt(refs, applied, i) && ClientList(refs[s.client], s.client, content);
      var k :| 0 <= k < |refs[s.client]| && refs[s.client][k] == s;
      assert EntryAt(refs[s.client], s.client, content, k);
    }
  }

  /** Nothing gets into the store that the update does not hold. */
  lemma NewFromUpdate(structs: seq<Struct>, sv: StateVector, applied: seq<Struct>, content: Content, time: Time, id: ID)
    requires I.Legal(sv, applied) && I.AllListed(Grouped(structs), applied)
    requires AllLists(Grouped(structs), content) && Causal(content, time)
    requires Held(I.Replay(sv, applied), id) && !Held(sv, id)
    ensures Holds(structs, id)
  {
    ListedFrom(Grouped(structs), applied, content);
    var i := LogClosed(sv, applied, content, time, id);
    assert I.ListedAt(Grouped(structs), applied, i);
    InGroup(structs, applied[i], id);
  }

  // ----- What a step keeps -----

  predicate InPending(p: Option<Pending>, id: ID) {
    p.Some? && Holds(p.value.update, id)
  }

  /** Every unit that the store held, that was pending, or that arrives is in the store or
      pending, and no other unit is. */
  ghost predicate KeptAt(sv: StateVector, p: Option<Pending>, structs: seq<Struct>, sv': StateVector,
                         p': Option<Pending>, id: ID) {
    Held(sv', id) || InPending(p', id) <==> Held(sv, id) || InPending(p, id) || Holds(structs, id)
  }

  ghost predicate Kept(sv: StateVector, p: Option<Pending>, structs: seq<Struct>, sv': StateVector,
                       p': Option<Pending>) {
    Grows(sv, sv') && forall id :: KeptAt(sv, p, structs, sv', p', id)
  }

  lemma MergedKept(sv: StateVector, p: Pending, structs: seq<Struct>, sv': StateVector, left: Option<Pending>,
                   r: Pending)
    requires Kept(sv, None, structs, sv', left)
    requires if left.None? then r == p
      else forall id :: Holds(r.update, id) <==> Holds(p.update, id) || Holds(left.value.update, id)
    ensures Kept(sv, Some(p), structs, sv', Some(r))
  {
    forall id ensures KeptAt(sv, Some(p), structs, sv', Some(r), id) {
      assert KeptAt(sv, None, structs, sv', left, id);
    }
  }

  lemma KeptTwice(sv: StateVector, p: Option<Pending>, structs: seq<Struct>, sv1: StateVector, p1: Option<Pending>,
                  update: seq<Struct>, sv2: StateVector, p2: Option<Pending>)
    requires Kept(sv, p, structs, sv1, p1) && p1.Some? && p1.value.update == update
    requires Kept(sv1, None, update, sv2, p2)
    ensures Kept(sv, p, structs, sv2, p2)
  {
    forall id ensures KeptAt(sv, p, structs, sv2, p2, id) {
      assert KeptAt(sv, p, structs, sv1, p1, id) && KeptAt(sv1, None, update, sv2, p2, id);
    }
  }

  // ----- Pending structs -----

  /** The log of all calls of `integrate` accounts for the store. */
  ghost predicate Logged(clients: A.Clients, log: seq<Struct>, content: Content, time: Time) {
    && Causal(content, time) && A.Stored(clients)
    && I.Legal(map[], log) && I.Replay(map[], log) == Vector(clients) && forall s <- log :: From(s, content)
  }

  /** Nothing pending is exposed: no retry can be missed. */
  ghost predicate QuietOf(p: Option<Pending>, content: Content, time: Time, sv: StateVector) {
    p.Some? ==> NoneExposed(p.value, content, time, sv)
  }

  function LeftPending(left: Option<I.Leftovers>): Option<Pending> {
    if left.Some? then Some(AsPending(left.value)) else None
  }

  function LeftOrNone(left: Option<I.Leftovers>): I.Leftovers {
    if left.Some? then left.value else I.Leftovers(map[], map[])
  }

  lemma IntegratedKept(structs: seq<Struct>, sv: StateVector, applied: seq<Struct>, left: Option<I.Leftovers>,
                       content: Content, time: Time)
    requires Update(structs, content) && Causal(content, time)
    requires I.Legal(sv, applied) && I.AllListed(Grouped(structs), applied)
    requires I.Outcome(Grouped(structs), I.Replay(sv, applied), LeftOrNone(left))
    ensures Kept(sv, None, structs, I.Replay(sv, applied), LeftPending(left))
  {
    var sv', l := I.Replay(sv, applied), LeftOrNone(left);
    GroupedFine(structs, content, time);
    LeftoverLists(Grouped(structs), sv', l, content);
    ReplayGrows(sv, applied);
    forall id ensures KeptAt(sv, None, structs, sv', LeftPending(left), id) {
      LeftIds(l, content, id);
      if Holds(structs, id) {
        NothingLost(structs, sv', l, content, id);
      }
      if Holds(AsPending(l).update, id) {
        LeftFromUpdate(structs, sv', l, content, id);
      }
      if Held(sv', id) && !Held(sv, id) {
        NewFromUpdate(structs, sv, applied, content, time, id);
      }
    }
  }

  lemma StoreClosed(clients: A.Clients, log: seq<Struct>, content: Content, time: Time)
    requires Logged(clients, log, content, time) && Functional(content)
    ensures Closed(content, Vector(clients))
  {
    forall id | Held(Vector(clients), id) ensures Reached(content, Vector(clients), id) {
      HeldReached(log, content, time, id);
    }
  }

  /** What pends together with new leftovers: nothing of it is exposed, unless it was before
      or a client's pending units begin behind a gap. */
  lemma MergedQuiet(p: Option<Pending>, structs: seq<Struct>, left: I.Leftovers, r: Pending, content: Content,
                    time: Time, sv: StateVector)
    requires Causal(content, time) && Closed(content, sv) && Update(structs, content)
    requires I.Outcome(Grouped(structs), sv, left) && QuietOf(p, content, time, sv)
    requires Includes(r, AsPending(left)) && (p.Some? ==> Includes(r, p.value)) && Unbroken(r, sv)
    requires forall id :: Holds(r.update, id) ==>
      Holds(AsPending(left).update, id) || (p.Some? && Holds(p.value.update, id))
    ensures NoneExposed(r, content, time, sv)
  {
    GroupedFine(structs, content, time);
    LeftoverLists(Grouped(structs), sv, left, content);
    var q := if p.Some? then p.value else Pending([], map[]);
    assert NoneExposed(q, content, time, sv);
    forall id | Waits(r, sv, id) ensures Waits(q, sv, id) || WaitsWatched(r, content, sv, id) {
      if Waits(AsPending(left), sv, id) {
        LeftoverWatched(Grouped(structs), left, r, content, sv, id);
      }
    }
    MergedUnexposed(q, r, content, time, sv);
  }

  lemma LeftUpdate(structs: seq<Struct>, sv: StateVector, left: Option<I.Leftovers>, content: Content, time: Time)
    requires Update(structs, content) && Causal(content, time)
    requires I.Outcome(Grouped(structs), sv, LeftOrNone(left))
    ensures LeftPending(left).Some? ==> Update(LeftPending(left).value.update, content)
  {
    GroupedFine(structs, content, time);
    LeftoverLists(Grouped(structs), sv, LeftOrNone(left), content);
    WrittenUpdate(LeftOrNone(left).structs, LeftOrNone(left).structs.Keys, content);
  }

  /** The pending structs were tried again, since the store passed a recorded clock. */
  ghost predicate RetriedBy(p: Option<Pending>, sv: StateVector) {
    p.Some? && Retries(p.value, sv)
  }

  lemma StorePossible(clients: A.Clients, log: seq<Struct>, content: Content, time: Time, sv0: StateVector)
    requires Logged(clients, log, content, time) && Closed(content, Vector(clients)) && Grows(sv0, Vector(clients))
    ensures Possible(content, sv0, Vector(clients))
  {
    forall id | Held(Vector(clients), id) ensures Known(content, id) {
      var i := LogClosed(map[], log, content, time, id);
      assert From(log[i], content) && content(id, UnitOf(log[i], id));
    }
  }

  /** Where nothing was exposed and no retry is due, nothing is exposed. */
  lemma StillQuiet(clients: A.Clients, log: seq<Struct>, content: Content, time: Time, structs: seq<Struct>,
                   sv0: StateVector, p0: Option<Pending>, rest: Option<I.Leftovers>, p: Option<Pending>)
    requires Logged(clients, log, content, time) && Functional(content) && Update(structs, content)
    requires Closed(content, sv0) && Grows(sv0, Vector(clients)) && QuietOf(p0, content, time, sv0)
    requires I.Outcome(Grouped(structs), Vector(clients), LeftOrNone(rest))
    requires p0.Some? ==> Update(p0.value.update, content) && !Retries(p0.value, Vector(clients))
    requires p.Some? ==> Unbroken(p.value, Vector(clients))
    requires if p0.None? then p == LeftPending(rest) else if rest.None? then p == p0 else
      p.Some? && p.value.missing == MinMissing(p0.value.missing, LeftPending(rest).value.missing)
      && forall id :: Holds(p.value.update, id) <==>
           Holds(p0.value.update, id) || Holds(LeftPending(rest).value.update, id)
    ensures QuietOf(p, content, time, Vector(clients))
  {
    var sv := Vector(clients);
    StoreClosed(clients, log, content, time);
    if p0.Some? {
      StorePossible(clients, log, content, time, sv0);
      StaysUnexposed(p0.value, content, time, sv0, sv);
    }
    if rest.Some? {
      MergedQuiet(p0, structs, rest.value, p.value, content, time, sv);
    }
  }
}
