/** Applying delete sets to structs. */
module ApplyDeletes {
  import opened Common
  import opened Yata
  import opened Blocks
  import opened Store
  import opened DeleteSets

  /** A deleted struct holds the clock. */
  predicate DeletedAt(bs: seq<Block>, k: nat) {
    exists i :: 0 <= i < |bs| && HoldsDeleted(bs[i], k)
  }

  predicate HoldsDeleted(b: Block, k: nat) {
    b.deleted && b.id.clock <= k < b.id.clock + b.len
  }

  lemma DeletedConcat(a: seq<Block>, b: seq<Block>, k: nat)
    ensures DeletedAt(a + b, k) <==> DeletedAt(a, k) || DeletedAt(b, k)
  {
    if i :| 0 <= i < |a| && HoldsDeleted(a[i], k) {
      assert HoldsDeleted((a + b)[i], k);
    }
    if i :| 0 <= i < |b| && HoldsDeleted(b[i], k) {
      assert HoldsDeleted((a + b)[|a| + i], k);
    }
    if i :| 0 <= i < |a + b| && HoldsDeleted((a + b)[i], k) {
      assert if i < |a| then HoldsDeleted(a[i], k) else HoldsDeleted(b[i - |a|], k);
    }
  }

  lemma DeletedReplaced(bs: seq<Block>, i: nat, m: seq<Block>, k: nat)
    requires i < |bs|
    ensures DeletedAt(bs[..i] + m + bs[i + 1..], k) <==>
      DeletedAt(bs[..i], k) || DeletedAt(m, k) || DeletedAt(bs[i + 1..], k)
    ensures DeletedAt(bs, k) <==> DeletedAt(bs[..i], k) || HoldsDeleted(bs[i], k) || DeletedAt(bs[i + 1..], k)
  {
    assert bs == bs[..i] + [bs[i]] + bs[i + 1..];
    DeletedConcat(bs[..i] + m, bs[i + 1..], k);
    DeletedConcat(bs[..i], m, k);
    DeletedConcat(bs[..i] + [bs[i]], bs[i + 1..], k);
    DeletedConcat(bs[..i], [bs[i]], k);
    assert DeletedAt([bs[i]], k) <==> HoldsDeleted([bs[i]][0], k);
  }

  lemma SplitDeleted(bs: seq<Block>, i: nat, diff: nat, k: nat)
    requires i < |bs| && 0 < diff < bs[i].len
    ensures DeletedAt(SplitAt(bs, i, diff), k) <==> DeletedAt(bs, k)
  {
    var l, r := LeftPart(bs[i], diff), RightPart(bs[i], diff);
    DeletedReplaced(bs, i, [l, r], k);
    assert DeletedAt([l, r], k) <==> HoldsDeleted([l, r][0], k) || HoldsDeleted([l, r][1], k);
  }

  /** Deleting a struct changes neither the units nor their order. */
  lemma DeleteKeeps(bs: seq<Block>, client: nat, i: nat)
    requires Partition(bs, client) && i < |bs|
    ensures Partition(Delete(bs, i), client) && StateOf(Delete(bs, i)) == StateOf(bs)
    ensures Flatten(Delete(bs, i)) == Flatten(bs)
  {
    var t := Delete(bs, i);
    forall j | 0 < j < |t| ensures FollowsAt(t, j) {
      assert FollowsAt(bs, j);
    }
    DeletedUnits(bs, i);
  }

  lemma DeleteDeletes(bs: seq<Block>, i: nat, k: nat)
    requires i < |bs|
    ensures DeletedAt(Delete(bs, i), k) <==> DeletedAt(bs, k) || bs[i].Covers(ID(bs[i].id.client, k))
  {
    var d := bs[i].(deleted := true);
    assert Delete(bs, i) == bs[..i] + [d] + bs[i + 1..];
    DeletedReplaced(bs, i, [d], k);
    assert DeletedAt([d], k) <==> HoldsDeleted([d][0], k);
  }

  // ----- One range -----

  /** Where the struct at `index` begins; the state when there is none. */
  function Start(bs: seq<Block>, index: nat): nat
    requires |bs| > 0 && index <= |bs|
  {
    if index < |bs| then bs[index].id.clock else StateOf(bs)
  }

  ghost predicate DeletedIs(bs0: seq<Block>, bs: seq<Block>, clock: nat, end: nat, k: nat) {
    DeletedAt(bs, k) <==> DeletedAt(bs0, k) || clock <= k < end
  }

  /** The same units in the same order. */
  ghost predicate SameUnitsIn(bs0: seq<Block>, bs: seq<Block>, client: nat) {
    Partition(bs0, client) && Partition(bs, client) && StateOf(bs) == StateOf(bs0) && Flatten(bs) == Flatten(bs0)
  }

  /** `bs` is `bs0` with the clocks from `clock` up to `end` deleted. */
  ghost predicate DeletedUpTo(bs0: seq<Block>, bs: seq<Block>, client: nat, clock: nat, end: nat) {
    SameUnitsIn(bs0, bs, client) && forall k: nat :: DeletedIs(bs0, bs, clock, end, k)
  }

  lemma SplitUpTo(bs0: seq<Block>, bs: seq<Block>, client: nat, clock: nat, end: nat, i: nat, diff: nat)
    requires DeletedUpTo(bs0, bs, client, clock, end) && i < |bs| && 0 < diff < bs[i].len
    ensures DeletedUpTo(bs0, SplitAt(bs, i, diff), client, clock, end)
  {
    SplitPartition(bs, client, i, diff);
    SplitKeeps(bs, i, diff);
    forall k: nat ensures DeletedIs(bs0, SplitAt(bs, i, diff), clock, end, k) {
      assert DeletedIs(bs0, bs, clock, end, k);
      SplitDeleted(bs, i, diff, k);
    }
  }

  /** The struct at `i` follows what was deleted, or is deleted itself. */
  lemma NextUpTo(bs0: seq<Block>, bs: seq<Block>, client: nat, clock: nat, end: nat, i: nat)
    requires i < |bs| && DeletedUpTo(bs0, bs, client, clock, Min(Start(bs, i), end))
    requires bs[i].deleted || (clock <= Start(bs, i) && Start(bs, i + 1) <= end)
    ensures DeletedUpTo(bs0, Delete(bs, i), client, clock, Min(Start(bs, i + 1), end))
    ensures Start(Delete(bs, i), i + 1) == Start(bs, i + 1)
  {
    DeleteKeeps(bs, client, i);
    StartNext(bs, client, i);
    StartNext(Delete(bs, i), client, i);
    var t, e := Delete(bs, i), Min(Start(bs, i + 1), end);
    forall k: nat ensures DeletedIs(bs0, t, clock, e, k) {
      assert DeletedIs(bs0, bs, clock, Min(Start(bs, i), end), k);
      DeleteDeletes(bs, i, k);
      assert bs[i].deleted && bs[i].Covers(ID(client, k)) ==> HoldsDeleted(bs[i], k);
    }
  }

  lemma StartNext(bs: seq<Block>, client: nat, i: nat)
    requires Partition(bs, client) && i < |bs|
    ensures Start(bs, i + 1) == bs[i].id.clock + bs[i].len <= StateOf(bs)
  {
    BelowState(bs, client, i);
    assert i + 1 < |bs| ==> FollowsAt(bs, i + 1);
  }

  // ----- Where structs are split -----

  predicate StartsAt(bs: seq<Block>, k: nat) {
    exists i :: 0 <= i < |bs| && BeginsAt(bs[i], k)
  }

  predicate BeginsAt(b: Block, k: nat) {
    b.id.clock == k
  }

  predicate CutIs(bs0: seq<Block>, bs: seq<Block>, cuts: set<nat>, k: nat) {
    StartsAt(bs, k) <==> StartsAt(bs0, k) || k in cuts
  }

  /** The structs of `bs` are those of `bs0`, split at the clocks of `cuts`. */
  ghost predicate Cut(bs0: seq<Block>, bs: seq<Block>, cuts: set<nat>) {
    forall k: nat :: CutIs(bs0, bs, cuts, k)
  }

  predicate Undeleted(bs: seq<Block>, k: nat)
    requires |bs| > 0
  {
    k < StateOf(bs) && !DeletedAt(bs, k)
  }

  /** Where a range splits the structs: at its ends, but nothing that is deleted already. */
  ghost function CutsOf(bs0: seq<Block>, ends: set<nat>): set<nat>
    requires |bs0| > 0
  {
    set k <- ends | Undeleted(bs0, k)
  }

  lemma SplitStarts(bs: seq<Block>, i: nat, diff: nat, k: nat)
    requires i < |bs| && 0 < diff < bs[i].len
    ensures StartsAt(SplitAt(bs, i, diff), k) <==> StartsAt(bs, k) || k == bs[i].id.clock + diff
  {
    var t := SplitAt(bs, i, diff);
    if j :| 0 <= j < |bs| && BeginsAt(bs[j], k) {
      assert BeginsAt(t[if j <= i then j else j + 1], k);
    }
    if k == bs[i].id.clock + diff {
      assert BeginsAt(t[i + 1], k);
    }
    if j :| 0 <= j < |t| && BeginsAt(t[j], k) {
      assert j != i + 1 ==> BeginsAt(bs[if j <= i then j else j - 1], k);
    }
  }

  lemma CutMore(bs0: seq<Block>, bs: seq<Block>, cuts: set<nat>, i: nat, diff: nat)
    requires Cut(bs0, bs, cuts) && i < |bs| && 0 < diff < bs[i].len
    ensures Cut(bs0, SplitAt(bs, i, diff), cuts + {bs[i].id.clock + diff})
  {
    var t, more := SplitAt(bs, i, diff), cuts + {bs[i].id.clock + diff};
    forall k: nat ensures CutIs(bs0, t, more, k) {
      assert CutIs(bs0, bs, cuts, k);
      SplitStarts(bs, i, diff, k);
    }
  }

  /** Whether a clock is deleted says the struct that holds it. */
  lemma DeletedHolder(bs: seq<Block>, client: nat, i: nat, k: nat)
    requires Partition(bs, client) && i < |bs| && bs[i].Covers(ID(client, k))
    ensures DeletedAt(bs, k) <==> bs[i].deleted
    ensures k < StateOf(bs)
  {
    BelowState(bs, client, i);
    assert bs[i].deleted ==> HoldsDeleted(bs[i], k);
    if j :| 0 <= j < |bs| && HoldsDeleted(bs[j], k) {
      if j < i {
        Store.Sorted(bs, client, j, i);
      } else if i < j {
        Store.Sorted(bs, client, i, j);
      }
    }
  }

  lemma CutAtEnd(bs0: seq<Block>, bs: seq<Block>, client: nat, clock: nat, end: nat, ends: set<nat>, i: nat)
    requires i < |bs| && |bs0| > 0 && Cut(bs0, bs, CutsOf(bs0, ends))
    requires DeletedUpTo(bs0, bs, client, clock, Min(Start(bs, i), end))
    requires !bs[i].deleted && bs[i].id.clock < end < bs[i].id.clock + bs[i].len
    ensures Cut(bs0, SplitAt(bs, i, end - bs[i].id.clock), CutsOf(bs0, ends + {end}))
  {
    CutMore(bs0, bs, CutsOf(bs0, ends), i, end - bs[i].id.clock);
    DeletedHolder(bs, client, i, end);
    assert DeletedIs(bs0, bs, clock, Min(Start(bs, i), end), end);
    assert CutsOf(bs0, ends + {end}) == CutsOf(bs0, ends) + {end};
  }

  /** A struct that reaches beyond the end of the range is split there, or was deleted before. */
  lemma BeyondEnd(bs0: seq<Block>, bs: seq<Block>, client: nat, clock: nat, end: nat, i: nat)
    requires i < |bs| && DeletedUpTo(bs0, bs, client, clock, Min(Start(bs, i), end)) && bs[i].id.clock < end
    requires bs[i].deleted || bs[i].id.clock + bs[i].len <= end
    ensures Start(bs, i + 1) <= end || DeletedAt(bs0, end)
  {
    StartNext(bs, client, i);
    if end < Start(bs, i + 1) {
      DeletedHolder(bs, client, i, end);
      assert DeletedIs(bs0, bs, clock, Min(Start(bs, i), end), end);
    }
  }

  /** Behind the last struct of the range both ends are split. */
  lemma CutAll(bs0: seq<Block>, bs: seq<Block>, client: nat, ends: set<nat>, end: nat, i: nat)
    requires SameUnitsIn(bs0, bs, client) && Cut(bs0, bs, CutsOf(bs0, ends)) && i <= |bs|
    requires i < |bs| ==> bs[i].id.clock >= end
    requires Start(bs, i) <= end || DeletedAt(bs0, end)
    ensures Cut(bs0, bs, CutsOf(bs0, ends + {end}))
  {
    var cuts := CutsOf(bs0, ends + {end});
    forall k: nat ensures CutIs(bs0, bs, cuts, k) {
      assert CutIs(bs0, bs, CutsOf(bs0, ends), k);
      if k == end && k < StateOf(bs0) && !DeletedAt(bs0, k) {
        assert BeginsAt(bs[i], k);
      }
    }
  }

  lemma NotYet(bs: seq<Block>, client: nat, clock: nat, end: nat)
    requires Partition(bs, client) && end <= clock
    ensures DeletedUpTo(bs, bs, client, clock, end)
  {
  }

  lemma NotCut(bs: seq<Block>, client: nat, clock: nat, i: nat)
    requires Partition(bs, client) && i < |bs| && bs[i].Covers(ID(client, clock))
    ensures Cut(bs, bs, CutsOf(bs, {}))
    ensures bs[i].deleted || bs[i].id.clock == clock ==> Cut(bs, bs, CutsOf(bs, {clock}))
  {
    DeletedHolder(bs, client, i, clock);
    if bs[i].id.clock == clock {
      assert BeginsAt(bs[i], clock);
    }
  }

  lemma DeleteStarts(bs0: seq<Block>, bs: seq<Block>, cuts: set<nat>, i: nat)
    requires Cut(bs0, bs, cuts) && i < |bs|
    ensures Cut(bs0, Delete(bs, i), cuts)
  {
    var t := Delete(bs, i);
    forall k: nat ensures CutIs(bs0, t, cuts, k) {
      assert CutIs(bs0, bs, cuts, k);
      if j :| 0 <= j < |bs| && BeginsAt(bs[j], k) {
        assert BeginsAt(t[j], k);
      }
      if j :| 0 <= j < |t| && BeginsAt(t[j], k) {
        assert BeginsAt(bs[j], k);
      }
    }
  }

  /** The struct with which the loop begins: the one that holds `clock`, without the part
      before it unless it is deleted already. */
  method FirstStruct(bs0: seq<Block>, client: nat, clock: nat) returns (bs: seq<Block>, index: nat)
    requires Partition(bs0, client) && clock < StateOf(bs0)
    ensures DeletedUpTo(bs0, bs, client, clock, clock) && index < |bs|
    ensures bs[index].Covers(ID(client, clock)) && (bs[index].deleted || bs[index].id.clock == clock)
    ensures Cut(bs0, bs, CutsOf(bs0, {clock}))
  {
    hide Cut, CutsOf, DeletedAt;
    bs := bs0;
    ghost var i := Store.Held(bs0, client, clock);
    FindsFirst(bs0, ID(client, clock), 0, i);
    index := FindBlock(bs, ID(client, clock));
    NotCut(bs0, client, clock, index);
    if !bs[index].deleted && bs[index].id.clock < clock {
      NotYet(bs0, client, clock, Min(Start(bs, index), clock));
      CutAtEnd(bs0, bs, client, clock, clock, {}, index);
      assert {} + {clock} == {clock};
      SplitUpTo(bs0, bs, client, clock, clock, index, clock - bs[index].id.clock);
      bs := SplitAt(bs, index, clock - bs[index].id.clock);
      index := index + 1;
    }
  }

  /** The loop of `readAndApplyDeleteSet` for one range: splits the structs at both ends of
      the range and deletes what lies between. */
  method DeleteRange(bs0: seq<Block>, client: nat, d: Range) returns (bs: seq<Block>)
    requires Partition(bs0, client) && d.clock < StateOf(bs0)
    ensures DeletedUpTo(bs0, bs, client, d.clock, Min(StateOf(bs0), d.End()))
    ensures Cut(bs0, bs, CutsOf(bs0, {d.clock, d.End()}))
  {
    hide Cut, CutsOf, Flatten, DeletedAt;
    var clock, clockEnd := d.clock, d.End();
    var index: nat;
    bs, index := FirstStruct(bs0, client, clock);
    ghost var ends := {clock};
    SameEmpty(bs0, bs, client, clock, clock, Min(Start(bs, index), clockEnd));
    while index < |bs|
      invariant SameUnitsIn(bs0, bs, client) && index <= |bs|
      invariant DeletedUpTo(bs0, bs, client, clock, Min(Start(bs, index), clockEnd))
      invariant index < |bs| ==>
        clock <= bs[index].id.clock || (bs[index].deleted && bs[index].Covers(ID(client, clock)))
      invariant clock in ends && ends <= {clock, clockEnd} && Cut(bs0, bs, CutsOf(bs0, ends))
      invariant Start(bs, index) <= clockEnd || DeletedAt(bs0, clockEnd)
      decreases StateOf(bs0) - Start(bs, index)
    {
      if bs[index].id.clock >= clockEnd {
        break;
      }
      StartNext(bs, client, index);
      if !bs[index].deleted {
        if clockEnd < bs[index].id.clock + bs[index].len {
          CutAtEnd(bs0, bs, client, clock, clockEnd, ends, index);
          ends := ends + {clockEnd};
          SplitUpTo(bs0, bs, client, clock, Min(Start(bs, index), clockEnd), index, clockEnd - bs[index].id.clock);
          bs := SplitAt(bs, index, clockEnd - bs[index].id.clock);
          StartNext(bs, client, index);
        }
      }
      BeyondEnd(bs0, bs, client, clock, clockEnd, index);
      NextUpTo(bs0, bs, client, clock, clockEnd, index);
      DeleteStarts(bs0, bs, CutsOf(bs0, ends), index);
      if !bs[index].deleted {
        bs := Delete(bs, index);
      } else {
        assert Delete(bs, index) == bs;
      }
      index := index + 1;
    }
    CutAll(bs0, bs, client, ends, clockEnd, index);
    assert ends + {clockEnd} == {clock, clockEnd};
    assert Min(Start(bs, index), clockEnd) == Min(StateOf(bs0), clockEnd) by {
      if index < |bs| { BelowState(bs, client, index); }
    }
  }

  lemma SameEmpty(bs0: seq<Block>, bs: seq<Block>, client: nat, clock: nat, end: nat, end': nat)
    requires DeletedUpTo(bs0, bs, client, clock, end) && end <= clock && end' <= clock
    ensures DeletedUpTo(bs0, bs, client, clock, end')
  {
    forall k: nat ensures DeletedIs(bs0, bs, clock, end', k) {
      assert DeletedIs(bs0, bs, clock, end, k);
    }
  }

  // ----- The ranges of one client -----

  /** The structs of a client, or none yet. */
  predicate Structs(bs: seq<Block>, client: nat) {
    bs == [] || Partition(bs, client)
  }

  /** `getState`. */
  function State(bs: seq<Block>): nat {
    if bs == [] then 0 else StateOf(bs)
  }

  /** The same units in the same order, those of the ranges deleted. */
  ghost predicate AppliedIs(bs0: seq<Block>, bs: seq<Block>, dels: seq<Range>, k: nat) {
    DeletedAt(bs, k) <==> DeletedAt(bs0, k) || (InRanges(dels, k) && k < State(bs0))
  }

  ghost predicate Applied(bs0: seq<Block>, bs: seq<Block>, client: nat, dels: seq<Range>) {
    && (if bs0 == [] then bs == [] else SameUnitsIn(bs0, bs, client))
    && forall k: nat :: AppliedIs(bs0, bs, dels, k)
  }

  predicate RestIs(rest: seq<Range>, dels: seq<Range>, state: nat, k: nat) {
    InRanges(rest, k) <==> InRanges(dels, k) && state <= k
  }

  /** What is left over: the clocks at or after the client's state. */
  ghost predicate Rest(rest: seq<Range>, dels: seq<Range>, state: nat) {
    forall k: nat :: RestIs(rest, dels, state, k)
  }

  lemma InOne(d: Range, k: nat)
    ensures InRanges([d], k) <==> d.Covers(k)
  {
    assert InRanges([d], k) <==> [d][0].Covers(k);
  }

  lemma RestNext(rest: seq<Range>, dels: seq<Range>, state: nat, d: Range, more: seq<Range>)
    requires Rest(rest, dels, state)
    requires forall k: nat :: RestIs(more, [d], state, k)
    ensures Rest(rest + more, dels + [d], state)
  {
    forall k: nat ensures RestIs(rest + more, dels + [d], state, k) {
      assert RestIs(rest, dels, state, k) && RestIs(more, [d], state, k);
      InRangesConcat(rest, more, k);
      InRangesConcat(dels, [d], k);
    }
  }

  lemma AppliedNext(bs0: seq<Block>, bs: seq<Block>, bs': seq<Block>, client: nat, dels: seq<Range>, d: Range)
    requires Applied(bs0, bs, client, dels) && Structs(bs0, client)
    requires if State(bs0) <= d.clock then bs' == bs
      else DeletedUpTo(bs, bs', client, d.clock, Min(State(bs0), d.End()))
    ensures Applied(bs0, bs', client, dels + [d])
  {
    forall k: nat ensures AppliedIs(bs0, bs', dels + [d], k) {
      assert AppliedIs(bs0, bs, dels, k);
      InRangesConcat(dels, [d], k);
      InOne(d, k);
      if d.clock < State(bs0) {
        assert DeletedIs(bs, bs', d.clock, Min(State(bs0), d.End()), k);
      }
    }
  }

  /** What one range leaves over. */
  function Unapplied(d: Range, state: nat): seq<Range> {
    if d.clock < state then if state < d.End() then [Range(state, d.End() - state)] else []
    else [d]
  }

  lemma UnappliedRest(d: Range, state: nat)
    ensures forall k: nat :: RestIs(Unapplied(d, state), [d], state, k)
  {
    forall k: nat ensures RestIs(Unapplied(d, state), [d], state, k) {
      InOne(d, k);
      InOne(Range(state, if state < d.End() then d.End() - state else 0), k);
    }
  }

  predicate NewlyDeleted(bs0: seq<Block>, dels: seq<Range>, k: nat)
    requires |bs0| > 0
  {
    Undeleted(bs0, k) && !InRanges(dels, k)
  }

  /** Where the first `n` ranges split the structs: each one at its ends, but nothing that was
      deleted before, by an earlier range neither. */
  ghost function CutsOver(bs0: seq<Block>, dels: seq<Range>, n: nat): set<nat>
    requires |bs0| > 0 && n <= |dels|
  {
    if n == 0 then {}
    else
      var d, before := dels[n - 1], dels[..n - 1];
      CutsOver(bs0, dels, n - 1) + set k <- {d.clock, d.End()} | NewlyDeleted(bs0, before, k)
  }

  ghost predicate CutsIn(bs0: seq<Block>, bs: seq<Block>, dels: seq<Range>, n: nat)
    requires n <= |dels|
  {
    bs0 != [] ==> Cut(bs0, bs, CutsOver(bs0, dels, n))
  }

  /** What one range splits. */
  lemma CutsNext(bs0: seq<Block>, bs: seq<Block>, bs': seq<Block>, client: nat, dels: seq<Range>, i: nat)
    requires i < |dels| && Structs(bs0, client)
    requires Applied(bs0, bs, client, dels[..i]) && CutsIn(bs0, bs, dels, i)
    requires if State(bs0) <= dels[i].clock then bs' == bs
      else |bs| > 0 && Cut(bs, bs', CutsOf(bs, {dels[i].clock, dels[i].End()}))
    ensures CutsIn(bs0, bs', dels, i + 1)
  {
    if bs0 != [] {
      var d := dels[i];
      var cuts, more := CutsOver(bs0, dels, i), CutsOver(bs0, dels, i + 1);
      forall k: nat ensures Undeleted(bs, k) <==> NewlyDeleted(bs0, dels[..i], k) {
        assert AppliedIs(bs0, bs, dels[..i], k);
      }
      forall k: nat ensures CutIs(bs0, bs', more, k) {
        assert CutIs(bs0, bs, cuts, k);
        assert k in more <==> k in cuts || ((k == d.clock || k == d.End()) && NewlyDeleted(bs0, dels[..i], k));
        assert bs' == bs || CutIs(bs, bs', CutsOf(bs, {d.clock, d.End()}), k);
      }
    }
  }

  /** `readAndApplyDeleteSet` for one client: deletes the named clocks that the store holds,
      and returns the others. */
  method ApplyToClient(bs0: seq<Block>, client: nat, dels: seq<Range>) returns (bs: seq<Block>, rest: seq<Range>)
    requires Structs(bs0, client)
    ensures Structs(bs, client) && Applied(bs0, bs, client, dels) && Rest(rest, dels, State(bs0))
    ensures CutsIn(bs0, bs, dels, |dels|)
  {
    bs, rest := bs0, [];
    var state := State(bs0);
    for i := 0 to |dels|
      invariant Structs(bs, client) && Applied(bs0, bs, client, dels[..i]) && Rest(rest, dels[..i], State(bs0))
      invariant CutsIn(bs0, bs, dels, i)
    {
      var clock, clockEnd := dels[i].clock, dels[i].End();
      ghost var bs1, rest1 := bs, rest;
      if clock < state {
        if state < clockEnd {
          rest := rest + [Range(state, clockEnd - state)];
        }
        bs := DeleteRange(bs, client, dels[i]);
      } else {
        rest := rest + [Range(clock, clockEnd - clock)];
      }
      assert dels[..i + 1] == dels[..i] + [dels[i]];
      assert rest == rest1 + Unapplied(dels[i], state);
      UnappliedRest(dels[i], state);
      RestNext(rest1, dels[..i], state, dels[i], Unapplied(dels[i], state));
      CutsNext(bs0, bs1, bs, client, dels, i);
      AppliedNext(bs0, bs1, bs, client, dels[..i], dels[i]);
    }
    assert dels[..|dels|] == dels;
  }

  // ----- Reading the delete set off the store -----

  /** `ranges` cover the deleted clocks of the first `n` structs; `end` is where they end. */
  ghost predicate ReadUpTo(bs: seq<Block>, n: nat, ranges: seq<Range>) {
    && n <= |bs| && Separated(ranges)
    && (forall k: nat :: InRanges(ranges, k) <==> DeletedAt(bs[..n], k))
    && (ranges != [] ==> n > 0 && ranges[|ranges| - 1].End() <= bs[n - 1].id.clock + bs[n - 1].len)
    && (forall r <- ranges :: r.len > 0)
  }

  /** A run of deleted structs. */
  ghost predicate Run(bs: seq<Block>, from: nat, n: nat, len: nat) {
    && from < n <= |bs| && bs[from].id.clock + len == bs[n - 1].id.clock + bs[n - 1].len
    && (forall j :: from <= j < n ==> bs[j].deleted)
  }

  lemma {:induction false} RunCovers(bs: seq<Block>, client: nat, from: nat, n: nat, len: nat, k: nat)
    requires Partition(bs, client) && Run(bs, from, n, len)
    ensures DeletedAt(bs[from..n], k) <==> bs[from].id.clock <= k < bs[from].id.clock + len
    decreases n
  {
    assert bs[from..n] == bs[from..n - 1] + [bs[n - 1]];
    DeletedConcat(bs[from..n - 1], [bs[n - 1]], k);
    assert DeletedAt([bs[n - 1]], k) <==> HoldsDeleted([bs[n - 1]][0], k);
    if n - 1 > from {
      assert FollowsAt(bs, n - 1);
      RunFrom(bs, client, from, n - 1);
      RunCovers(bs, client, from, n - 1, len - bs[n - 1].len, k);
    }
  }

  lemma RunFrom(bs: seq<Block>, client: nat, from: nat, n: nat)
    requires Partition(bs, client) && from < n <= |bs|
    ensures bs[from].id.clock < bs[n - 1].id.clock + bs[n - 1].len
  {
    if from < n - 1 {
      Store.Sorted(bs, client, from, n - 1);
    }
  }

  /** After the run comes a struct that is not deleted. */
  lemma AddRun(bs: seq<Block>, client: nat, ranges: seq<Range>, from: nat, n: nat, len: nat)
    requires Partition(bs, client) && ReadUpTo(bs, from, ranges) && Run(bs, from, n, len)
    requires from > 0 ==> !bs[from - 1].deleted
    ensures ReadUpTo(bs, n, ranges + [Range(bs[from].id.clock, len)])
  {
    var d := Range(bs[from].id.clock, len);
    RunFrom(bs, client, from, n);
    if ranges != [] {
      GapBefore(bs, client, ranges, from);
      AppendedSeparated(ranges, d);
    }
    forall k: nat ensures InRanges(ranges + [d], k) <==> DeletedAt(bs[..n], k) {
      InRangesConcat(ranges, [d], k);
      InOne(d, k);
      RunCovers(bs, client, from, n, len, k);
      assert bs[..n] == bs[..from] + bs[from..n];
      DeletedConcat(bs[..from], bs[from..n], k);
    }
  }

  /** The ranges before a run end before the clock in front of it. */
  lemma GapBefore(bs: seq<Block>, client: nat, ranges: seq<Range>, from: nat)
    requires Partition(bs, client) && ReadUpTo(bs, from, ranges) && 0 < from < |bs| && !bs[from - 1].deleted
    requires ranges != []
    ensures ranges[|ranges| - 1].End() < bs[from].id.clock
  {
    var d := ranges[|ranges| - 1];
    assert FollowsAt(bs, from);
    if d.End() == bs[from].id.clock {
      var k := d.End() - 1;
      assert d.len > 0 && d.Covers(k) && InRanges(ranges, k);
      var i :| 0 <= i < from && HoldsDeleted(bs[..from][i], k);
      if i < from - 1 {
        Store.Sorted(bs, client, i, from - 1);
      }
    }
  }

  lemma PassStruct(bs: seq<Block>, client: nat, ranges: seq<Range>, i: nat)
    requires Partition(bs, client) && ReadUpTo(bs, i, ranges) && i < |bs| && !bs[i].deleted
    ensures ReadUpTo(bs, i + 1, ranges)
  {
    if i > 0 { Store.Sorted(bs, client, i - 1, i); }
    forall k: nat ensures InRanges(ranges, k) <==> DeletedAt(bs[..i + 1], k) {
      assert bs[..i + 1] == bs[..i] + [bs[i]];
      DeletedConcat(bs[..i], [bs[i]], k);
      assert DeletedAt([bs[i]], k) <==> HoldsDeleted([bs[i]][0], k);
    }
  }

  /** `createDeleteSetFromStructStore` for one client: the deleted clocks, in normal form. */
  method DeletedRanges(structs: seq<Block>, client: nat) returns (dsitems: seq<Range>)
    requires Partition(structs, client)
    ensures Separated(dsitems) && forall k: nat :: InRanges(dsitems, k) <==> DeletedAt(structs, k)
  {
    dsitems := [];
    var i: nat := 0;
    while i < |structs|
      invariant 0 <= i <= |structs| && ReadUpTo(structs, i, dsitems)
      invariant 0 < i < |structs| && structs[i].deleted ==> !structs[i - 1].deleted
    {
      if structs[i].deleted {
        var from: nat := i;
        var len: nat := structs[i].len;
        while i + 1 < |structs| && structs[i + 1].deleted
          invariant from <= i < |structs| && Run(structs, from, i + 1, len)
        {
          assert FollowsAt(structs, i + 1);
          len := len + structs[i + 1].len;
          i := i + 1;
        }
        AddRun(structs, client, dsitems, from, i + 1, len);
        dsitems := dsitems + [Range(structs[from].id.clock, len)];
      } else {
        PassStruct(structs, client, dsitems, i);
      }
      i := i + 1;
    }
    assert structs[..i] == structs;
  }

  /** The structs of every client. */
  type Clients = map<nat, seq<Block>>

  predicate Stored(clients: Clients) {
    forall c <- clients :: Partition(clients[c], c)
  }

  predicate Deleted(clients: Clients, id: ID) {
    id.client in clients && DeletedAt(clients[id.client], id.clock)
  }

  /** `createDeleteSetFromStructStore`: exactly the deleted ids, in normal form. */
  method CreateDeleteSet(clients: Clients) returns (ds: DeleteSet)
    requires Stored(clients)
    ensures Inhabited(ds) && (forall c <- ds :: Separated(ds[c]))
    ensures forall id :: Names(ds, id) <==> Deleted(clients, id)
  {
    ds := map[];
    var todo := clients.Keys;
    while todo != {}
      invariant todo <= clients.Keys && ds.Keys <= clients.Keys - todo
      invariant Inhabited(ds) && forall c <- ds :: Separated(ds[c])
      invariant forall c <- clients.Keys - todo, k: nat :: Names(ds, ID(c, k)) <==> DeletedAt(clients[c], k)
    {
      var c :| c in todo;
      var dsitems := DeletedRanges(clients[c], c);
      if |dsitems| > 0 {
        ds := ds[c := dsitems];
      }
      todo := todo - {c};
    }
  }
}
