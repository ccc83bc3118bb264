/** The structs of one client. */
module Store {
  // They are sorted by clock.

  import opened Common
  import opened Yata
  import opened Blocks

  predicate FollowsAt(bs: seq<Block>, i: nat)
    requires 0 < i < |bs|
  {
    bs[i].id.clock == bs[i - 1].id.clock + bs[i - 1].len
  }

  /** A gap-free partition of the clocks from 0 up to the client's state. */
  predicate Partition(bs: seq<Block>, client: nat) {
    && |bs| > 0 && bs[0].id.clock == 0
    && (forall i :: 0 <= i < |bs| ==> bs[i].id.client == client && bs[i].len > 0)
    && (forall i :: 0 < i < |bs| ==> FollowsAt(bs, i))
  }

  /** `getState`: the first clock that the store does not hold. */
  function StateOf(bs: seq<Block>): nat
    requires |bs| > 0
  {
    bs[|bs| - 1].id.clock + bs[|bs| - 1].len
  }

  lemma {:induction false} Sorted(bs: seq<Block>, client: nat, i: nat, j: nat)
    requires Partition(bs, client) && i < j < |bs|
    ensures bs[i].id.clock + bs[i].len <= bs[j].id.clock
    decreases j
  {
    assert FollowsAt(bs, j);
    if i < j - 1 {
      Sorted(bs, client, i, j - 1);
    }
  }

  /** Where the structs before `k` end at or before a clock, the next begins at or before it. */
  lemma NextReached(bs: seq<Block>, client: nat, clock: nat, k: nat)
    requires Partition(bs, client) && k <= |bs| && clock < StateOf(bs)
    requires forall i :: 0 <= i < k ==> bs[i].id.clock + bs[i].len <= clock
    ensures k < |bs| && bs[k].id.clock <= clock
  {
    if k > 0 {
      assert bs[k - 1].id.clock + bs[k - 1].len <= clock;
      assert k < |bs| ==> FollowsAt(bs, k);
    }
  }

  /** Every clock below the state is in exactly one struct. */
  lemma {:induction false} Held(bs: seq<Block>, client: nat, clock: nat) returns (i: nat)
    requires Partition(bs, client) && clock < StateOf(bs)
    ensures i < |bs| && bs[i].Covers(ID(client, clock))
    ensures forall j :: 0 <= j < |bs| && bs[j].Covers(ID(client, clock)) ==> j == i
    decreases |bs|
  {
    i := |bs| - 1;
    while clock < bs[i].id.clock
      invariant i < |bs| && clock < bs[i].id.clock + bs[i].len
    {
      assert FollowsAt(bs, i);
      i := i - 1;
    }
    forall j | 0 <= j < |bs| && j != i ensures !bs[j].Covers(ID(client, clock)) {
      if i < j { Sorted(bs, client, i, j); } else { Sorted(bs, client, j, i); }
    }
  }

  lemma BelowState(bs: seq<Block>, client: nat, i: nat)
    requires Partition(bs, client) && i < |bs|
    ensures bs[i].id.clock + bs[i].len <= StateOf(bs)
  {
    if i < |bs| - 1 {
      Sorted(bs, client, i, |bs| - 1);
    }
  }

  /** Splitting a struct keeps the partition and the state. */
  lemma SplitPartition(bs: seq<Block>, client: nat, i: nat, diff: nat)
    requires Partition(bs, client) && i < |bs| && 0 < diff < bs[i].len
    ensures Partition(SplitAt(bs, i, diff), client)
    ensures StateOf(SplitAt(bs, i, diff)) == StateOf(bs)
  {
    var t := SplitAt(bs, i, diff);
    forall k | 0 < k < |t| ensures FollowsAt(t, k) {
      if k <= i {
        assert FollowsAt(bs, k);
      } else if k > i + 1 {
        assert FollowsAt(bs, k - 1);
      }
    }
  }

  /** `addStruct`: a struct that begins at the state extends the partition. */
  lemma AddPartition(bs: seq<Block>, client: nat, b: Block)
    requires Partition(bs, client) && b.id == ID(client, StateOf(bs)) && b.len > 0
    ensures Partition(bs + [b], client) && StateOf(bs + [b]) == StateOf(bs) + b.len
  {
    forall k | 0 < k < |bs + [b]| ensures FollowsAt(bs + [b], k) {
      assert k < |bs| ==> FollowsAt(bs, k);
    }
  }
}
