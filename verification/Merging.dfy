/** `mergeWith`. */
module Merging {
  // Joining items that were split before, or typed in a row.

  import opened Common
  import opened Yata
  import opened Blocks
  import opened Store

  /** The conditions under which an item is merged into the one before it. */
  predicate Mergeable(l: Block, r: Block) {
    && l.len > 0 && r.origin == Some(l.LastId()) && l.rightOrigin == r.rightOrigin
    && l.id.client == r.id.client && l.id.clock + l.len == r.id.clock && l.deleted == r.deleted
  }

  function Joined(l: Block, r: Block): Block {
    l.(len := l.len + r.len)
  }

  function MergeAt(bs: seq<Block>, i: nat): seq<Block>
    requires i + 1 < |bs|
  {
    bs[..i] + [Joined(bs[i], bs[i + 1])] + bs[i + 2..]
  }

  lemma JoinedUnits(l: Block, r: Block)
    requires Mergeable(l, r)
    ensures Flatten([l, r]) == Flatten([Joined(l, r)]) && Marks([l, r]) == Marks([Joined(l, r)])
  {
    TwoBlocks(l, r);
    OneBlock(Joined(l, r));
    var u := Joined(l, r).Units();
    assert u == l.Units() + r.Units();
    assert Joined(l, r).Marks() == l.Marks() + r.Marks();
  }

  /** Merging changes neither the units nor their order nor their marks. */
  lemma MergeKeeps(bs: seq<Block>, i: nat)
    requires i + 1 < |bs| && Mergeable(bs[i], bs[i + 1])
    ensures Flatten(MergeAt(bs, i)) == Flatten(bs) && Marks(MergeAt(bs, i)) == Marks(bs)
  {
    JoinedUnits(bs[i], bs[i + 1]);
    ReplaceKeeps(bs[..i], [bs[i], bs[i + 1]], [Joined(bs[i], bs[i + 1])], bs[i + 2..]);
    assert bs == bs[..i] + [bs[i], bs[i + 1]] + bs[i + 2..];
  }

  /** The parts of a split item merge back to it. */
  lemma SplitThenMerge(bs: seq<Block>, i: nat, diff: nat)
    requires i < |bs| && 0 < diff < bs[i].len
    ensures var t := SplitAt(bs, i, diff); Mergeable(t[i], t[i + 1]) && MergeAt(t, i) == bs
  {
    var t := SplitAt(bs, i, diff);
    assert t[i + 2..] == bs[i + 1..];
    assert MergeAt(t, i) == bs[..i] + [bs[i]] + bs[i + 1..];
  }

  /** Only what was one item can be merged: splitting where it was merged undoes it. */
  lemma MergeThenSplit(bs: seq<Block>, i: nat)
    requires i + 1 < |bs| && Mergeable(bs[i], bs[i + 1]) && bs[i + 1].len > 0
    ensures SplitAt(MergeAt(bs, i), i, bs[i].len) == bs
  {
    var t := MergeAt(bs, i);
    assert t[i + 1..] == bs[i + 2..];
    assert bs == bs[..i] + [bs[i], bs[i + 1]] + bs[i + 2..];
  }

  lemma MergePartition(bs: seq<Block>, client: nat, i: nat)
    requires Partition(bs, client) && i + 1 < |bs| && Mergeable(bs[i], bs[i + 1])
    ensures Partition(MergeAt(bs, i), client) && StateOf(MergeAt(bs, i)) == StateOf(bs)
  {
    var t := MergeAt(bs, i);
    forall k | 0 < k < |t| ensures FollowsAt(t, k) {
      if k <= i {
        assert FollowsAt(bs, k);
      } else {
        assert FollowsAt(bs, k + 1) && FollowsAt(bs, i + 1);
      }
    }
  }

  /** `left.right === right`: where both stand in the list, next to each other. */
  predicate Adjacent(list: seq<Block>, j: nat, l: Block, r: Block) {
    j + 1 < |list| && list[j] == l && list[j + 1] == r
  }

  /** The first place of the list where both stand next to each other, from `j` on. */
  function Beside(list: seq<Block>, l: Block, r: Block, j: nat := 0): (k: Option<nat>)
    ensures k.Some? ==> Adjacent(list, k.value, l, r)
    ensures k.None? ==> forall m | j <= m :: !Adjacent(list, m, l, r)
    decreases |list| - j
  {
    if j + 1 >= |list| then None else if Adjacent(list, j, l, r) then Some(j) else Beside(list, l, r, j + 1)
  }

  /** The structs stand in a row at `j` of the list, which becomes `t` by making them one. */
  predicate JoinedIn(list: seq<Block>, j: nat, row: seq<Block>, joined: Block, t: seq<Block>) {
    && j + |row| <= |list| && list[j..j + |row|] == row
    && t == list[..j] + [joined] + list[j + |row|..]
  }

  ghost predicate JoinedSomewhere(list: seq<Block>, row: seq<Block>, joined: Block, t: seq<Block>) {
    exists j :: JoinedIn(list, j, row, joined, t)
  }

  ghost predicate NextToEachOther(list: seq<Block>, l: Block, r: Block) {
    exists j :: Adjacent(list, j, l, r)
  }

  predicate Distinct(list: seq<Block>) {
    forall j, k :: 0 <= j < k < |list| ==> list[j].id != list[k].id
  }

  /** One more struct before those that were made one. */
  lemma JoinsIn(list: seq<Block>, j: nat, row: seq<Block>, joined: Block, t: seq<Block>, l: Block, k: nat)
    requires Distinct(list) && JoinedIn(list, j, row, joined, t) && row != [] && joined.id == row[0].id
    requires Adjacent(t, k, l, joined)
    ensures k + 1 == j && JoinedIn(list, k, [l] + row, Joined(l, joined), MergeAt(t, k))
  {
    assert list[j] == row[0];
    forall m | 0 <= m < |t| && m != j ensures t[m].id != joined.id {
      assert t[m] == list[if m < j then m else m + |row| - 1];
    }
    assert list[k..j + |row|] == [l] + row;
    assert MergeAt(t, k) == list[..k] + [Joined(l, joined)] + list[j + |row|..];
  }

  /** The structs before `i` and the one at `i` are in the store, then those after `pos`. */
  function Live(structs: seq<Block>, i: nat, pos: nat): seq<Block>
    requires i <= pos < |structs|
  {
    structs[..i + 1] + structs[pos + 1..]
  }

  lemma LiveNext(structs: seq<Block>, i: nat, pos: nat)
    requires 0 < i <= pos < |structs|
    ensures MergeAt(Live(structs, i, pos), i - 1) ==
      Live(structs[i - 1 := Joined(structs[i - 1], structs[i])], i - 1, pos)
  {
    var t := structs[i - 1 := Joined(structs[i - 1], structs[i])];
    var live := Live(structs, i, pos);
    assert live[i + 1..] == structs[pos + 1..] == t[pos + 1..];
    assert live[..i - 1] == structs[..i - 1] == t[..i - 1];
    assert t[..i] == t[..i - 1] + [t[i - 1]];
  }

  lemma JoinedLive(structs0: seq<Block>, structs: seq<Block>, i: nat, pos: nat)
    requires i <= pos < |structs| == |structs0|
    requires structs[..i] == structs0[..i] && structs[pos + 1..] == structs0[pos + 1..]
    ensures JoinedIn(structs0, i, structs0[i..pos + 1], structs[i], Live(structs, i, pos))
  {
  }

  /** What merging has done once the structs from `i` on are one. */
  ghost predicate Merged(list0: seq<Block>, structs0: seq<Block>, client: nat, pos: nat, list: seq<Block>,
    structs: seq<Block>, i: nat, at: nat)
    requires i <= pos < |structs| == |structs0|
  {
    && Partition(Live(structs, i, pos), client)
    && Flatten(Live(structs, i, pos)) == Flatten(structs0) && Marks(Live(structs, i, pos)) == Marks(structs0)
    && Flatten(list) == Flatten(list0) && Marks(list) == Marks(list0) && |list| == |list0| - (pos - i)
    && structs[..i] == structs0[..i] && structs[pos + 1..] == structs0[pos + 1..]
    && structs[i].id == structs0[i].id && (i == pos ==> structs[i] == structs0[i] && list == list0)
    && (i < pos && Distinct(list0) ==> JoinedIn(list0, at, structs0[i..pos + 1], structs[i], list))
  }

  lemma MergedStore(structs0: seq<Block>, client: nat, pos: nat, structs: seq<Block>, i: nat)
    requires 0 < i <= pos < |structs| && Partition(Live(structs, i, pos), client)
    requires Mergeable(structs[i - 1], structs[i])
    ensures var t := structs[i - 1 := Joined(structs[i - 1], structs[i])];
      && Partition(Live(t, i - 1, pos), client) && Flatten(Live(t, i - 1, pos)) == Flatten(Live(structs, i, pos))
      && Marks(Live(t, i - 1, pos)) == Marks(Live(structs, i, pos))
  {
    var live := Live(structs, i, pos);
    assert live[i - 1] == structs[i - 1] && live[i] == structs[i];
    MergeKeeps(live, i - 1);
    MergePartition(live, client, i - 1);
    LiveNext(structs, i, pos);
  }

  lemma MergedList(list0: seq<Block>, structs0: seq<Block>, client: nat, pos: nat, list: seq<Block>,
    structs: seq<Block>, i: nat, at: nat, k: nat)
    requires 0 < i <= pos < |structs| == |structs0| && Merged(list0, structs0, client, pos, list, structs, i, at)
    requires Distinct(list0) && Adjacent(list, k, structs[i - 1], structs[i])
    ensures JoinedIn(list0, k, structs0[i - 1..pos + 1], Joined(structs[i - 1], structs[i]), MergeAt(list, k))
  {
    hide Partition, Flatten, Marks, Joined;
    var row, right := structs0[i..pos + 1], structs[i];
    assert structs0[i - 1..pos + 1] == [structs[i - 1]] + row;
    if i == pos {
      assert list == list[..k + 1] + [right] + list[k + 2..];
    }
    JoinsIn(list0, if i == pos then k + 1 else at, row, right, list, structs[i - 1], k);
  }

  /** One more struct is merged. */
  lemma MergedNext(list0: seq<Block>, structs0: seq<Block>, client: nat, pos: nat, list: seq<Block>,
    structs: seq<Block>, i: nat, at: nat, k: nat)
    requires 0 < i <= pos < |structs| == |structs0| && Merged(list0, structs0, client, pos, list, structs, i, at)
    requires Mergeable(structs[i - 1], structs[i]) && Adjacent(list, k, structs[i - 1], structs[i])
    ensures Merged(list0, structs0, client, pos, MergeAt(list, k),
      structs[i - 1 := Joined(structs[i - 1], structs[i])], i - 1, k)
  {
    hide Partition, Flatten, Marks, Mergeable, Distinct, JoinedIn;
    MergedStore(structs0, client, pos, structs, i);
    MergeKeeps(list, k);
    if Distinct(list0) {
      MergedList(list0, structs0, client, pos, list, structs, i, at, k);
    }
    assert structs[..i - 1] == structs0[..i - 1];
  }

  /** Merges the struct at `pos` into those before it, as long as possible.  The units in the
      store and in the list, their order and their marks stay the same, and so do the other
      structs. */
  method TryToMergeWithLefts(list0: seq<Block>, structs0: seq<Block>, client: nat, pos: nat)
    returns (list: seq<Block>, structs: seq<Block>, merged: nat)
    requires Partition(structs0, client) && pos < |structs0|
    ensures merged <= pos && |structs| == |structs0| - merged && |list| == |list0| - merged
    ensures Partition(structs, client) && Flatten(structs) == Flatten(structs0) && Marks(structs) == Marks(structs0)
    ensures Flatten(list) == Flatten(list0) && Marks(list) == Marks(list0)
    ensures JoinedIn(structs0, pos - merged, structs0[pos - merged..pos + 1], structs[pos - merged], structs)
    ensures merged == 0 ==> list == list0
    ensures merged > 0 && Distinct(list0) ==>
      JoinedSomewhere(list0, structs0[pos - merged..pos + 1], structs[pos - merged], list)
    ensures merged < pos && Mergeable(structs[pos - merged - 1], structs[pos - merged]) ==>
      !NextToEachOther(list, structs[pos - merged - 1], structs[pos - merged])
  {
    hide Partition, Flatten, Marks, Mergeable, Distinct, JoinedIn;
    list, structs := list0, structs0;
    var i: nat := pos;
    ghost var at: nat := 0;
    assert Live(structs, pos, pos) == structs0;
    while i > 0
      invariant i <= pos < |structs| == |structs0|
      invariant Merged(list0, structs0, client, pos, list, structs, i, at)
    {
      var left, right := structs[i - 1], structs[i];
      var k := if Mergeable(left, right) then Beside(list, left, right) else None;
      if k.None? {
        break;
      }
      MergedNext(list0, structs0, client, pos, list, structs, i, at, k.value);
      at := k.value;
      list, structs := MergeAt(list, k.value), structs[i - 1 := Joined(left, right)];
      i := i - 1;
    }
    merged := pos - i;
    JoinedLive(structs0, structs, i, pos);
    structs := structs[..pos + 1 - merged] + structs[pos + 1..];
  }
}
