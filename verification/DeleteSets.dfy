/** Delete sets: ranges of clocks. */
module DeleteSets {
  import opened Common
  import opened Yata
  import opened Blocks

  /** `DeleteItem`. */
  datatype Range = Range(clock: nat, len: nat) {
    function End(): nat {
      clock + len
    }

    predicate Covers(k: nat) {
      clock <= k < End()
    }
  }

  type DeleteSet = map<nat, seq<Range>>

  /** A range of the list covers the clock. */
  predicate InRanges(dis: seq<Range>, k: nat) {
    exists i :: 0 <= i < |dis| && dis[i].Covers(k)
  }

  /** The ids that a delete set stands for. */
  predicate Names(ds: DeleteSet, id: ID) {
    id.client in ds && InRanges(ds[id.client], id.clock)
  }

  predicate BeforeAt(dis: seq<Range>, i: nat, j: nat)
    requires i < j < |dis|
  {
    dis[i].End() < dis[j].clock
  }

  /** Sorted, with at least one clock between two ranges. */
  predicate Separated(dis: seq<Range>) {
    forall i, j :: 0 <= i < j < |dis| ==> BeforeAt(dis, i, j)
  }

  /** No client without ranges, as `addToDeleteSet` and `readDeleteSet` build them. */
  predicate Inhabited(ds: DeleteSet) {
    forall c <- ds :: ds[c] != []
  }

  lemma InRangesConcat(a: seq<Range>, b: seq<Range>, k: nat)
    ensures InRanges(a + b, k) <==> InRanges(a, k) || InRanges(b, k)
  {
    if i :| 0 <= i < |a| && a[i].Covers(k) {
      assert (a + b)[i].Covers(k);
    }
    if i :| 0 <= i < |b| && b[i].Covers(k) {
      assert (a + b)[|a| + i].Covers(k);
    }
    if i :| 0 <= i < |a + b| && (a + b)[i].Covers(k) {
      assert if i < |a| then a[i].Covers(k) else b[i - |a|].Covers(k);
    }
  }

  // ----- Looking up an id -----

  /** `findIndexDS`: the range that covers the clock, if there is one. */
  method FindIndexDS(dis: seq<Range>, clock: nat) returns (index: Option<nat>)
    requires Separated(dis)
    ensures index.Some? ==> index.value < |dis| && dis[index.value].Covers(clock)
    ensures index.None? ==> !InRanges(dis, clock)
  {
    var left, right := 0, |dis| - 1;
    while left <= right
      decreases right - left
      invariant 0 <= left <= right + 1 <= |dis|
      invariant forall i :: 0 <= i < left ==> dis[i].End() <= clock
      invariant forall i :: right < i < |dis| ==> clock < dis[i].clock
    {
      var midindex := (left + right) / 2;
      var mid := dis[midindex];
      if mid.clock <= clock {
        if clock < mid.clock + mid.len {
          return Some(midindex);
        }
        forall i | 0 <= i < midindex ensures dis[i].End() <= clock {
          assert BeforeAt(dis, i, midindex);
        }
        left := midindex + 1;
      } else {
        forall i | midindex < i < |dis| ensures clock < dis[i].clock {
          assert BeforeAt(dis, midindex, i);
        }
        right := midindex - 1;
      }
    }
    return None;
  }

  /** Membership in the set of ids. */
  method IsDeleted(ds: DeleteSet, id: ID) returns (r: bool)
    requires forall c <- ds :: Separated(ds[c])
    ensures r <==> Names(ds, id)
  {
    if id.client !in ds {
      return false;
    }
    var index := FindIndexDS(ds[id.client], id.clock);
    return index.Some?;
  }

  // ----- Normal form -----

  predicate SortedAt(dis: seq<Range>, i: nat, j: nat)
    requires i < j < |dis|
  {
    dis[i].clock <= dis[j].clock
  }

  predicate SortedByClock(dis: seq<Range>) {
    forall i, j :: 0 <= i < j < |dis| ==> SortedAt(dis, i, j)
  }

  function InsertSorted(d: Range, dis: seq<Range>): (r: seq<Range>)
    ensures multiset(r) == multiset([d]) + multiset(dis)
  {
    if dis == [] || d.clock < dis[0].clock then [d] + dis
    else
      assert dis == [dis[0]] + dis[1..];
      [dis[0]] + InsertSorted(d, dis[1..])
  }

  /** The stable sort by clock. */
  function Sorted(dis: seq<Range>): (r: seq<Range>)
    ensures multiset(r) == multiset(dis) && |r| == |dis|
  {
    if dis == [] then []
    else
      var n := |dis| - 1;
      assert dis == dis[..n] + [dis[n]];
      var r := InsertSorted(dis[n], Sorted(dis[..n]));
      assert |multiset(r)| == |multiset(dis)|;
      r
  }

  lemma SortedCons(d: Range, dis: seq<Range>)
    requires SortedByClock(dis) && forall e <- dis :: d.clock <= e.clock
    ensures SortedByClock([d] + dis)
  {
    var r := [d] + dis;
    forall i, j | 0 <= i < j < |r| ensures SortedAt(r, i, j) {
      assert r[j] == dis[j - 1];
      assert i > 0 ==> SortedAt(dis, i - 1, j - 1);
    }
  }

  lemma {:induction false} InsertSortedSorts(d: Range, dis: seq<Range>)
    requires SortedByClock(dis)
    ensures SortedByClock(InsertSorted(d, dis))
  {
    forall i | 0 < i < |dis| ensures dis[0].clock <= dis[i].clock {
      assert SortedAt(dis, 0, i);
    }
    if dis == [] || d.clock < dis[0].clock {
      SortedCons(d, dis);
    } else {
      forall i, j | 0 <= i < j < |dis| - 1 ensures SortedAt(dis[1..], i, j) {
        assert SortedAt(dis, i + 1, j + 1);
      }
      InsertSortedSorts(d, dis[1..]);
      var r := InsertSorted(d, dis[1..]);
      forall e | e in r ensures dis[0].clock <= e.clock {
        assert e in multiset(r);
        assert e == d || e in dis[1..];
      }
      SortedCons(dis[0], r);
    }
  }

  lemma {:induction false} SortedSorts(dis: seq<Range>)
    ensures SortedByClock(Sorted(dis))
  {
    if dis != [] {
      SortedSorts(dis[..|dis| - 1]);
      InsertSortedSorts(dis[|dis| - 1], Sorted(dis[..|dis| - 1]));
    }
  }

  lemma SameMembers(a: seq<Range>, b: seq<Range>, k: nat)
    requires multiset(a) == multiset(b)
    ensures InRanges(a, k) <==> InRanges(b, k)
  {
    if i :| 0 <= i < |a| && a[i].Covers(k) {
      assert a[i] in multiset(b);
      var j :| 0 <= j < |b| && b[j] == a[i];
    }
    if i :| 0 <= i < |b| && b[i].Covers(k) {
      assert b[i] in multiset(a);
      var j :| 0 <= j < |a| && a[j] == b[i];
    }
  }

  /** A list with the entries of `s`, of another length; new entries are holes. */
  function Resized(s: seq<Range>, n: nat): seq<Option<Range>> {
    seq(n, i requires 0 <= i < n => if i < |s| then Some(s[i]) else None)
  }

  /** Joins the ranges of a sorted list in place; the first `j` entries are the result. */
  method Join(dels: array<Range>) returns (j: nat)
    requires SortedByClock(dels[..])
    modifies dels
    ensures j == 1 || 1 < j <= dels.Length
    ensures dels.Length > 0 ==> j <= dels.Length && Separated(dels[..j])
    ensures dels.Length > 0 ==> forall k :: InRanges(dels[..j], k) <==> InRanges(old(dels[..]), k)
  {
    ghost var was := dels[..];
    forall n | 1 <= n < |was| ensures was[0].clock <= was[n].clock {
      assert SortedAt(was, 0, n);
    }
    j := 1;
    var i := 1;
    while i < dels.Length
      invariant dels.Length == 0 ==> j == 1
      invariant 1 <= j <= i && (dels.Length > 0 ==> i <= dels.Length)
      invariant dels.Length > 0 ==> Separated(dels[..j])
      invariant forall k :: i <= k < dels.Length ==> dels[k] == was[k]
      invariant dels.Length > 0 ==> forall n :: i <= n < dels.Length ==> dels[j - 1].clock <= was[n].clock
      invariant dels.Length > 0 ==> forall k :: InRanges(dels[..j], k) <==> InRanges(was[..i], k)
    {
      var left, right := dels[j - 1], dels[i];
      ghost var before := dels[..j];
      forall n | i < n < |was| ensures right.clock <= was[n].clock {
        assert SortedAt(was, i, n);
      }
      assert was[..i + 1] == was[..i] + [right];
      assert before == before[..j - 1] + [left];
      if left.clock + left.len >= right.clock {
        var joined := Range(left.clock, Max(left.len, right.clock + right.len - left.clock));
        dels[j - 1] := joined;
        assert dels[..j] == before[..j - 1] + [joined];
        JoinedSeparated(before[..j - 1], left, joined);
        forall k ensures InRanges(dels[..j], k) <==> InRanges(was[..i + 1], k) {
          InRangesConcat(was[..i], [right], k);
          InRangesConcat(before[..j - 1], [left], k);
          InRangesConcat(before[..j - 1], [joined], k);
          JoinedCovers(left, right, k);
        }
      } else {
        if j < i {
          dels[j] := right;
        }
        j := j + 1;
        assert dels[..j] == before + [right];
        AppendedSeparated(before, right);
        forall k ensures InRanges(dels[..j], k) <==> InRanges(was[..i + 1], k) {
          InRangesConcat(was[..i], [right], k);
          InRangesConcat(before, [right], k);
        }
      }
      i := i + 1;
    }
    assert dels.Length > 0 ==> was[..i] == was;
  }

  lemma JoinedCovers(left: Range, right: Range, k: nat)
    requires left.clock <= right.clock <= left.End()
    ensures var joined := Range(left.clock, Max(left.len, right.clock + right.len - left.clock));
      InRanges([joined], k) <==> InRanges([left], k) || InRanges([right], k)
  {
    var joined := Range(left.clock, Max(left.len, right.clock + right.len - left.clock));
    assert InRanges([joined], k) <==> [joined][0].Covers(k);
    assert InRanges([left], k) <==> [left][0].Covers(k);
    assert InRanges([right], k) <==> [right][0].Covers(k);
  }

  lemma JoinedSeparated(a: seq<Range>, left: Range, joined: Range)
    requires Separated(a + [left]) && joined.clock == left.clock
    ensures Separated(a + [joined])
  {
    var s, t := a + [left], a + [joined];
    forall i, j | 0 <= i < j < |t| ensures BeforeAt(t, i, j) {
      assert BeforeAt(s, i, j);
    }
  }

  lemma AppendedSeparated(a: seq<Range>, right: Range)
    requires a != [] && Separated(a) && a[|a| - 1].End() < right.clock
    ensures Separated(a + [right])
  {
    var t := a + [right];
    forall i, j | 0 <= i < j < |t| ensures BeforeAt(t, i, j) {
      if j < |a| {
        assert BeforeAt(a, i, j);
      } else if i < |a| - 1 {
        assert BeforeAt(a, i, |a| - 1);
      }
    }
  }

  /** One client of `sortAndMergeDeleteSet`.  The list keeps its clocks; of an empty list
      the original makes a list with one hole, and only of an empty list. */
  method SortAndMerge(dels: seq<Range>) returns (r: seq<Option<Range>>)
    ensures None in r <==> dels == []
    ensures dels != [] ==> exists s :: Normal(dels, s) && r == Resized(s, |s|)
  {
    var sorted := Sorted(dels);
    SortedSorts(dels);
    var a := new Range[|sorted|](i requires 0 <= i < |sorted| => sorted[i]);
    assert a[..] == sorted;
    var j := Join(a);
    r := Resized(a[..], j);
    if dels == [] {
      assert r[0] == None;
    } else {
      var s := a[..j];
      assert r == Resized(s, |s|);
      forall k ensures InRanges(s, k) <==> InRanges(dels, k) {
        SameMembers(sorted, dels, k);
      }
      assert Normal(dels, s);
    }
  }

  /** The normal form of a list: the same clocks, in separated ranges. */
  ghost predicate Normal(dels: seq<Range>, s: seq<Range>) {
    s != [] && Separated(s) && forall k :: InRanges(s, k) <==> InRanges(dels, k)
  }

  /** One client of all the delete sets from `i` on, one after the other. */
  function Appended(dss: seq<DeleteSet>, i: nat, client: nat): (r: seq<Range>)
    decreases |dss| - i
  {
    if i >= |dss| then []
    else (if client in dss[i] then dss[i][client] else []) + Appended(dss, i + 1, client)
  }

  lemma {:induction false} AppendedNames(dss: seq<DeleteSet>, i: nat, client: nat, k: nat)
    requires i <= |dss|
    ensures InRanges(Appended(dss, i, client), k) <==> NamedFrom(dss, i, ID(client, k))
    decreases |dss| - i
  {
    if i < |dss| {
      AppendedNames(dss, i + 1, client, k);
      InRangesConcat(if client in dss[i] then dss[i][client] else [], Appended(dss, i + 1, client), k);
      NamedNext(dss, i, ID(client, k));
    }
  }

  ghost predicate NamedFrom(dss: seq<DeleteSet>, i: nat, id: ID) {
    exists j :: i <= j < |dss| && Names(dss[j], id)
  }

  lemma NamedNext(dss: seq<DeleteSet>, i: nat, id: ID)
    requires i < |dss|
    ensures NamedFrom(dss, i, id) <==> Names(dss[i], id) || NamedFrom(dss, i + 1, id)
  {
  }

  ghost predicate NamedBy(dss: seq<DeleteSet>, id: ID) {
    exists j :: 0 <= j < |dss| && Names(dss[j], id)
  }

  /** What `mergeDeleteSets` collects before it sorts: of each client all ranges, from the
      first delete set with that client on. */
  method Collect(dss: seq<DeleteSet>) returns (merged: DeleteSet)
    requires forall ds <- dss :: Inhabited(ds)
    ensures Inhabited(merged) && forall id :: Names(merged, id) <==> NamedBy(dss, id)
  {
    merged := map[];
    for dssI := 0 to |dss|
      invariant forall c :: c in merged <==> exists j :: 0 <= j < dssI && c in dss[j]
      invariant Inhabited(merged) && forall c <- merged, k :: InRanges(merged[c], k) <==> NamedBy(dss, ID(c, k))
    {
      var more := map c | c in dss[dssI] && c !in merged :: Appended(dss, dssI, c);
      forall c | c in more ensures more[c] != [] && forall k :: InRanges(more[c], k) <==> NamedBy(dss, ID(c, k)) {
        assert Inhabited(dss[dssI]) && dss[dssI][c] != [];
        forall k ensures InRanges(more[c], k) <==> NamedBy(dss, ID(c, k)) {
          AppendedNames(dss, dssI, c, k);
          assert forall j :: 0 <= j < dssI ==> c !in dss[j];
        }
      }
      merged := merged + more;
    }
  }

  /** The values of a list without holes. */
  function Values(r: seq<Option<Range>>): seq<Range>
    requires None !in r
  {
    seq(|r|, i requires 0 <= i < |r| => assert r[i] in r; r[i].value)
  }

  /** `sortAndMergeDeleteSet`: the same ids, in normal form. */
  method SortAndMergeDeleteSet(ds: DeleteSet) returns (r: DeleteSet)
    requires Inhabited(ds)
    ensures r.Keys == ds.Keys && forall c <- ds :: Normal(ds[c], r[c])
  {
    r := map[];
    var todo := ds.Keys;
    while todo != {}
      invariant r.Keys !! todo && r.Keys + todo == ds.Keys
      invariant forall c <- r :: Normal(ds[c], r[c])
    {
      var c :| c in todo;
      var dels := SortAndMerge(ds[c]);
      ghost var s :| Normal(ds[c], s) && dels == Resized(s, |s|);
      assert Values(dels) == s;
      r, todo := r[c := Values(dels)], todo - {c};
    }
  }

  /** The union of the delete sets, in normal form. */
  method MergeDeleteSets(dss: seq<DeleteSet>) returns (merged: DeleteSet)
    requires forall ds <- dss :: Inhabited(ds)
    ensures Inhabited(merged) && forall c <- merged :: Separated(merged[c])
    ensures forall id :: Names(merged, id) <==> NamedBy(dss, id)
  {
    var all := Collect(dss);
    merged := SortAndMergeDeleteSet(all);
    forall id ensures Names(merged, id) <==> Names(all, id) {
      assert id.client in all ==> Normal(all[id.client], merged[id.client]);
    }
  }

  // ----- The V2 encoding -----

  /** What the delta encoding can express: sorted, without overlap, no empty range. */
  predicate Encodable(dis: seq<Range>, cur: nat) {
    dis == [] || (cur <= dis[0].clock && dis[0].len > 0 && Encodable(dis[1..], dis[0].End()))
  }

  /** `writeDsClock` and `writeDsLen`: the numbers written for the ranges of one client.  An
      empty range is refused; a difference may be negative. */
  function Encode(dis: seq<Range>, cur: nat): Option<seq<int>> {
    if dis == [] then Some([])
    else if dis[0].len == 0 then None
    else
      var rest := Encode(dis[1..], dis[0].End());
      if rest.None? then None else Some([dis[0].clock - cur, dis[0].len - 1] + rest.value)
  }

  /** What `readVarUint` reads where `writeVarUint` wrote a number: of a negative one only the
      lowest seven bits are written. */
  function Reread(n: int): nat {
    if n < 0 then n % 128 else n
  }

  function RereadAll(s: seq<int>): seq<nat> {
    if s == [] then [] else [Reread(s[0])] + RereadAll(s[1..])
  }

  /** `readDsClock` and `readDsLen`, `n` times. */
  function Decode(input: seq<nat>, cur: nat, n: nat): Option<seq<Range>> {
    if n == 0 then Some([])
    else if |input| < 2 then None
    else
      var clock := cur + input[0];
      var len := input[1] + 1;
      var rest := Decode(input[2..], clock + len, n - 1);
      if rest.None? then None else Some([Range(clock, len)] + rest.value)
  }

  /** Lists without an empty range are written, and they are read back, whatever follows in
      the input, exactly if they are sorted without overlap. */
  lemma {:induction false} RoundTrip(dis: seq<Range>, cur: nat, rest: seq<nat>)
    ensures Encode(dis, cur).Some? <==> forall d <- dis :: d.len > 0
    ensures Encode(dis, cur).Some? ==>
      (Decode(RereadAll(Encode(dis, cur).value) + rest, cur, |dis|) == Some(dis) <==> Encodable(dis, cur))
    decreases |dis|
  {
    if dis != [] {
      RoundTrip(dis[1..], dis[0].End(), rest);
      assert dis == [dis[0]] + dis[1..];
      if Encode(dis, cur).Some? {
        FirstRange(dis, cur, rest);
      }
    }
  }

  lemma FirstRange(dis: seq<Range>, cur: nat, rest: seq<nat>)
    requires dis != [] && Encode(dis, cur).Some?
    ensures var tail := RereadAll(Encode(dis[1..], dis[0].End()).value) + rest;
      var clock := cur + Reread(dis[0].clock - cur);
      Decode(RereadAll(Encode(dis, cur).value) + rest, cur, |dis|)
      == match Decode(tail, clock + dis[0].len, |dis| - 1)
         case None => None
         case Some(ranges) => Some([Range(clock, dis[0].len)] + ranges)
    ensures cur + Reread(dis[0].clock - cur) == dis[0].clock <==> cur <= dis[0].clock
  {
    var numbers := Encode(dis[1..], dis[0].End()).value;
    var a, b := dis[0].clock - cur, dis[0].len - 1;
    var all := [a, b] + numbers;
    assert all[1..] == [b] + numbers && all[1..][1..] == numbers;
    assert RereadAll(all) == [Reread(a)] + ([Reread(b)] + RereadAll(numbers));
    var input := RereadAll(all) + rest;
    assert input[0] == Reread(a) && input[1] == b && input[2..] == RereadAll(numbers) + rest;
  }

  /** A normal list without empty ranges can be encoded. */
  lemma {:induction false} SeparatedEncodable(dis: seq<Range>, cur: nat)
    requires Separated(dis) && (forall d <- dis :: d.len > 0) && (dis == [] || cur <= dis[0].clock)
    ensures Encodable(dis, cur)
    decreases |dis|
  {
    if dis != [] {
      forall i, j | 0 <= i < j < |dis[1..]| ensures BeforeAt(dis[1..], i, j) {
        assert BeforeAt(dis, i + 1, j + 1);
      }
      assert |dis| > 1 ==> BeforeAt(dis, 0, 1);
      SeparatedEncodable(dis[1..], dis[0].End());
    }
  }
}
