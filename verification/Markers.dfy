/** Search markers: a cache of positions in an array, kept right. */
module Markers {
  import opened Common
  import opened Yata

  /** An item of an array: all of them are countable. */
  datatype Node<T> = Node(id: ID, content: seq<T>, deleted: bool)

  /** `ArraySearchMarker`: the item at position `at` of the list, and the index where it
      begins. */
  datatype Marker = Marker(at: nat, index: nat, timestamp: nat)

  const MAX_SEARCH_MARKER := 80

  function Shown<T>(n: Node<T>): seq<T> {
    if n.deleted then [] else n.content
  }

  /** What the array holds. */
  function Content<T>(list: seq<Node<T>>): seq<T> {
    if |list| == 0 then [] else Content(list[..|list| - 1]) + Shown(list[|list| - 1])
  }

  /** The visible length left of position `p`. */
  function Len<T>(list: seq<Node<T>>, p: nat): nat
    requires p <= |list|
  {
    |Content(list[..p])|
  }

  lemma ContentNext<T>(list: seq<Node<T>>, p: nat)
    requires p < |list|
    ensures Content(list[..p + 1]) == Content(list[..p]) + Shown(list[p])
    ensures Len(list, p + 1) == Len(list, p) + |Shown(list[p])|
  {
    assert list[..p + 1][..p] == list[..p];
  }

  lemma {:induction false} ContentConcat<T>(a: seq<Node<T>>, b: seq<Node<T>>)
    ensures Content(a + b) == Content(a) + Content(b)
  {
    if |b| == 0 {
      assert a + b == a;
    } else {
      var n := |b| - 1;
      assert (a + b)[..|a + b| - 1] == a + b[..n];
      ContentConcat(a, b[..n]);
      Associative(Content(a), Content(b[..n]), Shown(b[n]));
    }
  }

  lemma LenEnd<T>(list: seq<Node<T>>)
    ensures Len(list, |list|) == |Content(list)|
  {
    assert list[..|list|] == list;
  }

  lemma StartLen<T>(list: seq<Node<T>>)
    ensures Len(list, 0) == 0 && (|Content(list)| > 0 ==> |list| > 0)
  {
    assert list[..0] == [];
  }

  lemma ContentParts<T>(list: seq<Node<T>>, p: nat)
    requires p <= |list|
    ensures Content(list) == Content(list[..p]) + Content(list[p..])
    ensures Len(list, p) <= |Content(list)|
  {
    var a, z := list[..p], list[p..];
    assert list == a + z;
    ContentConcat(a, z);
  }

  lemma {:induction false} LenMonotone<T>(list: seq<Node<T>>, p: nat, q: nat)
    requires p <= q <= |list|
    ensures Len(list, p) <= Len(list, q)
    decreases q - p
  {
    if p < q {
      ContentNext(list, p);
      LenMonotone(list, p + 1, q);
    }
  }

  /** Lists with the same content left of two positions. */
  predicate MarkerIs<T>(list: seq<Node<T>>, m: Marker) {
    m.at < |list| && m.index == Len(list, m.at)
  }

  predicate AllNonEmpty<T>(list: seq<Node<T>>) {
    forall i :: 0 <= i < |list| ==> |list[i].content| > 0
  }

  lemma ContentSlices<T>(list: seq<Node<T>>, k: nat)
    requires k <= |list|
    ensures Len(list, k) <= |Content(list)|
    ensures Content(list[..k]) == Content(list)[..Len(list, k)] && Content(list[k..]) == Content(list)[Len(list, k)..]
  {
    ContentParts(list, k);
  }

  /** The content at an index, found in the item that covers it. */
  lemma ContentHere<T>(list: seq<Node<T>>, n: nat, index: nat)
    requires n < |list| && Len(list, n) <= index < Len(list, n) + |Shown(list[n])|
    ensures index < |Content(list)| && Content(list)[index] == Shown(list[n])[index - Len(list, n)]
  {
    ContentNext(list, n);
    ContentParts(list, n + 1);
  }

  // ----- Splitting and inserting -----

  /** `splitItem`. */
  function Split<T>(list: seq<Node<T>>, k: nat, diff: nat): seq<Node<T>>
    requires k < |list| && 0 < diff < |list[k].content|
  {
    list[..k] + [LeftPart(list[k], diff), RightPart(list[k], diff)] + list[k + 1..]
  }

  /** Markers keep pointing to the same items when `count` items are inserted at `k`. */
  function Shift(m: Marker, k: nat, count: nat): Marker {
    if m.at < k then m else m.(at := m.at + count)
  }

  function ShiftAll(ms: seq<Marker>, k: nat, count: nat): seq<Marker> {
    seq(|ms|, i requires 0 <= i < |ms| => Shift(ms[i], k, count))
  }

  lemma OneNode<T>(n: Node<T>)
    ensures Content([n]) == Shown(n)
  {
    assert |[n][..0]| == 0;
  }

  lemma Replaced<T>(a: seq<Node<T>>, m: seq<Node<T>>, n: seq<Node<T>>, z: seq<Node<T>>)
    requires Content(m) == Content(n)
    ensures Content(a + m + z) == Content(a + n + z)
  {
    ContentConcat(a + m, z);
    ContentConcat(a, m);
    ContentConcat(a + n, z);
    ContentConcat(a, n);
  }

  function LeftPart<T>(n: Node<T>, diff: nat): Node<T>
    requires diff <= |n.content|
  {
    n.(content := n.content[..diff])
  }

  function RightPart<T>(n: Node<T>, diff: nat): Node<T>
    requires diff <= |n.content|
  {
    Node(ID(n.id.client, n.id.clock + diff), n.content[diff..], n.deleted)
  }

  lemma PartsContent<T>(n: Node<T>, diff: nat)
    requires diff <= |n.content|
    ensures Content([LeftPart(n, diff), RightPart(n, diff)]) == Content([n])
  {
    var l, r := LeftPart(n, diff), RightPart(n, diff);
    OneNode(n);
    OneNode(l);
    OneNode(r);
    ContentConcat([l], [r]);
    assert [l, r] == [l] + [r];
    assert n.content == l.content + r.content;
  }

  lemma SplitContent<T>(list: seq<Node<T>>, k: nat, diff: nat)
    requires k < |list| && 0 < diff < |list[k].content|
    ensures Content(Split(list, k, diff)) == Content(list)
  {
    var n, a, z := list[k], list[..k], list[k + 1..];
    assert list == a + [n] + z;
    PartsContent(n, diff);
    Replaced(a, [n], [LeftPart(n, diff), RightPart(n, diff)], z);
  }

  lemma SplitLen<T>(list: seq<Node<T>>, k: nat, diff: nat)
    requires k < |list| && 0 < diff < |list[k].content|
    ensures Len(Split(list, k, diff), k + 1) == Len(list, k) + (if list[k].deleted then 0 else diff)
    ensures AllNonEmpty(list) ==> AllNonEmpty(Split(list, k, diff))
  {
    var t := Split(list, k, diff);
    assert t[..k] == list[..k];
    ContentNext(t, k);
  }

  /** Splitting keeps every marker. */
  lemma SplitMarker<T>(list: seq<Node<T>>, k: nat, diff: nat, m: Marker)
    requires k < |list| && 0 < diff < |list[k].content| && MarkerIs(list, m)
    ensures MarkerIs(Split(list, k, diff), Shift(m, k + 1, 1))
  {
    var t := Split(list, k, diff);
    if m.at <= k {
      assert t[..m.at] == list[..m.at];
    } else {
      SplitContent(list[..m.at], k, diff);
      SplitPrefix(list, k, diff, m.at);
    }
  }

  lemma SplitPrefix<T>(list: seq<Node<T>>, k: nat, diff: nat, n: nat)
    requires k < n <= |list| && 0 < diff < |list[k].content|
    ensures Split(list, k, diff)[..n + 1] == Split(list[..n], k, diff)
  {
    assert list[k + 1..][..n - k - 1] == list[..n][k + 1..];
  }

  function Inserted<T>(list: seq<Node<T>>, k: nat, news: seq<Node<T>>): seq<Node<T>>
    requires k <= |list|
  {
    list[..k] + news + list[k..]
  }

  lemma InsertContent<T>(list: seq<Node<T>>, k: nat, news: seq<Node<T>>)
    requires k <= |list|
    ensures Content(Inserted(list, k, news)) == Content(list[..k]) + Content(news) + Content(list[k..])
  {
    ContentConcat(list[..k] + news, list[k..]);
    ContentConcat(list[..k], news);
  }

  lemma InsertLen<T>(list: seq<Node<T>>, k: nat, news: seq<Node<T>>, at: nat)
    requires k <= |list| && at <= |list|
    ensures at < k ==> Len(Inserted(list, k, news), at) == Len(list, at)
    ensures at >= k ==> Len(Inserted(list, k, news), at + |news|) == Len(list, at) + |Content(news)|
  {
    var t := Inserted(list, k, news);
    if at < k {
      assert t[..at] == list[..at];
    } else {
      var z := list[k..at];
      assert t[..at + |news|] == list[..k] + news + z && list[..at] == list[..k] + z;
      ContentConcat(list[..k] + news, z);
      ContentConcat(list[..k], news);
      ContentConcat(list[..k], z);
    }
  }

  // ----- The array -----

  function Abs(x: int): nat {
    if x < 0 then 0 - x else x
  }

  /** The marker that is closest to an index. */
  function Closest(ms: seq<Marker>, index: nat, n: nat): (r: nat)
    requires 0 < n <= |ms|
    ensures r < n && forall i :: 0 <= i < n ==> Abs(index - ms[r].index) <= Abs(index - ms[i].index)
  {
    if n == 1 then 0
    else
      var a := Closest(ms, index, n - 1);
      if Abs(index - ms[a].index) < Abs(index - ms[n - 1].index) then a else n - 1
  }

  function Oldest(ms: seq<Marker>, n: nat): (r: nat)
    requires 0 < n <= |ms|
    ensures r < n && forall i :: 0 <= i < n ==> ms[r].timestamp <= ms[i].timestamp
  {
    if n == 1 then 0
    else
      var a := Oldest(ms, n - 1);
      if ms[a].timestamp < ms[n - 1].timestamp then a else n - 1
  }

  predicate MarkersAre<T>(list: seq<Node<T>>, ms: seq<Marker>) {
    forall i :: 0 <= i < |ms| ==> MarkerIs(list, ms[i])
  }

  /** `p` could be merged into the item before it. */
  predicate Continues<T>(list: seq<Node<T>>, p: nat)
    requires 0 < p < |list|
  {
    var l := list[p - 1];
    l.id.client == list[p].id.client && l.id.clock + |l.content| == list[p].id.clock
  }

  // ----- Where `findMarker` goes -----

  function RightFrom<T>(list: seq<Node<T>>, p: nat, index: nat): (r: nat)
    requires p < |list|
    ensures r < |list|
    decreases |list| - p
  {
    if p + 1 < |list| && Len(list, p) < index && (list[p].deleted || Len(list, p) + |list[p].content| <= index)
    then RightFrom(list, p + 1, index) else p
  }

  function LeftFrom<T>(list: seq<Node<T>>, p: nat, index: nat): (r: nat)
    requires p < |list|
    ensures r < |list|
  {
    if p > 0 && Len(list, p) > index then LeftFrom(list, p - 1, index) else p
  }

  function FirstPart<T>(list: seq<Node<T>>, p: nat): (r: nat)
    requires p < |list|
    ensures r < |list|
  {
    if p > 0 && Continues(list, p) then FirstPart(list, p - 1) else p
  }

  /** To the right as far as the index is, back to the left if that was too far, and to the
      first of the items that could be merged. */
  function WalkFrom<T>(list: seq<Node<T>>, p: nat, index: nat): (r: nat)
    requires p < |list|
    ensures r < |list|
  {
    FirstPart(list, LeftFrom(list, RightFrom(list, p, index), index))
  }

  /** The walk ends at the item that the index is in, or where it begins, or at the last one. */
  predicate Reaches<T>(list: seq<Node<T>>, q: nat, index: nat)
    requires q < |list|
  {
    Len(list, q) <= index && (Len(list, q) == index || q + 1 == |list| || index < Len(list, q + 1))
  }

  lemma {:induction false} RightReaches<T>(list: seq<Node<T>>, p: nat, index: nat)
    requires p < |list|
    ensures var q := RightFrom(list, p, index);
      q + 1 == |list| || index <= Len(list, q) || index < Len(list, q + 1)
    decreases |list| - p
  {
    ContentNext(list, p);
    if p + 1 < |list| && Len(list, p) < index && (list[p].deleted || Len(list, p) + |list[p].content| <= index) {
      RightReaches(list, p + 1, index);
    }
  }

  lemma {:induction false} LeftReaches<T>(list: seq<Node<T>>, p: nat, index: nat)
    requires p < |list| && (p + 1 == |list| || index <= Len(list, p) || index < Len(list, p + 1))
    ensures Reaches(list, LeftFrom(list, p, index), index)
    decreases p
  {
    StartLen(list);
    if p > 0 && Len(list, p) > index {
      LeftReaches(list, p - 1, index);
    }
  }

  /** All items up to `q` continue the one before them, and `r` does not. */
  predicate FirstOf<T>(list: seq<Node<T>>, r: nat, q: nat) {
    && r <= q < |list| && (r > 0 ==> !Continues(list, r))
    && forall i :: r < i <= q ==> Continues(list, i)
  }

  lemma {:induction false} FirstPartIs<T>(list: seq<Node<T>>, p: nat)
    requires p < |list|
    ensures FirstOf(list, FirstPart(list, p), p)
  {
    if p > 0 && Continues(list, p) {
      FirstPartIs(list, p - 1);
    }
  }

  /** Wherever `findMarker` starts from, it gets to the item that the index is in, and goes back
      from there over the items that could be merged. */
  lemma WalkReaches<T>(list: seq<Node<T>>, p: nat, index: nat) returns (q: nat)
    requires p < |list|
    ensures q < |list| && Reaches(list, q, index) && FirstOf(list, WalkFrom(list, p, index), q)
  {
    RightReaches(list, p, index);
    q := LeftFrom(list, RightFrom(list, p, index), index);
    LeftReaches(list, RightFrom(list, p, index), index);
    FirstPartIs(list, q);
  }

  /** The closest marker is replaced if it is close enough; else the position becomes a new
      marker, in place of the oldest one if there are too many. */
  function Renewed<T>(list: seq<Node<T>>, ms: seq<Marker>, i: nat, p: nat, time: nat): seq<Marker>
    requires i < |ms| && p <= |list|
  {
    var m := Marker(p, Len(list, p), time);
    if Abs(ms[i].index - m.index) * MAX_SEARCH_MARKER < |Content(list)| then ms[i := m]
    else if |ms| >= MAX_SEARCH_MARKER then ms[Oldest(ms, |ms|) := m]
    else ms + [m]
  }

  /** The markers after `findMarker`, which uses the closest one. */
  function Found<T>(list: seq<Node<T>>, ms: seq<Marker>, time: nat, index: nat): seq<Marker>
    requires MarkersAre(list, ms)
  {
    if |list| == 0 || index == 0 then ms
    else if |ms| == 0 then
      var p := WalkFrom(list, 0, index);
      [Marker(p, Len(list, p), time)]
    else
      var i := Closest(ms, index, |ms|);
      assert MarkerIs(list, ms[i]);
      var p := WalkFrom(list, ms[i].at, index);
      Renewed(list, ms[i := ms[i].(timestamp := time)], i, p, time + 1)
  }

  lemma FoundFrom<T>(list: seq<Node<T>>, ms: seq<Marker>, time: nat, index: nat)
    requires MarkersAre(list, ms) && |list| > 0 && index != 0 && |ms| > 0
    ensures var i := Closest(ms, index, |ms|);
      && MarkerIs(list, ms[i])
      && Found(list, ms, time, index) ==
           Renewed(list, ms[i := ms[i].(timestamp := time)], i, WalkFrom(list, ms[i].at, index), time + 1)
  {
    assert MarkerIs(list, ms[Closest(ms, index, |ms|)]);
  }

  /** Splits move markers, but not the indices that they stand for. */
  predicate SameIndices(ms: seq<Marker>, ms': seq<Marker>) {
    |ms'| == |ms| && forall i :: 0 <= i < |ms| ==> ms'[i].index == ms[i].index
  }

  /** No marker begins behind the index. */
  predicate NoneBehind(ms: seq<Marker>, index: nat) {
    forall i :: 0 <= i < |ms| ==> ms[i].index <= index
  }

  predicate AllDeleting<T>(list: seq<Node<T>>, ms: seq<Marker>, n: nat, index: nat, done: nat) {
    forall i :: 0 <= i < |ms| ==> Deleting(list, n, ms[i], index, done)
  }

  // ----- The items of an array -----

  /** The clock `k` of the content lies inside of the item at `i`. */
  predicate Inside<T>(list: seq<Node<T>>, i: nat, k: nat)
    requires i < |list|
  {
    !list[i].deleted && Len(list, i) < k < Len(list, i) + |list[i].content|
  }

  /** The list with the item split that `k` lies inside of, if there is one. */
  ghost function CutAt<T>(list: seq<Node<T>>, k: nat): seq<Node<T>> {
    if i :| 0 <= i < |list| && Inside(list, i, k) then Split(list, i, k - Len(list, i)) else list
  }

  lemma InsideOne<T>(list: seq<Node<T>>, i: nat, j: nat, k: nat)
    requires i < j < |list| && Inside(list, i, k)
    ensures !Inside(list, j, k)
  {
    ContentNext(list, i);
    LenMonotone(list, i + 1, j);
  }

  lemma CutsHere<T>(list: seq<Node<T>>, i: nat, k: nat)
    requires i < |list| && Inside(list, i, k)
    ensures CutAt(list, k) == Split(list, i, k - Len(list, i))
  {
    forall j | 0 <= j < |list| && j != i ensures !Inside(list, j, k) {
      if j < i {
        if Inside(list, j, k) { InsideOne(list, j, i, k); }
      } else {
        InsideOne(list, i, j, k);
      }
    }
  }

  /** Nothing is split where an item begins, or past the end. */
  lemma CutsNothing<T>(list: seq<Node<T>>, n: nat, k: nat)
    requires n <= |list| && (if n == |list| then Len(list, n) <= k else Len(list, n) == k)
    ensures CutAt(list, k) == list
  {
    forall i | 0 <= i < |list| ensures !Inside(list, i, k) {
      if i < n {
        ContentNext(list, i);
        LenMonotone(list, i + 1, n);
      } else {
        LenMonotone(list, n, i);
      }
    }
  }

  /** The items from `i` up to `j` are deleted. */
  function Wiped<T>(list: seq<Node<T>>, i: nat, j: nat): seq<Node<T>> {
    seq(|list|, k requires 0 <= k < |list| => if i <= k < j then list[k].(deleted := true) else list[k])
  }

  /** The items that begin in a range of indices are deleted. */
  function WipedRange<T>(list: seq<Node<T>>, from: nat, to: nat): seq<Node<T>> {
    seq(|list|, k requires 0 <= k < |list| =>
      if from <= Len(list, k) < to then list[k].(deleted := true) else list[k])
  }

  /** The list after a deletion: its items are split at both ends of the range, and what was
      visible between them is deleted. */
  ghost function DeletedFrom<T>(list: seq<Node<T>>, index: nat, length: nat): seq<Node<T>> {
    WipedRange(CutAt(CutAt(list, index), index + length), index, index + length)
  }

  /** The list after an insertion: the item is split that the index lies inside of, and the new
      items follow what is visible left of the index. */
  ghost predicate InsertedTo<T>(list: seq<Node<T>>, index: nat, news: seq<Node<T>>, t: seq<Node<T>>) {
    exists k :: SpotAt(CutAt(list, index), k, index) && t == Inserted(CutAt(list, index), k, news)
  }

  predicate SpotAt<T>(list: seq<Node<T>>, k: nat, index: nat) {
    k <= |list| && Len(list, k) == index && (if index == 0 then k == 0 else k > 0 && !list[k - 1].deleted)
  }

  lemma WipedNext<T>(list: seq<Node<T>>, i: nat, n: nat)
    requires i <= n < |list|
    ensures Removed(Wiped(list, i, n), n) == Wiped(list, i, n + 1)
  {
  }

  lemma WipedSplit<T>(list: seq<Node<T>>, i: nat, n: nat, diff: nat)
    requires i <= n < |list| && 0 < diff < |list[n].content|
    ensures Split(Wiped(list, i, n), n, diff) == Wiped(Split(list, n, diff), i, n)
  {
  }

  /** Between two positions stands what begins between their indices; of the rest nothing is
      visible there. */
  lemma WipedBetween<T>(list: seq<Node<T>>, i: nat, n: nat, from: nat, to: nat)
    requires AllNonEmpty(list) && i <= n <= |list| && Len(list, i) == from
    requires if n == |list| then Len(list, n) <= to else Len(list, n) == to
    ensures Wiped(list, i, n) == WipedRange(list, from, to)
  {
    forall k | 0 <= k < |list| ensures Wiped(list, i, n)[k] == WipedRange(list, from, to)[k] {
      ContentNext(list, k);
      if k < i {
        LenMonotone(list, k + 1, i);
      } else if k < n {
        LenMonotone(list, i, k);
        LenMonotone(list, k + 1, n);
      } else {
        LenMonotone(list, n, k);
      }
    }
  }

  /** The item at `n` deleted, or the part of it that is left to be. */
  ghost predicate RemovesNext<T>(list: seq<Node<T>>, n: nat, rest0: nat, rest: nat, t: seq<Node<T>>) {
    && n < |list| && rest0 > 0
    && if !list[n].deleted && rest0 < |list[n].content| then rest == 0 && t == Removed(Split(list, n, rest0), n)
       else rest0 == rest + |Shown(list[n])| && t == Removed(list, n)
  }

  /** `list` is `base` with the items from `n0` up to `n` deleted; `base` is split at the end. */
  ghost predicate Wiping<T>(list0: seq<Node<T>>, base: seq<Node<T>>, n0: nat, n: nat, index: nat, length: nat,
                            rest: nat, list: seq<Node<T>>) {
    && n0 <= n <= |base| && rest <= length && AllNonEmpty(base) && list == Wiped(base, n0, n)
    && Len(base, n0) == index && Len(base, n) + rest == index + length
    && (base == list0 || (rest == 0 && base == CutAt(list0, index + length)))
  }

  lemma WipingNext<T>(list0: seq<Node<T>>, base: seq<Node<T>>, n0: nat, n: nat, index: nat, length: nat, rest: nat,
                      list: seq<Node<T>>, rest': nat, list': seq<Node<T>>) returns (base': seq<Node<T>>)
    requires Wiping(list0, base, n0, n, index, length, rest, list) && rest > 0
    requires RemovesNext(list, n, rest, rest', list')
    ensures Wiping(list0, base', n0, n + 1, index, length, rest', list')
  {
    hide CutAt;
    base' := base;
    if !list[n].deleted && rest < |list[n].content| {
      base' := Split(base, n, rest);
      CutsHere(base, n, index + length);
      WipedSplit(base, n0, n, rest);
      SplitLen(base, n, rest);
      assert base'[..n0] == base[..n0];
    } else {
      ContentNext(base, n);
    }
    WipedNext(base', n0, n);
  }

  lemma WipingStart<T>(list: seq<Node<T>>, n: nat, index: nat, length: nat)
    requires n <= |list| && AllNonEmpty(list) && Len(list, n) == index
    ensures Wiping(list, list, n, n, index, length, length, list)
  {
  }

  lemma WipingEnd<T>(list0: seq<Node<T>>, base: seq<Node<T>>, n0: nat, n: nat, index: nat, length: nat, rest: nat,
                     list: seq<Node<T>>)
    requires Wiping(list0, base, n0, n, index, length, rest, list) && (rest > 0 ==> n == |list|)
    ensures list == WipedRange(CutAt(list0, index + length), index, index + length)
  {
    hide CutAt;
    if base == list0 {
      CutsNothing(base, n, index + length);
    }
    WipedBetween(base, n0, n, index, index + length);
  }

  /** Past the end nothing is split or deleted. */
  lemma NothingWiped<T>(list0: seq<Node<T>>, list: seq<Node<T>>, index: nat, length: nat)
    requires list == CutAt(list0, index) && |Content(list)| < index
    ensures list == DeletedFrom(list0, index, length)
  {
    hide CutAt;
    LenEnd(list);
    CutsNothing(list, |list|, index + length);
    forall k | 0 <= k < |list| ensures Len(list, k) < index {
      ContentParts(list, k);
    }
    assert WipedRange(list, index, index + length) == list;
  }

  // ----- The markers of an insertion -----

  /** The last item at or before `p` that is not deleted. */
  function LiveAt<T>(list: seq<Node<T>>, p: nat): (r: int)
    requires p < |list|
    ensures -1 <= r <= p && (r >= 0 ==> !list[r].deleted)
  {
    if !list[p].deleted then p else if p == 0 then -1 else LiveAt(list, p - 1)
  }

  predicate AllAt<T>(list: seq<Node<T>>, ms: seq<Marker>) {
    forall m <- ms :: m.at < |list|
  }

  /** The markers after an insertion, last one first: each one goes to the last visible item,
      unless that has a marker already. */
  function BeforeInsert<T>(list: seq<Node<T>>, ms: seq<Marker>, flags: set<ID>, index: nat, len: nat): seq<Marker>
    requires AllAt(list, ms)
    decreases |ms|
  {
    if |ms| == 0 then []
    else
      var n := |ms| - 1;
      var m, p := ms[n], LiveAt(list, ms[n].at);
      var others := flags - {list[m.at].id};
      if p < 0 || list[p].id in others then BeforeInsert(list, ms[..n], others, index, len)
      else BeforeInsert(list, ms[..n], others + {list[p].id}, index, len) +
           [Marker(p, Moved(Len(list, p), index, len), m.timestamp)]
  }

  lemma WithoutLast(ms: seq<Marker>, i: nat, tail: seq<Marker>, m: Marker)
    requires i < |ms|
    ensures var s := ms[..i + 1] + tail;
      s[..i] + s[i + 1..] == ms[..i] + tail && s[i := m] == ms[..i] + ([m] + tail)
  {
  }

  lemma BeforeNone<T>(list: seq<Node<T>>, ms: seq<Marker>, flags: set<ID>, index: nat, len: nat)
    requires |ms| == 0
    ensures BeforeInsert(list, ms, flags, index, len) == []
  {
  }

  lemma BeforeLast<T>(list: seq<Node<T>>, ms: seq<Marker>, n: nat, flags: set<ID>, index: nat, len: nat)
    requires AllAt(list, ms) && n < |ms|
    ensures var m, p, others := ms[n], LiveAt(list, ms[n].at), flags - {list[ms[n].at].id};
      BeforeInsert(list, ms[..n + 1], flags, index, len) ==
        if p < 0 || list[p].id in others then BeforeInsert(list, ms[..n], others, index, len)
        else BeforeInsert(list, ms[..n], others + {list[p].id}, index, len) +
             [Marker(p, Moved(Len(list, p), index, len), m.timestamp)]
  {
    assert ms[..n + 1][..n] == ms[..n];
  }

  predicate UniqueNodes<T>(list: seq<Node<T>>) {
    forall i, j :: 0 <= i < j < |list| ==> list[i].id != list[j].id
  }

  /** The item has a marker, or only the flag of one. */
  ghost predicate MarkedAfter<T>(list: seq<Node<T>>, p: nat, ms: seq<Marker>, flags: set<ID>, r: seq<Marker>)
    requires p < |list| && AllAt(list, ms)
  {
    (exists m <- r :: m.at == p) || (list[p].id in flags && forall m <- ms :: list[m.at].id != list[p].id)
  }

  lemma {:induction false} MarkedLast<T>(list: seq<Node<T>>, ms: seq<Marker>, flags: set<ID>, index: nat, len: nat,
                                         i: nat)
    requires AllAt(list, ms) && UniqueNodes(list) && i < |ms| && LiveAt(list, ms[i].at) >= 0
    ensures MarkedAfter(list, LiveAt(list, ms[i].at), ms, flags, BeforeInsert(list, ms, flags, index, len))
    decreases |ms|
  {
    hide MarkedAfter, LiveAt, UniqueNodes;
    var n := |ms| - 1;
    var m, p, q := ms[n], LiveAt(list, ms[n].at), LiveAt(list, ms[i].at);
    var others := flags - {list[m.at].id};
    if p < 0 || list[p].id in others {
      var r := BeforeInsert(list, ms[..n], others, index, len);
      if i < n {
        MarkedLast(list, ms[..n], others, index, len, i);
        MarkedDropped(list, q, ms, flags, r);
      } else if j :| 0 <= j < n && ms[j].at == p {
        LiveIsThere(list, p);
        MarkedLast(list, ms[..n], others, index, len, j);
        MarkedDropped(list, q, ms, flags, r);
      } else {
        FlagOnly(list, p, ms, flags, r);
      }
    } else {
      var r := BeforeInsert(list, ms[..n], others + {list[p].id}, index, len);
      if i < n {
        MarkedLast(list, ms[..n], others + {list[p].id}, index, len, i);
      }
      MarkedKept(list, p, q, ms, flags, r, Marker(p, Moved(Len(list, p), index, len), m.timestamp));
    }
  }

  lemma LiveIsThere<T>(list: seq<Node<T>>, p: nat)
    requires p < |list| && !list[p].deleted
    ensures LiveAt(list, p) == p
  {
  }

  lemma MarkedDropped<T>(list: seq<Node<T>>, q: nat, ms: seq<Marker>, flags: set<ID>, r: seq<Marker>)
    requires q < |list| && AllAt(list, ms) && |ms| > 0
    requires MarkedAfter(list, q, ms[..|ms| - 1], flags - {list[ms[|ms| - 1].at].id}, r)
    ensures MarkedAfter(list, q, ms, flags, r)
  {
    forall m | m in ms ensures m == ms[|ms| - 1] || m in ms[..|ms| - 1] {
    }
  }

  lemma FlagOnly<T>(list: seq<Node<T>>, p: nat, ms: seq<Marker>, flags: set<ID>, r: seq<Marker>)
    requires AllAt(list, ms) && UniqueNodes(list) && p < |list| && |ms| > 0
    requires list[p].id in flags - {list[ms[|ms| - 1].at].id} && forall j :: 0 <= j < |ms| - 1 ==> ms[j].at != p
    ensures MarkedAfter(list, p, ms, flags, r)
  {
  }

  lemma MarkedKept<T>(list: seq<Node<T>>, p: nat, q: nat, ms: seq<Marker>, flags: set<ID>, r: seq<Marker>, m: Marker)
    requires AllAt(list, ms) && UniqueNodes(list) && p < |list| && q < |list| && |ms| > 0 && m.at == p
    requires p == q || MarkedAfter(list, q, ms[..|ms| - 1], flags - {list[ms[|ms| - 1].at].id} + {list[p].id}, r)
    ensures MarkedAfter(list, q, ms, flags, r + [m])
  {
    if p == q {
      assert m in r + [m];
    } else if k :| k in r && k.at == q {
      assert k in r + [m];
    } else {
      MarkedDropped(list, q, ms, flags, r);
    }
  }

  /** No cached position is lost: the visible item that a marker stands for has one afterwards. */
  lemma NoneLost<T>(list: seq<Node<T>>, ms: seq<Marker>, flags: set<ID>, index: nat, len: nat, i: nat)
    requires AllAt(list, ms) && UniqueNodes(list) && i < |ms| && LiveAt(list, ms[i].at) >= 0
    requires forall f <- flags :: exists m <- ms :: list[m.at].id == f
    ensures exists m <- BeforeInsert(list, ms, flags, index, len) :: m.at == LiveAt(list, ms[i].at)
  {
    MarkedLast(list, ms, flags, index, len, i);
  }

  class YArray<T> {
    var list: seq<Node<T>>
    var markers: seq<Marker>
    /** The items with the `marker` flag. */
    var flags: set<ID>
    var time: nat

    /** Every marker has the visible length left of its item. */
    ghost predicate Valid()
      reads this
    {
      AllNonEmpty(list) && MarkersAre(list, markers)
    }

    /** The steps of `findMarker` to the right. */
    method WalkRight(p0: nat, pindex0: nat, index: nat) returns (p: nat, pindex: nat)
      requires p0 < |list| && pindex0 == Len(list, p0)
      ensures p < |list| && pindex == Len(list, p) && p == RightFrom(list, p0, index)
    {
      p, pindex := p0, pindex0;
      while p + 1 < |list| && pindex < index
        invariant p < |list| && pindex == Len(list, p) && RightFrom(list, p, index) == RightFrom(list, p0, index)
      {
        ContentNext(list, p);
        if !list[p].deleted {
          if index < pindex + |list[p].content| {
            break;
          }
          pindex := pindex + |list[p].content|;
        }
        p := p + 1;
      }
    }

    /** One step to the left. */
    method Left(p0: nat, pindex0: nat) returns (p: nat, pindex: nat)
      requires 0 < p0 < |list| && pindex0 == Len(list, p0)
      ensures p == p0 - 1 && pindex == Len(list, p) <= pindex0
    {
      p, pindex := p0 - 1, pindex0;
      ContentNext(list, p);
      if !list[p].deleted {
        pindex := pindex - |list[p].content|;
      }
    }

    /** The steps of `findMarker` from `p0` on, to an item that begins at or before the index
        and does not continue the item before it. */
    method Walk(p0: nat, pindex0: nat, index: nat) returns (p: nat, pindex: nat)
      requires p0 < |list| && pindex0 == Len(list, p0)
      ensures p < |list| && pindex == Len(list, p) && pindex <= index
      ensures p == WalkFrom(list, p0, index)
    {
      p, pindex := WalkRight(p0, pindex0, index);
      ghost var p1 := p;
      while p > 0 && pindex > index
        invariant p < |list| && pindex == Len(list, p) && LeftFrom(list, p, index) == LeftFrom(list, p1, index)
      {
        p, pindex := Left(p, pindex);
      }
      assert list[..0] == [];
      ghost var p2 := p;
      while p > 0 && Continues(list, p)
        invariant p < |list| && pindex == Len(list, p) && pindex <= index && FirstPart(list, p) == FirstPart(list, p2)
      {
        p, pindex := Left(p, pindex);
      }
    }

    /** `overwriteMarker`. */
    method OverwriteMarker(i: nat, p: nat, index: nat)
      requires Valid() && i < |markers| && p < |list| && index == Len(list, p)
      modifies this`markers, this`flags, this`time
      ensures Valid() && markers == old(markers)[i := Marker(p, index, old(time))]
    {
      flags := flags - {list[markers[i].at].id} + {list[p].id};
      markers := markers[i := Marker(p, index, time)];
      time := time + 1;
    }

    /** `markPosition`. */
    method MarkPosition(p: nat, index: nat)
      requires Valid() && p < |list| && index == Len(list, p)
      modifies this`markers, this`flags, this`time
      ensures Valid()
      ensures markers == var ms, m := old(markers), Marker(p, index, old(time));
        if |ms| >= MAX_SEARCH_MARKER then ms[Oldest(ms, |ms|) := m] else ms + [m]
    {
      if |markers| >= MAX_SEARCH_MARKER {
        OverwriteMarker(Oldest(markers, |markers|), p, index);
      } else {
        flags := flags + {list[p].id};
        markers := markers + [Marker(p, index, time)];
        time := time + 1;
      }
    }

    /** `findMarker`: an item that begins at or before the index, and where it begins. */
    method FindMarker(index: nat) returns (found: bool, p: nat, pindex: nat)
      requires Valid()
      modifies this`markers, this`flags, this`time
      ensures Valid() && markers == Found(list, old(markers), old(time), index)
      ensures found ==> p < |list| && pindex == Len(list, p) && pindex <= index
      ensures found <==> |list| > 0 && index != 0
    {
      if |list| == 0 || index == 0 {
        return false, 0, 0;
      }
      found, p, pindex := true, 0, 0;
      assert list[..0] == [];
      if |markers| == 0 {
        p, pindex := Walk(p, pindex, index);
        MarkPosition(p, pindex);
      } else {
        p, pindex := UseMarker(Closest(markers, index, |markers|), index);
      }
    }

    /** `findMarker` from the closest marker on. */
    method UseMarker(i: nat, index: nat) returns (p: nat, pindex: nat)
      requires Valid() && i < |markers| && |list| > 0 && index != 0 && i == Closest(markers, index, |markers|)
      modifies this`markers, this`flags, this`time
      ensures Valid() && markers == Found(list, old(markers), old(time), index)
      ensures p < |list| && pindex == Len(list, p) && pindex <= index
    {
      assert MarkerIs(list, markers[i]);
      FoundFrom(list, markers, time, index);
      markers := markers[i := markers[i].(timestamp := time)];
      time := time + 1;
      p, pindex := Walk(markers[i].at, markers[i].index, index);
      Renew(i, p, pindex);
    }

    /** The markers of `findMarker`, once the position is known. */
    method Renew(i: nat, p: nat, pindex: nat)
      requires Valid() && i < |markers| && p < |list| && pindex == Len(list, p)
      modifies this`markers, this`flags, this`time
      ensures Valid() && markers == Renewed(list, old(markers), i, p, old(time))
    {
      if Abs(markers[i].index - pindex) * MAX_SEARCH_MARKER < |Content(list)| {
        OverwriteMarker(i, p, pindex);
      } else {
        MarkPosition(p, pindex);
      }
    }

    /** The walk of `typeListGet` from an item on. */
    method ScanFrom(n0: nat, pindex: nat, index: nat) returns (r: Option<T>)
      requires n0 <= |list| && pindex == Len(list, n0) <= index
      ensures r == if index < |Content(list)| then Some(Content(list)[index]) else None
    {
      var n, rest := n0, index - pindex;
      while n < |list|
        invariant n <= |list| && 0 <= rest && index == Len(list, n) + rest
      {
        ContentNext(list, n);
        if !list[n].deleted {
          if rest < |list[n].content| {
            ContentHere(list, n, index);
            return Some(list[n].content[rest]);
          }
          rest := rest - |list[n].content|;
        }
        n := n + 1;
      }
      assert list[..n] == list;
      return None;
    }

    /** `typeListGet`: the value at an index, as a walk from the start would find it. */
    method GetAt(index: nat) returns (r: Option<T>)
      requires Valid()
      modifies this`markers, this`flags, this`time
      ensures Valid() && r == if index < |Content(list)| then Some(Content(list)[index]) else None
    {
      var found, n, pindex := FindMarker(index);
      if !found {
        n, pindex := 0, 0;
        assert list[..0] == [];
      }
      r := ScanFrom(n, pindex, index);
    }

    /** `getItemCleanStart` within an item: splits it; markers stay with the left part. */
    method SplitItem(k: nat, diff: nat)
      requires k < |list| && 0 < diff < |list[k].content| && AllNonEmpty(list)
      modifies this`list, this`markers
      ensures list == Split(old(list), k, diff) && markers == ShiftAll(old(markers), k + 1, 1) && AllNonEmpty(list)
    {
      SplitLen(list, k, diff);
      list, markers := Split(list, k, diff), ShiftAll(markers, k + 1, 1);
    }

    /** The last item before position `p` that is not deleted, with where it begins. */
    method LiveBefore(p0: nat, index0: nat) returns (p: int, index: nat)
      requires p0 < |list| && index0 == Len(list, p0)
      ensures p == LiveAt(list, p0)
      ensures p >= 0 ==> !list[p].deleted && index == Len(list, p)
    {
      p, index := p0, index0;
      while p >= 0 && list[p].deleted
        invariant -1 <= p <= p0 && (p >= 0 ==> index == Len(list, p))
        invariant LiveAt(list, p0) == if p < 0 then -1 else LiveAt(list, p)
      {
        p := p - 1;
        if p >= 0 {
          ContentNext(list, p);
          if !list[p].deleted {
            index := index - |list[p].content|;
          }
        }
      }
    }

    /** `mergeWith`: merges the item at `k` into the one before it; markers of the right item
        go to the joined one. */
    method MergeWith(k: nat)
      requires Valid() && 0 < k < |list| && Continues(list, k) && list[k - 1].deleted == list[k].deleted
      modifies this`list, this`markers
      ensures Valid() && list == Merged(old(list), k) && Content(list) == Content(old(list))
    {
      MergeContent(list, k);
      var i: nat := 0;
      var len := if list[k].deleted then 0 else |list[k - 1].content|;
      ghost var ms := markers;
      while i < |markers|
        invariant list == old(list) && i <= |markers| == |ms| && markers[i..] == ms[i..]
        invariant forall j :: 0 <= j < i ==> MarkerIs(Merged(list, k), markers[j])
      {
        assert markers[i] == markers[i..][0] == ms[i] && MarkerIs(list, ms[i]);
        MergeMarker(list, k, ms[i]);
        markers := markers[i := MergedMarker(markers[i], k, len)];
        i := i + 1;
      }
      list := Merged(list, k);
    }

    /** `updateMarkerChanges` before an insertion: the markers move to visible items, and
        those at or right of the index move on. */
    method MarkersBeforeInsert(index: nat, len: nat)
      requires Valid() && len > 0
      modifies this`markers, this`flags
      ensures forall m <- markers ::
        m.at < |list| && !list[m.at].deleted && m.index == Moved(Len(list, m.at), index, len)
      ensures AllAt(list, old(markers)) && markers == BeforeInsert(list, old(markers), old(flags), index, len)
    {
      forall m | m in markers ensures m.at < |list| {
        var j :| 0 <= j < |markers| && markers[j] == m;
        assert MarkerIs(list, markers[j]);
      }
      hide BeforeInsert, Content, LiveAt, Moved;
      ghost var ms, tail: seq<Marker> := markers, [];
      var i: nat := |markers|;
      assert ms[..i] == ms;
      while i > 0
        invariant i <= |ms| && markers == ms[..i] + tail
        invariant forall m <- tail :: MarkerMoved(list, m, index, len)
        invariant BeforeInsert(list, ms, old(flags), index, len) ==
          BeforeInsert(list, ms[..i], flags, index, len) + tail
      {
        i := i - 1;
        var m := markers[i];
        assert m == ms[i] && MarkerIs(list, ms[i]);
        BeforeLast(list, ms, i, flags, index, len);
        flags := flags - {list[m.at].id};
        var p, mindex := LiveBefore(m.at, m.index);
        if p < 0 || list[p].id in flags {
          WithoutLast(ms, i, tail, m);
          markers := markers[..i] + markers[i + 1..];
        } else {
          flags := flags + {list[p].id};
          var moved := Marker(p, Moved(mindex, index, len), m.timestamp);
          WithoutLast(ms, i, tail, moved);
          markers := markers[i := moved];
          Associative(BeforeInsert(list, ms[..i], flags, index, len), [moved], tail);
          tail := [moved] + tail;
        }
      }
      assert BeforeInsert(list, ms[..0], flags, index, len) == [] by {
        BeforeNone(list, ms[..0], flags, index, len);
      }
    }

    /** `updateMarkerChanges` after a deletion. */
    method MarkersAfterDelete(index: nat, len: nat)
      modifies this`markers
      ensures markers == MovedAll(old(markers), index, len)
    {
      var i: nat := |markers|;
      while i > 0
        invariant i <= |markers| == |old(markers)|
        invariant markers[..i] == old(markers)[..i] && markers[i..] == MovedAll(old(markers), index, len)[i..]
      {
        i := i - 1;
        var m := markers[i];
        markers := markers[i := m.(index := Moved(m.index, index, 0 - len))];
      }
    }

    /** Inserts the new items in front of position `k`, where the index is. */
    method InsertItems(k: nat, index: nat, news: seq<Node<T>>)
      requires Valid() && k <= |list| && Len(list, k) == index <= |Content(list)| && AllLive(news)
      requires k > 0 ==> !list[k - 1].deleted
      modifies this
      ensures Valid() && Content(list) == Content(old(list))[..index] + Content(news) + Content(old(list))[index..]
      ensures list == Inserted(old(list), k, news)
      ensures AllAt(old(list), old(markers)) && markers == ShiftAll(
        if |Content(news)| == 0 then old(markers)
        else BeforeInsert(old(list), old(markers), old(flags), index, |Content(news)|), k, |news|)
    {
      MoveMarkers(k, index, news);
      InsertContent(list, k, news);
      ContentSlices(list, k);
      InsertNonEmpty(list, k, news);
      list, markers := Inserted(list, k, news), ShiftAll(markers, k, |news|);
    }

    /** Markers that will be right once the items are inserted. */
    method MoveMarkers(k: nat, index: nat, news: seq<Node<T>>)
      requires Valid() && k <= |list| && Len(list, k) == index && (k > 0 ==> !list[k - 1].deleted)
      modifies this`markers, this`flags
      ensures MarkersAre(Inserted(list, k, news), ShiftAll(markers, k, |news|))
      ensures AllAt(list, old(markers)) && markers ==
        if |Content(news)| == 0 then old(markers)
        else BeforeInsert(list, old(markers), old(flags), index, |Content(news)|)
    {
      ghost var t, len := Inserted(list, k, news), |Content(news)|;
      if |Content(news)| > 0 {
        MarkersBeforeInsert(index, |Content(news)|);
        forall i | 0 <= i < |markers| ensures MarkerIs(t, Shift(markers[i], k, |news|)) {
          assert markers[i] in markers && MarkerMoved(list, markers[i], index, len);
          MarkerInserted(list, k, index, news, markers[i]);
        }
      } else {
        forall i | 0 <= i < |markers| ensures MarkerIs(t, Shift(markers[i], k, |news|)) {
          NothingInserted(list, k, news, markers[i]);
        }
      }
    }

    /** The item that an insertion at the index follows, split if the index is inside it. */
    method FindInsert(index: nat) returns (n: nat)
      requires Valid() && 0 < index <= |Content(list)|
      modifies this
      ensures Valid() && n < |list| && !list[n].deleted && Len(list, n + 1) == index
      ensures Content(list) == Content(old(list)) && list == CutAt(old(list), index)
    {
      hide MarkersAre, CutAt, Content, Split, Found;
      StartLen(list);
      var found, p, pindex := FindMarker(index);
      var rest := index - pindex;
      if rest == 0 {
        p, rest := Prev(p, index);
      }
      n := Seek(p, rest, index);
      rest := index - Len(list, n);
      ContentNext(list, n);
      if rest < |list[n].content| {
        CutsHere(list, n, index);
        Cut(n, rest);
      } else {
        CutsNothing(list, n + 1, index);
      }
      ContentNext(list, n);
    }

    /** `prev`: the item before `p` that is not deleted, and its length. */
    method Prev(p0: nat, index: nat) returns (p: nat, rest: nat)
      requires AllNonEmpty(list) && p0 < |list| && Len(list, p0) == index > 0
      ensures p < |list| && !list[p].deleted && Len(list, p) + rest == index && rest == |list[p].content|
    {
      p := p0;
      assert list[..0] == [];
      assert p > 0;
      p := p - 1;
      ContentNext(list, p);
      while list[p].deleted
        invariant p < |list| && Len(list, p + 1) == index
        decreases p
      {
        ContentNext(list, p);
        assert p > 0;
        p := p - 1;
      }
      ContentNext(list, p);
      rest := |list[p].content|;
    }

    /** The first item from `n0` on that reaches the index. */
    method Seek(n0: nat, rest0: nat, index: nat) returns (n: nat)
      requires AllNonEmpty(list) && n0 <= |list| && Len(list, n0) + rest0 == index <= |Content(list)| && rest0 > 0
      ensures n < |list| && !list[n].deleted && Len(list, n) < index <= Len(list, n) + |list[n].content|
    {
      n := n0;
      var rest := rest0;
      LenEnd(list);
      while n < |list|
        invariant n <= |list| && rest > 0 && Len(list, n) + rest == index
      {
        ContentNext(list, n);
        if !list[n].deleted {
          if rest <= |list[n].content| {
            return;
          }
          rest := rest - |list[n].content|;
        }
        n := n + 1;
      }
    }

    /** Splits an item; what the array holds and all markers stay right. */
    method Cut(k: nat, diff: nat)
      requires Valid() && k < |list| && 0 < diff < |list[k].content|
      modifies this`list, this`markers
      ensures Valid() && list == Split(old(list), k, diff) && markers == ShiftAll(old(markers), k + 1, 1)
      ensures Content(list) == Content(old(list)) && Len(list, k) == Len(old(list), k)
      ensures |list| == |old(list)| + 1 && list[k] == LeftPart(old(list)[k], diff)
    {
      forall i | 0 <= i < |markers| ensures MarkerIs(Split(list, k, diff), Shift(markers[i], k + 1, 1)) {
        SplitMarker(list, k, diff, markers[i]);
      }
      SplitContent(list, k, diff);
      SplitItem(k, diff);
      assert list[..k] == old(list)[..k];
    }

    /** `typeListInsertGenerics`: inserts at the index, or fails past the end. */
    method InsertAt(index: nat, news: seq<Node<T>>) returns (ok: bool)
      requires Valid() && AllLive(news)
      modifies this
      ensures Valid() && ok == (index <= |old(Content(list))|)
      ensures Content(list) ==
        if ok then old(Content(list))[..index] + Content(news) + old(Content(list))[index..] else old(Content(list))
      ensures if ok then InsertedTo(old(list), index, news, list) else list == old(list)
    {
      hide CutAt;
      if index > |Content(list)| {
        return false;
      }
      if index == 0 {
        assert list[..0] == [];
        CutsNothing(list, 0, 0);
        assert SpotAt(list, 0, 0);
        InsertItems(0, 0, news);
      } else {
        var n := FindInsert(index);
        assert SpotAt(list, n + 1, index);
        InsertItems(n + 1, index, news);
      }
      return true;
    }

    /** The first item to be deleted: the one that begins at the index, after a split if
        the index is inside an item. */
    method FindDelete(index: nat) returns (n: nat, rest: nat)
      requires Valid()
      modifies this
      ensures Valid() && n <= |list| && Content(list) == Content(old(list)) && Len(list, n) + rest == index
      ensures rest > 0 <==> |Content(list)| < index
      ensures SameIndices(Found(old(list), old(markers), old(time), index), markers)
      ensures list == CutAt(old(list), index)
    {
      hide CutAt, Content, Found, MarkersAre;
      var found, p, pindex := FindMarker(index);
      ghost var ms := markers;
      n, rest := 0, index;
      StartLen(list);
      if found {
        n, rest := p, index - pindex;
      }
      while n < |list| && rest > 0
        invariant Valid() && n <= |list| && Content(list) == Content(old(list)) && Len(list, n) + rest == index
        invariant SameIndices(ms, markers)
        invariant list == old(list) || (rest == 0 && list == CutAt(old(list), index))
        decreases |list| - n + rest
      {
        n, rest := PassItem(n, rest);
      }
      ContentParts(list, n);
      LenEnd(list);
      if list == old(list) {
        CutsNothing(list, n, index);
      }
    }

    /** Moves past an item, or past the part of it left of the index. */
    method PassItem(n0: nat, rest0: nat) returns (n: nat, rest: nat)
      requires Valid() && n0 < |list| && rest0 > 0
      modifies this`list, this`markers
      ensures Valid() && Content(list) == Content(old(list)) && n == n0 + 1 && n <= |list| && rest <= rest0
      ensures Len(list, n) + rest == Len(old(list), n0) + rest0 && |list| - n + rest < |old(list)| - n0 + rest0
      ensures SameIndices(old(markers), markers)
      ensures list == old(list) || (rest == 0 && list == CutAt(old(list), Len(old(list), n0) + rest0))
    {
      hide CutAt, Content, Split, MarkersAre;
      n, rest := n0, rest0;
      if !list[n].deleted {
        if rest < |list[n].content| {
          CutsHere(list, n, Len(list, n) + rest);
          Cut(n, rest);
        }
        rest := rest - |list[n].content|;
      }
      ContentNext(list, n);
      n := n + 1;
    }

    /** Deletes one item, or the part of it that is to be deleted. */
    method DeleteItem(n0: nat, index: nat, length: nat, rest0: nat, ghost c: seq<T>) returns (n: nat, rest: nat)
      requires n0 < |list| && 0 < rest0 <= length && AllNonEmpty(list) && DeletedTo(list, n0, c, index, length - rest0)
      requires AllDeleting(list, markers, n0, index, length - rest0)
      modifies this`list, this`markers
      ensures n == n0 + 1 && n <= |list| && rest <= rest0 && AllNonEmpty(list)
      ensures DeletedTo(list, n, c, index, length - rest)
      ensures |list| - n + rest < |old(list)| - n0 + rest0
      ensures AllDeleting(list, markers, n, index, length - rest) && SameIndices(old(markers), markers)
      ensures RemovesNext(old(list), n0, rest0, rest, list)
    {
      SplitForDelete(n0, index, length - rest0, rest0, c);
      n, rest := RemoveItem(n0, index, length - rest0, rest0, c);
    }

    /** Deletes one whole item. */
    method RemoveItem(n0: nat, ghost index: nat, ghost done: nat, rest0: nat, ghost c: seq<T>)
      returns (n: nat, rest: nat)
      requires n0 < |list| && AllNonEmpty(list) && DeletedTo(list, n0, c, index, done)
      requires AllDeleting(list, markers, n0, index, done) && (list[n0].deleted || |list[n0].content| <= rest0)
      modifies this`list
      ensures n == n0 + 1 && n <= |list| && rest <= rest0 && AllNonEmpty(list)
      ensures DeletedTo(list, n, c, index, done + rest0 - rest)
      ensures |list| == |old(list)| && (rest == rest0 <==> old(list[n0].deleted))
      ensures AllDeleting(list, markers, n, index, done + rest0 - rest)
      ensures list == Removed(old(list), n0) && rest == rest0 - |Shown(old(list)[n0])|
    {
      hide Content, DeletedTo, AllDeleting;
      rest := rest0;
      RemovedTo(list, n0, c, index, done);
      AllDeletingNext(list, markers, n0, index, done);
      if !list[n0].deleted {
        rest := rest - |list[n0].content|;
      }
      list := Removed(list, n0);
      n := n0 + 1;
    }

    /** Splits an item of which only a part is to be deleted. */
    method SplitForDelete(n0: nat, ghost index: nat, ghost done: nat, rest: nat, ghost c: seq<T>)
      requires n0 < |list| && rest > 0 && AllNonEmpty(list) && DeletedTo(list, n0, c, index, done)
      requires AllDeleting(list, markers, n0, index, done)
      modifies this`list, this`markers
      ensures n0 < |list| && AllNonEmpty(list) && DeletedTo(list, n0, c, index, done)
      ensures AllDeleting(list, markers, n0, index, done)
      ensures SameIndices(old(markers), markers) && (list[n0].deleted || |list[n0].content| <= rest)
      ensures list == old(list) || (|list| == |old(list)| + 1 && !list[n0].deleted && |list[n0].content| == rest)
      ensures var n := old(list)[n0];
        list == if !n.deleted && rest < |n.content| then Split(old(list), n0, rest) else old(list)
    {
      if !list[n0].deleted && rest < |list[n0].content| {
        AllDeletingSplit(list, markers, n0, rest, index, done);
        SplitDeletedTo(list, n0, rest, c, index, done);
        SplitItem(n0, rest);
      }
    }

    /** Deletes items from position `n0` on, until `length` elements are deleted or the list
        ends.  The markers are not updated yet. */
    method DeleteItems(n0: nat, index: nat, length: nat) returns (n: nat, rest: nat)
      requires Valid() && n0 <= |list| && Len(list, n0) == index
      modifies this`list, this`markers
      ensures AllNonEmpty(list) && rest <= length && DeletedTo(list, n, old(Content(list)), index, length - rest)
      ensures n <= |list| && (rest > 0 ==> n == |list|)
      ensures AllDeleting(list, markers, n, index, length - rest) && SameIndices(old(markers), markers)
      ensures list == WipedRange(CutAt(old(list), index + length), index, index + length)
    {
      hide CutAt, WipedRange, Wiping;
      ghost var c, list0, base := Content(list), list, list;
      WipingStart(list, n0, index, length);
      n, rest := n0, length;
      forall i | 0 <= i < |markers| ensures Deleting(list, n, markers[i], index, 0) {
        NotDeleted(list, n, markers[i]);
      }
      ContentSlices(list, n);
      while rest > 0 && n < |list|
        invariant n <= |list| && rest <= length && AllNonEmpty(list) && DeletedTo(list, n, c, index, length - rest)
        invariant AllDeleting(list, markers, n, index, length - rest) && SameIndices(old(markers), markers)
        invariant Wiping(list0, base, n0, n, index, length, rest, list)
        decreases |list| - n + rest
      {
        ghost var n1, rest1, list1 := n, rest, list;
        n, rest := DeleteItem(n, index, length, rest, c);
        base := WipingNext(list0, base, n0, n1, index, length, rest1, list1, rest, list);
      }
      WipingEnd(list0, base, n0, n, index, length, rest, list);
    }

    /** `typeListDelete`.  Past the end of the array it deletes what there is and fails
        before the markers are updated.  They are still right exactly if nothing was deleted,
        or if no marker that `findMarker` leaves begins behind the index. */
    method DeleteAt(index: nat, length: nat) returns (ok: bool)
      requires Valid()
      modifies this
      ensures ok == (length == 0 || index + length <= |old(Content(list))|)
      ensures Content(list) == Cutout(old(Content(list)), index, length)
      ensures list == if length == 0 then old(list) else DeletedFrom(old(list), index, length)
      ensures AllNonEmpty(list) && (ok ==> Valid())
      ensures !ok ==> (Valid() <==>
        index > |old(Content(list))| || NoneBehind(Found(old(list), old(markers), old(time), index), index))
    {
      hide CutAt, WipedRange, Content, MarkersAre, Found, AllDeleting, DeletedTo, MovedAll;
      if length == 0 {
        return true;
      }
      ghost var c, list0 := Content(list), list;
      var n, rest := FindDelete(index);
      if rest > 0 {
        NothingWiped(list0, list, index, length);
        NotBeyond(list, markers, index);
        return false;
      }
      var left;
      n, left := DeleteItems(n, index, length);
      DeletedContent(list, n, c, index, length, left);
      if left > 0 {
        StaleMarkers(list, markers, n, index, length - left);
        return false;
      }
      UpdatedMarkers(list, markers, n, index, length);
      MarkersAfterDelete(index, length);
      return true;
    }
  }

  // ----- Markers that are wrong after a deletion that fails -----

  /** Two items, and a marker at the second one. */
  function StaleList(): seq<Node<char>> {
    [Node(ID(1, 0), ['a', 'b', 'c', 'd'], false), Node(ID(2, 0), ['e', 'f'], false)]
  }

  lemma StaleContent()
    ensures Content(StaleList()) == ['a', 'b', 'c', 'd', 'e', 'f'] && Len(StaleList(), 1) == 4
    ensures Len(StaleList(), 0) == 0
  {
    var s := StaleList();
    assert s[..2] == s && s[..1] == [s[0]] && s[..0] == [];
    ContentNext(s, 0);
    ContentNext(s, 1);
  }

  /** `findMarker` leaves the marker as it is and adds one at the start. */
  lemma StaleFound()
    ensures MarkersAre(StaleList(), [Marker(1, 4, 0)])
    ensures Found(StaleList(), [Marker(1, 4, 0)], 1, 1) == [Marker(1, 4, 1), Marker(0, 0, 2)]
  {
    StaleContent();
    var s, ms := StaleList(), [Marker(1, 4, 0)];
    assert MarkerIs(s, ms[0]);
    assert RightFrom(s, 1, 1) == 1 && LeftFrom(s, 1, 1) == LeftFrom(s, 0, 1) == 0 && FirstPart(s, 0) == 0;
    assert ms[0 := Marker(1, 4, 1)] == [Marker(1, 4, 1)];
  }

  /** Deleting 10 elements at index 1 of this array of 6 deletes 5 of them and fails; the
      marker keeps index 4, although one element is left. */
  method StaleExample() returns (a: YArray<char>, ok: bool)
    ensures !ok && Content(a.list) == ['a'] && !a.Valid()
  {
    a := new YArray<char>;
    a.list, a.markers, a.flags, a.time := StaleList(), [Marker(1, 4, 0)], {ID(2, 0)}, 1;
    StaleContent();
    StaleFound();
    ghost var ms := Found(a.list, a.markers, a.time, 1);
    assert ms[0].index == 4 && !NoneBehind(ms, 1);
    ok := a.DeleteAt(1, 10);
  }

  /** A content without the elements from the index on. */
  function Cutout<T>(c: seq<T>, index: nat, length: nat): seq<T> {
    c[..Min(index, |c|)] + c[Min(index + length, |c|)..]
  }

  lemma DeletedContent<T>(list: seq<Node<T>>, n: nat, c: seq<T>, index: nat, length: nat, left: nat)
    requires left <= length && DeletedTo(list, n, c, index, length - left) && (left > 0 ==> n == |list|)
    ensures Content(list) == Cutout(c, index, length) && (left > 0 ==> index + length - left == |c|)
    ensures index + length - left <= |c|
  {
    hide Content, Cutout;
    var done := length - left;
    ContentParts(list, n);
    if left > 0 {
      NothingAfter(list, c[index + done..]);
      assert index + done == |c|;
    }
    CutoutIs(c, index, length, done);
  }

  lemma NothingAfter<T>(list: seq<Node<T>>, z: seq<T>)
    requires Content(list[|list|..]) == z
    ensures |z| == 0
  {
    assert |list[|list|..]| == 0;
  }

  lemma CutoutIs<T>(c: seq<T>, index: nat, length: nat, done: nat)
    requires done <= length && index + done <= |c| && (done < length ==> index + done == |c|)
    ensures Cutout(c, index, length) == c[..index] + c[index + done..]
  {
  }

  lemma NotBeyond<T>(list: seq<Node<T>>, ms: seq<Marker>, index: nat)
    requires MarkersAre(list, ms) && |Content(list)| < index
    ensures forall i :: 0 <= i < |ms| ==> ms[i].index <= index
    ensures Cutout(Content(list), index, 0) == Content(list)
  {
    forall i | 0 <= i < |ms| ensures ms[i].index <= index {
      assert MarkerIs(list, ms[i]);
      ContentParts(list, ms[i].at);
    }
  }

  lemma StaleMarkers<T>(list: seq<Node<T>>, ms: seq<Marker>, n: nat, index: nat, done: nat)
    requires n == |list| && AllDeleting(list, ms, n, index, done)
    ensures MarkersAre(list, ms) <==> NoneBehind(ms, index)
  {
    forall i | 0 <= i < |ms| ensures MarkerIs(list, ms[i]) <==> ms[i].index <= index {
      assert Deleting(list, n, ms[i], index, done);
    }
  }

  lemma UpdatedMarkers<T>(list: seq<Node<T>>, ms: seq<Marker>, n: nat, index: nat, length: nat)
    requires n <= |list| && AllDeleting(list, ms, n, index, length)
    ensures MarkersAre(list, MovedAll(ms, index, length))
  {
    forall i | 0 <= i < |ms| ensures MarkerIs(list, ms[i].(index := Moved(ms[i].index, index, 0 - length))) {
      assert Deleting(list, n, ms[i], index, length);
      UpdatedMarker(list, n, ms[i], index, length);
    }
  }

  lemma AllDeletingNext<T>(list: seq<Node<T>>, ms: seq<Marker>, n: nat, index: nat, done: nat)
    requires n < |list| && Len(list, n) == index && AllDeleting(list, ms, n, index, done)
    ensures AllDeleting(Removed(list, n), ms, n + 1, index, done + |Shown(list[n])|)
  {
    forall i | 0 <= i < |ms| ensures Deleting(Removed(list, n), n + 1, ms[i], index, done + |Shown(list[n])|) {
      DeletingNext(list, n, ms[i], index, done);
    }
  }

  lemma AllDeletingSplit<T>(list: seq<Node<T>>, ms: seq<Marker>, n: nat, diff: nat, index: nat, done: nat)
    requires n < |list| && 0 < diff < |list[n].content| && AllDeleting(list, ms, n, index, done)
    ensures AllDeleting(Split(list, n, diff), ShiftAll(ms, n + 1, 1), n, index, done)
  {
    forall i | 0 <= i < |ms| ensures Deleting(Split(list, n, diff), n, Shift(ms[i], n + 1, 1), index, done) {
      DeletingSplit(list, n, diff, ms[i], index, done);
    }
  }

  lemma UpdatedMarker<T>(list: seq<Node<T>>, n: nat, m: Marker, index: nat, length: nat)
    requires n <= |list| && Deleting(list, n, m, index, length)
    ensures MarkerIs(list, m.(index := Moved(m.index, index, 0 - length)))
  {
  }

  /** The content left of `n` ends at the index; what follows is what came after the
      deleted elements. */
  ghost predicate DeletedTo<T>(list: seq<Node<T>>, n: nat, c: seq<T>, index: nat, done: nat) {
    && n <= |list| && index + done <= |c| && Content(list[..n]) == c[..index] && Content(list[n..]) == c[index + done..]
  }

  /** A marker while items are deleted: its index is still the old one. */
  predicate Deleting<T>(list: seq<Node<T>>, n: nat, m: Marker, index: nat, done: nat) {
    && m.at < |list|
    && if m.at < n then Len(list, m.at) == Min(m.index, index) && m.index <= index + done
       else m.index == Len(list, m.at) + done && Len(list, m.at) >= index
  }

  /** `delete`. */
  function Removed<T>(list: seq<Node<T>>, n: nat): seq<Node<T>>
    requires n < |list|
  {
    list[n := list[n].(deleted := true)]
  }

  lemma RemovedLen<T>(list: seq<Node<T>>, n: nat, at: nat)
    requires n < |list| && at <= |list|
    ensures Len(Removed(list, n), at) == Len(list, at) - (if at <= n then 0 else |Shown(list[n])|)
  {
    var t := Removed(list, n);
    if at <= n {
      assert t[..at] == list[..at];
    } else {
      var z := list[n + 1..at];
      assert t[..at] == t[..n + 1] + z && list[..at] == list[..n + 1] + z;
      ContentConcat(t[..n + 1], z);
      ContentConcat(list[..n + 1], z);
      assert t[..n] == list[..n];
      ContentNext(t, n);
      ContentNext(list, n);
    }
  }

  lemma DeletingNext<T>(list: seq<Node<T>>, n: nat, m: Marker, index: nat, done: nat)
    requires n < |list| && Len(list, n) == index && Deleting(list, n, m, index, done)
    ensures Deleting(Removed(list, n), n + 1, m, index, done + |Shown(list[n])|)
  {
    RemovedLen(list, n, m.at);
    if m.at > n {
      ContentNext(list, n);
      LenMonotone(list, n + 1, m.at);
    }
  }

  lemma RemovedTo<T>(list: seq<Node<T>>, n: nat, c: seq<T>, index: nat, done: nat)
    requires n < |list| && DeletedTo(list, n, c, index, done)
    ensures DeletedTo(Removed(list, n), n + 1, c, index, done + |Shown(list[n])|)
    ensures Len(list, n) == index
  {
    var t := Removed(list, n);
    assert t[..n] == list[..n] && t[n + 1..] == list[n + 1..];
    ContentNext(t, n);
    assert list[n..] == [list[n]] + list[n + 1..];
    ContentConcat([list[n]], list[n + 1..]);
    OneNode(list[n]);
    assert c[index + done..][|Shown(list[n])|..] == c[index + done + |Shown(list[n])|..];
  }

  lemma DeletingSplit<T>(list: seq<Node<T>>, n: nat, diff: nat, m: Marker, index: nat, done: nat)
    requires n < |list| && 0 < diff < |list[n].content| && Deleting(list, n, m, index, done)
    ensures Deleting(Split(list, n, diff), n, Shift(m, n + 1, 1), index, done)
  {
    SplitMarker(list, n, diff, m.(index := Len(list, m.at)));
  }

  lemma SplitDeletedTo<T>(list: seq<Node<T>>, n: nat, diff: nat, c: seq<T>, index: nat, done: nat)
    requires n < |list| && 0 < diff < |list[n].content| && DeletedTo(list, n, c, index, done)
    ensures DeletedTo(Split(list, n, diff), n, c, index, done)
  {
    var t := Split(list, n, diff);
    assert t[..n] == list[..n];
    SplitContent(list[n..], 0, diff);
    assert t[n..] == Split(list[n..], 0, diff);
  }

  lemma NotDeleted<T>(list: seq<Node<T>>, n: nat, m: Marker)
    requires n <= |list| && MarkerIs(list, m)
    ensures Deleting(list, n, m, Len(list, n), 0)
  {
    if m.at < n {
      LenMonotone(list, m.at, n);
    } else {
      LenMonotone(list, n, m.at);
    }
  }

  function Merged<T>(list: seq<Node<T>>, k: nat): seq<Node<T>>
    requires 0 < k < |list|
  {
    list[..k - 1] + [list[k - 1].(content := list[k - 1].content + list[k].content)] + list[k + 1..]
  }

  /** Merging undoes a split, and so changes neither content nor lengths. */
  lemma MergeSplit<T>(list: seq<Node<T>>, k: nat)
    requires AllNonEmpty(list) && 0 < k < |list| && Continues(list, k) && list[k - 1].deleted == list[k].deleted
    ensures AllNonEmpty(Merged(list, k)) && |Merged(list, k)| == |list| - 1
    ensures |list[k - 1].content| < |Merged(list, k)[k - 1].content|
    ensures Split(Merged(list, k), k - 1, |list[k - 1].content|) == list
  {
    var t, d := Merged(list, k), |list[k - 1].content|;
    var n := t[k - 1];
    assert n.content[..d] == list[k - 1].content && n.content[d..] == list[k].content;
    assert LeftPart(n, d) == list[k - 1] && RightPart(n, d) == list[k];
    assert t[..k - 1] == list[..k - 1] && t[k..] == list[k + 1..];
    assert list == list[..k - 1] + [list[k - 1], list[k]] + list[k + 1..];
  }

  lemma MergeContent<T>(list: seq<Node<T>>, k: nat)
    requires AllNonEmpty(list) && 0 < k < |list| && Continues(list, k) && list[k - 1].deleted == list[k].deleted
    ensures AllNonEmpty(Merged(list, k)) && Content(Merged(list, k)) == Content(list)
  {
    MergeSplit(list, k);
    SplitContent(Merged(list, k), k - 1, |list[k - 1].content|);
  }

  /** A marker after the merge; `len` is the visible length of the left item. */
  function MergedMarker(m: Marker, k: nat, len: nat): Marker
    requires k > 0
  {
    if m.at == k then m.(at := k - 1, index := if len <= m.index then m.index - len else 0)
    else if m.at > k then m.(at := m.at - 1)
    else m
  }

  lemma MergeMarker<T>(list: seq<Node<T>>, k: nat, m: Marker)
    requires AllNonEmpty(list) && 0 < k < |list| && Continues(list, k) && list[k - 1].deleted == list[k].deleted
    requires MarkerIs(list, m)
    ensures MarkerIs(Merged(list, k), MergedMarker(m, k, |Shown(list[k - 1])|))
  {
    var t := Merged(list, k);
    if m.at < k {
      assert t[..m.at] == list[..m.at];
    } else if m.at == k {
      assert t[..k - 1] == list[..k - 1];
      ContentNext(list, k - 1);
    } else {
      MergeLen(list, k, m.at);
    }
  }

  lemma MergeLen<T>(list: seq<Node<T>>, k: nat, at: nat)
    requires AllNonEmpty(list) && 0 < k < at < |list| && Continues(list, k) && list[k - 1].deleted == list[k].deleted
    ensures Len(Merged(list, k), at - 1) == Len(list, at)
  {
    var t := Merged(list, k);
    MergeSplit(list, k);
    SplitMarker(t, k - 1, |list[k - 1].content|, Marker(at - 1, Len(t, at - 1), 0));
  }

  predicate AllLive<T>(news: seq<Node<T>>) {
    forall i :: 0 <= i < |news| ==> |news[i].content| > 0 && !news[i].deleted
  }

  /** A marker at a visible item is left of the insertion exactly if it begins before the index. */
  lemma SideOfInsert<T>(list: seq<Node<T>>, k: nat, index: nat, at: nat)
    requires k <= |list| && at < |list| && Len(list, k) == index
    requires (k > 0 ==> !list[k - 1].deleted && |list[k - 1].content| > 0)
    ensures at < k <==> Len(list, at) < index
  {
    if at < k {
      ContentNext(list, k - 1);
      LenMonotone(list, at, k - 1);
    } else {
      LenMonotone(list, k, at);
    }
  }

  /** Where a marker stands after an insertion, and how much is visible left of it. */
  lemma ShiftedLen<T>(list: seq<Node<T>>, k: nat, news: seq<Node<T>>, m: Marker, count: nat)
    requires k <= |list| && m.at < |list| && count == |Content(news)|
    ensures Shift(m, k, |news|).at < |Inserted(list, k, news)|
    ensures Len(Inserted(list, k, news), Shift(m, k, |news|).at) == Len(list, m.at) + if m.at < k then 0 else count
  {
    InsertLen(list, k, news, m.at);
  }

  /** A marker that was moved is right once the items are inserted. */
  lemma MarkerInserted<T>(list: seq<Node<T>>, k: nat, index: nat, news: seq<Node<T>>, m: Marker)
    requires k <= |list| && Len(list, k) == index && (k > 0 ==> !list[k - 1].deleted && |list[k - 1].content| > 0)
    requires |Content(news)| > 0 && MarkerMoved(list, m, index, |Content(news)|)
    ensures MarkerIs(Inserted(list, k, news), Shift(m, k, |news|))
  {
    SideOfInsert(list, k, index, m.at);
    ShiftedLen(list, k, news, m, |Content(news)|);
  }

  lemma InsertNonEmpty<T>(list: seq<Node<T>>, k: nat, news: seq<Node<T>>)
    requires k <= |list| && AllNonEmpty(list) && AllLive(news)
    ensures AllNonEmpty(Inserted(list, k, news))
  {
  }

  lemma NothingInserted<T>(list: seq<Node<T>>, k: nat, news: seq<Node<T>>, m: Marker)
    requires k <= |list| && |Content(news)| == 0 && MarkerIs(list, m)
    ensures MarkerIs(Inserted(list, k, news), Shift(m, k, |news|))
  {
    ShiftedLen(list, k, news, m, 0);
  }

  /** Where a marker at `x` begins after a change of `len` at `index`. */
  function Moved(x: nat, index: nat, len: int): nat {
    if index < x || (len > 0 && index == x) then if x + len < index then index else x + len
    else x
  }

  function MovedAll(ms: seq<Marker>, index: nat, len: nat): seq<Marker> {
    seq(|ms|, i requires 0 <= i < |ms| => ms[i].(index := Moved(ms[i].index, index, 0 - len)))
  }

  predicate MarkerMoved<T>(list: seq<Node<T>>, m: Marker, index: nat, len: nat) {
    m.at < |list| && !list[m.at].deleted && m.index == Moved(Len(list, m.at), index, len)
  }
}
