/** The conflict scan, on positions. */
module Arcs {
  // An item of the list stands between its origin and its right origin; `left` and
  // `right` are the positions of those two, -1 and |a| for the ends of the list.
  // Everything the scan decides depends on these numbers only.

  datatype Arc = Arc(left: int, right: int, client: nat, clock: nat)

  /** The `while` loop of `integrate`: `o` is the position being looked at and `left` the
      one that the new item will follow.  What lies between the new item's origin and `o`
      is `itemsBeforeOrigin`, what lies between `left` and `o` is `conflictingItems`. */
  function Scan(a: seq<Arc>, x: Arc, o: nat, left: int): int
    requires o <= |a|
    decreases |a| - o
  {
    if o == |a| || o == x.right then left
    else if a[o].left == x.left then
      if a[o].client < x.client then Scan(a, x, o + 1, o)
      else if a[o].right == x.right then left
      else Scan(a, x, o + 1, left)
    else if x.left < a[o].left <= o then
      Scan(a, x, o + 1, if a[o].left <= left then o else left)
    else left
  }

  /** What relates two items, the one at `i` standing before the one at `j`. */
  predicate Ordered(a: seq<Arc>, i: nat, j: nat)
    requires i < j < |a|
  {
    // what stands between an item and its origin descends from that origin
    && (i <= a[j].left || a[j].left <= a[i].left)
    // siblings ascend by client, except where a right origin separates them
    && (a[i].left == a[j].left ==> a[i].right <= j || a[i].client < a[j].client)
  }

  /** What relates an item to the two neighbours that its creator saw. */
  predicate Anchored(a: seq<Arc>, x: Arc) {
    && -1 <= x.left < x.right <= |a|
    // the right origin is a sibling, or stands outside of the origin's descendants
    && (x.right < |a| ==> a[x.right].left <= x.left)
    // the creator put the item in front of its own earlier siblings
    && (forall j :: 0 <= j < |a| ==> InFront(a, x, j))
  }

  predicate InFront(a: seq<Arc>, x: Arc, j: nat)
    requires j < |a|
  {
    a[j].left == x.left && a[j].client == x.client && a[j].clock < x.clock ==> x.right <= j
  }

  predicate Placed(a: seq<Arc>, i: nat)
    requires i < |a|
  {
    a[i].left < i < a[i].right && Anchored(a, a[i])
  }

  predicate Arranged(a: seq<Arc>) {
    && (forall i :: 0 <= i < |a| ==> Placed(a, i))
    && (forall i, j :: 0 <= i < j < |a| ==> Ordered(a, i, j))
  }

  predicate Newest(a: seq<Arc>, x: Arc) {
    forall i :: 0 <= i < |a| ==> NewerThan(a, x, i)
  }

  predicate NewerThan(a: seq<Arc>, x: Arc, i: nat)
    requires i < |a|
  {
    a[i].client == x.client ==> a[i].clock < x.clock
  }

  // ----- The place that the scan finds -----

  predicate FitsAt(a: seq<Arc>, x: Arc, k: int) {
    && -1 <= x.left < k <= x.right <= |a|
    && (forall i :: x.left < i < k ==> x.left <= a[i].left)
    && (forall j :: k <= j < |a| ==> k <= a[j].left || a[j].left <= x.left)
    && (forall i :: x.left < i < k && a[i].left == x.left ==> a[i].right < k || a[i].client < x.client)
    && (forall j :: k <= j < |a| && a[j].left == x.left ==> x.right <= j || x.client < a[j].client)
  }

  /** Loop invariant of the scan. */
  predicate Scanning(a: seq<Arc>, x: Arc, o: nat, left: int) {
    && -1 <= x.left <= left < o <= x.right <= |a|
    && (forall i :: x.left < i < o ==> x.left <= a[i].left)
    && (forall j :: left < j < o ==> left < a[j].left || (a[j].left == x.left && x.client <= a[j].client))
    && (forall i :: x.left < i <= left && a[i].left == x.left ==> a[i].right <= left || a[i].client < x.client)
  }

  /** The scan ends at the right origin or at the end of the list. */
  lemma StopAtRight(a: seq<Arc>, x: Arc, left: int)
    requires Arranged(a) && Anchored(a, x) && Newest(a, x) && Scanning(a, x, x.right, left)
    ensures FitsAt(a, x, left + 1)
  {
    KeepsApart(a, x, x.right, left);
    forall j | x.right <= j < |a| ensures x.right <= a[j].left || a[j].left <= x.left {
      assert x.right < j ==> Ordered(a, x.right, j);
    }
  }

  /** The scan ends at a sibling that shares both origins and has a higher client. */
  lemma StopAtTwin(a: seq<Arc>, x: Arc, o: nat, left: int)
    requires Arranged(a) && Anchored(a, x) && Newest(a, x)
    requires o < x.right && Scanning(a, x, o, left)
    requires a[o].left == x.left && a[o].right == x.right && x.client <= a[o].client
    ensures FitsAt(a, x, left + 1)
  {
    assert NewerThan(a, x, o) && InFront(a, x, o);
    forall j | o < j < |a|
      ensures o <= a[j].left || a[j].left <= x.left
      ensures a[j].left == x.left ==> x.right <= j || x.client < a[j].client
    {
      assert Ordered(a, o, j);
    }
    KeepsApart(a, x, o, left);
  }

  /** The siblings that were scanned but not passed have higher clients. */
  lemma KeepsApart(a: seq<Arc>, x: Arc, o: nat, left: int)
    requires Anchored(a, x) && Newest(a, x) && Scanning(a, x, o, left)
    ensures forall j :: left < j < o && a[j].left == x.left ==> x.client < a[j].client
  {
    forall j | left < j < o && a[j].left == x.left ensures x.client < a[j].client {
      assert NewerThan(a, x, j) && InFront(a, x, j);
    }
  }

  /** The scan ends at an item that does not descend from the origin. */
  lemma StopOutside(a: seq<Arc>, x: Arc, o: nat, left: int)
    requires Arranged(a) && Anchored(a, x) && Newest(a, x)
    requires o < x.right && Scanning(a, x, o, left) && a[o].left < x.left
    ensures FitsAt(a, x, left + 1)
  {
    forall j | o <= j < |a| ensures o <= a[j].left || a[j].left < x.left {
      assert o < j ==> Ordered(a, o, j);
    }
    KeepsApart(a, x, o, left);
  }

  /** A sibling with a lower client is passed, and everything before it is settled. */
  lemma PassSibling(a: seq<Arc>, x: Arc, o: nat, left: int)
    requires Arranged(a) && o < x.right && Scanning(a, x, o, left)
    requires a[o].left == x.left && a[o].client < x.client
    ensures Scanning(a, x, o + 1, o)
  {
    forall i | x.left < i < o && a[i].left == x.left ensures a[i].right <= o || a[i].client < x.client {
      assert Ordered(a, i, o);
    }
  }

  /** A descendant of something settled follows it directly. */
  lemma PassDescendant(a: seq<Arc>, x: Arc, o: nat, left: int)
    requires Arranged(a) && o < x.right && Scanning(a, x, o, left)
    requires x.left < a[o].left <= left
    ensures Scanning(a, x, o + 1, o)
  {
    assert left + 1 < o ==> Ordered(a, left + 1, o);
    assert left + 1 < o ==> Placed(a, left + 1);
  }

  /** An item that is neither passed nor stops the scan stays in conflict. */
  lemma StayInConflict(a: seq<Arc>, x: Arc, o: nat, left: int)
    requires o < x.right && Scanning(a, x, o, left)
    requires left < a[o].left || (a[o].left == x.left && x.client <= a[o].client)
    ensures Scanning(a, x, o + 1, left)
  {
  }

  lemma {:induction false} ScanFits(a: seq<Arc>, x: Arc, o: nat, left: int, k: int)
    requires Arranged(a) && Anchored(a, x) && Newest(a, x)
    requires o <= |a| && Scanning(a, x, o, left) && k == Scan(a, x, o, left) + 1
    ensures FitsAt(a, x, k)
    decreases |a| - o
  {
    assert o < |a| ==> Placed(a, o);
    if o == |a| || o == x.right {
      StopAtRight(a, x, left);
    } else if a[o].left == x.left {
      if a[o].client < x.client {
        PassSibling(a, x, o, left);
        ScanFits(a, x, o + 1, o, k);
      } else if a[o].right == x.right {
        StopAtTwin(a, x, o, left);
      } else {
        StayInConflict(a, x, o, left);
        ScanFits(a, x, o + 1, left, k);
      }
    } else if x.left < a[o].left <= o {
      if a[o].left <= left {
        PassDescendant(a, x, o, left);
        ScanFits(a, x, o + 1, o, k);
      } else {
        StayInConflict(a, x, o, left);
        ScanFits(a, x, o + 1, left, k);
      }
    } else {
      StopOutside(a, x, o, left);
    }
  }

  function Place(a: seq<Arc>, x: Arc): int
    requires -1 <= x.left < |a|
  {
    Scan(a, x, x.left + 1, x.left) + 1
  }

  lemma PlaceFits(a: seq<Arc>, x: Arc)
    requires Arranged(a) && Anchored(a, x) && Newest(a, x)
    ensures FitsAt(a, x, Place(a, x))
  {
    ScanFits(a, x, x.left + 1, x.left, Place(a, x));
  }

  // ----- Inserting keeps the arrangement -----

  function Shift(i: int, k: nat): int {
    if i < k then i else i + 1
  }

  function ShiftArc(e: Arc, k: nat): Arc {
    e.(left := Shift(e.left, k), right := Shift(e.right, k))
  }

  predicate Inserted(a: seq<Arc>, x: Arc, k: nat, b: seq<Arc>) {
    && k <= |a| && |b| == |a| + 1
    && b[k] == x.(right := x.right + 1)
    && (forall i :: 0 <= i < |a| ==> Carried(a, k, b, i))
  }

  predicate Carried(a: seq<Arc>, k: nat, b: seq<Arc>, i: nat)
    requires i < |a| && k <= |a| && |b| == |a| + 1
  {
    b[Shift(i, k)] == ShiftArc(a[i], k)
  }

  /** The position in the list before the insertion. */
  function Unshift(i: int, k: nat): int {
    if i < k then i else i - 1
  }

  lemma InsertedAt(a: seq<Arc>, x: Arc, k: nat, b: seq<Arc>, i: nat)
    requires Inserted(a, x, k, b) && i < |b|
    ensures b[i] == if i == k then x.(right := x.right + 1) else ShiftArc(a[Unshift(i, k)], k)
  {
    assert i != k ==> Carried(a, k, b, Unshift(i, k));
  }

  lemma OrderedAfter(a: seq<Arc>, x: Arc, k: nat, b: seq<Arc>, i: nat, j: nat)
    requires Arranged(a) && Newest(a, x) && FitsAt(a, x, k)
    requires Inserted(a, x, k, b) && i < j < |b|
    ensures Ordered(b, i, j)
  {
    InsertedAt(a, x, k, b, i);
    InsertedAt(a, x, k, b, j);
    if i != k && j != k {
      assert Ordered(a, Unshift(i, k), Unshift(j, k));
    } else if j == k {
      assert Placed(a, i);
    } else {
      assert Placed(a, j - 1);
    }
  }

  lemma InFrontAfter(a: seq<Arc>, x: Arc, k: nat, b: seq<Arc>, i: nat, j: nat)
    requires Arranged(a) && Anchored(a, x) && Newest(a, x) && x.left < k <= x.right
    requires Inserted(a, x, k, b) && i < |b| && j < |b|
    ensures InFront(b, b[i], j)
  {
    InsertedAt(a, x, k, b, i);
    InsertedAt(a, x, k, b, j);
    if i != k {
      assert Placed(a, Unshift(i, k)) && NewerThan(a, x, Unshift(i, k));
      assert j != k ==> InFront(a, a[Unshift(i, k)], Unshift(j, k));
    } else {
      assert j != k ==> InFront(a, x, Unshift(j, k));
    }
  }

  lemma PlacedAfter(a: seq<Arc>, x: Arc, k: nat, b: seq<Arc>, i: nat)
    requires Arranged(a) && Anchored(a, x) && Newest(a, x) && FitsAt(a, x, k)
    requires Inserted(a, x, k, b) && i < |b|
    ensures Placed(b, i)
  {
    InsertedAt(a, x, k, b, i);
    var e := if i == k then x else a[Unshift(i, k)];
    assert i != k ==> Placed(a, Unshift(i, k));
    if e.right < |a| {
      InsertedAt(a, x, k, b, Shift(e.right, k));
    }
    forall j | 0 <= j < |b| ensures InFront(b, b[i], j) {
      InFrontAfter(a, x, k, b, i, j);
    }
  }

  lemma InsertCanonical(a: seq<Arc>, x: Arc, k: nat, b: seq<Arc>)
    requires Arranged(a) && Anchored(a, x) && Newest(a, x) && FitsAt(a, x, k)
    requires Inserted(a, x, k, b)
    ensures Arranged(b)
  {
    forall i, j | 0 <= i < j < |b| ensures Ordered(b, i, j) {
      OrderedAfter(a, x, k, b, i, j);
    }
    forall i | 0 <= i < |b| ensures Placed(b, i) {
      PlacedAfter(a, x, k, b, i);
    }
  }
}
