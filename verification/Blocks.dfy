/** Items of any length. */
module Blocks {
  // The original stores a run of consecutively typed units as one item; `splitItem` and
  // `mergeWith` change the runs at will.  `Flatten` lists the units that a list of blocks
  // stands for, and the scan over blocks finds the place that the scan over units finds.

  import opened Arcs
  import opened Common
  import opened Yata

  datatype Block = Block(id: ID, len: nat, origin: Option<ID>, rightOrigin: Option<ID>, deleted: bool) {
    predicate Covers(i: ID) {
      i.client == id.client && id.clock <= i.clock < id.clock + len
    }

    function LastId(): ID
      requires len > 0
    {
      ID(id.client, id.clock + len - 1)
    }

    /** Each unit was inserted right after the one before it. */
    function Unit(k: nat): Item {
      Item(ID(id.client, id.clock + k),
           if k == 0 then origin else Some(ID(id.client, id.clock + k - 1)),
           rightOrigin)
    }

    function Units(): (u: seq<Item>)
      ensures |u| == len
    {
      seq(len, k requires 0 <= k => Unit(k))
    }

    function Marks(): (m: seq<bool>)
      ensures |m| == len
    {
      seq(len, _ => deleted)
    }
  }

  /** Number of units in front of the block at `i`. */
  function Off(bs: seq<Block>, i: nat): nat
    requires i <= |bs|
  {
    if i == 0 then 0 else Off(bs, i - 1) + bs[i - 1].len
  }

  /** The units of the first `i` blocks. */
  function FlattenTo(bs: seq<Block>, i: nat): (s: seq<Item>)
    requires i <= |bs|
    ensures |s| == Off(bs, i)
  {
    if i == 0 then [] else FlattenTo(bs, i - 1) + bs[i - 1].Units()
  }

  function Flatten(bs: seq<Block>): (s: seq<Item>)
    ensures |s| == Off(bs, |bs|)
  {
    FlattenTo(bs, |bs|)
  }

  predicate NonEmpty(bs: seq<Block>) {
    forall i :: 0 <= i < |bs| ==> bs[i].len > 0
  }

  lemma {:induction false} SamePrefix(a: seq<Block>, b: seq<Block>, i: nat)
    requires i <= |a| && i <= |b| && a[..i] == b[..i]
    ensures FlattenTo(a, i) == FlattenTo(b, i)
  {
    if i > 0 {
      assert a[i - 1] == a[..i][i - 1] == b[i - 1];
      assert a[..i - 1] == a[..i][..i - 1] == b[..i - 1];
      SamePrefix(a, b, i - 1);
    }
  }

  lemma Halves<T>(s: seq<T>, a: seq<T>, z: seq<T>)
    requires s == a + z
    ensures s[..|a|] == a && s[|a|..] == z
  {
  }

  lemma {:induction false} ConcatTo(a: seq<Block>, b: seq<Block>, j: nat)
    requires j <= |b|
    ensures FlattenTo(a + b, |a| + j) == Flatten(a) + FlattenTo(b, j)
  {
    if j == 0 {
      Halves(a + b, a, b);
      SamePrefix(a + b, a, |a|);
      assert Flatten(a) + [] == Flatten(a);
    } else {
      var s, n, last := a + b, |a| + j - 1, b[j - 1];
      ConcatTo(a, b, j - 1);
      assert s[n] == last;
      assert FlattenTo(s, n + 1) == FlattenTo(s, n) + last.Units();
      Associative(Flatten(a), FlattenTo(b, j - 1), last.Units());
    }
  }

  lemma FlattenConcat(a: seq<Block>, b: seq<Block>)
    ensures Flatten(a + b) == Flatten(a) + Flatten(b)
  {
    ConcatTo(a, b, |b|);
  }

  lemma OffPrefix(bs: seq<Block>, i: nat)
    requires i <= |bs|
    ensures |Flatten(bs[..i])| == Off(bs, i)
  {
    SamePrefix(bs, bs[..i], i);
  }

  lemma {:induction false} OffMonotone(bs: seq<Block>, i: nat, j: nat)
    requires i <= j <= |bs|
    ensures Off(bs, i) <= Off(bs, j) <= |Flatten(bs)|
    decreases |bs| - i
  {
    if i < |bs| {
      OffMonotone(bs, i + 1, if i < j then j else j + 1);
    }
  }

  /** The units of one block within the flattened list. */
  lemma {:induction false} UnitIn(bs: seq<Block>, i: nat, k: nat, j: nat)
    requires i < j <= |bs| && k < bs[i].len
    ensures Off(bs, i) + k < Off(bs, i + 1) <= Off(bs, j)
    ensures FlattenTo(bs, j)[Off(bs, i) + k] == bs[i].Unit(k)
    decreases j
  {
    if i < j - 1 {
      UnitIn(bs, i, k, j - 1);
    }
  }

  lemma UnitAt(bs: seq<Block>, i: nat, k: nat)
    requires i < |bs| && k < bs[i].len
    ensures Off(bs, i) + k < Off(bs, i + 1) <= |Flatten(bs)|
    ensures Flatten(bs)[Off(bs, i) + k] == bs[i].Unit(k)
  {
    UnitIn(bs, i, k, |bs|);
  }

  /** The block that holds the unit at position `u`. */
  lemma BlockOf(bs: seq<Block>, u: nat) returns (i: nat)
    requires u < |Flatten(bs)|
    ensures i < |bs| && Off(bs, i) <= u < Off(bs, i + 1)
  {
    i := |bs| - 1;
    while u < Off(bs, i)
      decreases i
      invariant 0 <= i < |bs| && u < Off(bs, i + 1)
    {
      i := i - 1;
    }
  }

  function FindFrom(bs: seq<Block>, id: ID, i: nat): (q: nat)
    requires i <= |bs|
    ensures i <= q <= |bs|
    ensures q < |bs| ==> bs[q].Covers(id)
    decreases |bs| - i
  {
    if i == |bs| || bs[i].Covers(id) then i else FindFrom(bs, id, i + 1)
  }

  /** `getItem`: the block that contains an id, |bs| when there is none. */
  function FindBlock(bs: seq<Block>, id: ID): (q: nat)
    ensures q <= |bs|
    ensures q < |bs| ==> bs[q].Covers(id)
  {
    FindFrom(bs, id, 0)
  }

  lemma {:induction false} FindsFirst(bs: seq<Block>, id: ID, i: nat, k: nat)
    requires i <= k < |bs| && bs[k].Covers(id)
    ensures FindFrom(bs, id, i) <= k
    decreases k - i
  {
    if i < k {
      FindsFirst(bs, id, i + 1, k);
    }
  }

  lemma HasUnit(bs: seq<Block>, id: ID)
    ensures FindBlock(bs, id) < |bs| <==> Has(Flatten(bs), id)
  {
    var q := FindBlock(bs, id);
    if q < |bs| {
      var k := id.clock - bs[q].id.clock;
      UnitAt(bs, q, k);
      FindFirst(Flatten(bs), id, Off(bs, q) + k);
    }
    if Has(Flatten(bs), id) {
      var u := Find(Flatten(bs), id);
      var i := BlockOf(bs, u);
      UnitAt(bs, i, u - Off(bs, i));
      FindsFirst(bs, id, 0, i);
    }
  }

  lemma FindBlockUnit(bs: seq<Block>, id: ID)
    requires UniqueIds(Flatten(bs))
    ensures FindBlock(bs, id) < |bs| <==> Has(Flatten(bs), id)
    ensures FindBlock(bs, id) < |bs| ==>
      Find(Flatten(bs), id) == Off(bs, FindBlock(bs, id)) + (id.clock - bs[FindBlock(bs, id)].id.clock)
  {
    var q := FindBlock(bs, id);
    HasUnit(bs, id);
    if q < |bs| {
      var k := id.clock - bs[q].id.clock;
      UnitAt(bs, q, k);
      FindAt(Flatten(bs), Off(bs, q) + k);
    }
  }

  // ----- The scan over blocks -----

  /** What one round of the loop of `integrate` does with the item it looks at: the new
      item will follow it, the item stays in conflict, or the loop ends. */
  datatype Verdict = Pass | Keep | Stop

  /** One round of the loop.  `from` is the block at the new one's left; the blocks after
      it up to `o` are `itemsBeforeOrigin`, those after `left` are `conflictingItems`. */
  function Ask(bs: seq<Block>, x: Block, from: int, o: nat, left: int): Verdict
    requires o < |bs|
  {
    if bs[o].origin == x.origin then
      if bs[o].id.client < x.id.client then Pass
      else if bs[o].rightOrigin == x.rightOrigin then Stop
      else Keep
    else if bs[o].origin.Some? && from < FindBlock(bs, bs[o].origin.value) <= o then
      if FindBlock(bs, bs[o].origin.value) <= left then Pass else Keep
    else Stop
  }

  /** The loop of `integrate` over blocks; `r` is the block at the new one's right. */
  function ScanBlocks(bs: seq<Block>, x: Block, from: int, r: nat, o: nat, left: int): int
    requires o <= |bs|
    decreases |bs| - o
  {
    if o == |bs| || o == r then left
    else match Ask(bs, x, from, o, left)
      case Pass => ScanBlocks(bs, x, from, r, o + 1, o)
      case Keep => ScanBlocks(bs, x, from, r, o + 1, left)
      case Stop => left
  }

  lemma ScanEnds(bs: seq<Block>, x: Block, from: int, r: nat, o: nat, left: int)
    requires o <= |bs| && (o == |bs| || o == r || Ask(bs, x, from, o, left) == Stop)
    ensures ScanBlocks(bs, x, from, r, o, left) == left
  {
  }

  lemma ScanGoesOn(bs: seq<Block>, x: Block, from: int, r: nat, o: nat, left: int, next: int)
    requires o < |bs| && o != r && Ask(bs, x, from, o, left) != Stop
    requires next == if Ask(bs, x, from, o, left) == Pass then o else left
    ensures ScanBlocks(bs, x, from, r, o, left) == ScanBlocks(bs, x, from, r, o + 1, next)
  {
  }

  /** The block at `r` begins with the right origin; `r` is the end without one. */
  predicate CleanRight(bs: seq<Block>, id: Option<ID>, r: nat) {
    r <= |bs| && (if id.None? then r == |bs| else r < |bs| && bs[r].len > 0 && bs[r].id == id.value)
  }

  /** The block at `from` ends with the origin; `from` is -1 without one. */
  predicate CleanLeft(bs: seq<Block>, id: Option<ID>, from: int) {
    && -1 <= from < |bs|
    && (if id.None? then from == -1 else 0 <= from && bs[from].len > 0 && bs[from].LastId() == id.value)
  }

  /** The blocks at both sides begin and end at the new block's origins. */
  predicate Clean(bs: seq<Block>, x: Block, from: int, r: nat) {
    CleanLeft(bs, x.origin, from) && CleanRight(bs, x.rightOrigin, r)
  }

  lemma CleanUnits(bs: seq<Block>, x: Block, from: int, r: nat)
    requires UniqueIds(Flatten(bs)) && Clean(bs, x, from, r)
    ensures DepsIn(Flatten(bs), x.Unit(0))
    ensures LeftOf(Flatten(bs), x.Unit(0)) == Off(bs, from + 1) - 1
    ensures RightOf(Flatten(bs), x.Unit(0)) == Off(bs, r)
  {
    OffMonotone(bs, 0, |bs|);
    if from >= 0 {
      UnitAt(bs, from, bs[from].len - 1);
      FindAt(Flatten(bs), Off(bs, from) + bs[from].len - 1);
    }
    if r < |bs| {
      UnitAt(bs, r, 0);
      FindAt(Flatten(bs), Off(bs, r));
    }
  }

  /** The unit `k` of a block follows the unit before it, which the scan has seen. */
  lemma InnerUnit(bs: seq<Block>, x: Item, o: nat, k: nat)
    requires UniqueIds(Flatten(bs)) && o < |bs| && 0 < k < bs[o].len
    requires DepsIn(Flatten(bs), x) && LeftOf(Flatten(bs), x) < Off(bs, o)
    ensures Off(bs, o) + k < Off(bs, o + 1) <= |Flatten(bs)|
    ensures var u := Flatten(bs)[Off(bs, o) + k];
      u.origin.Some? && u.origin != x.origin && Find(Flatten(bs), u.origin.value) == Off(bs, o) + k - 1
  {
    UnitAt(bs, o, k);
    UnitAt(bs, o, k - 1);
    FindAt(Flatten(bs), Off(bs, o) + k - 1);
  }

  /** Inside of a block that the new item will follow, the scan over units runs to the
      block's end and the new item will follow the block's last unit. */
  lemma {:induction false} PassInside(bs: seq<Block>, x: Item, o: nat, k: nat, m: int)
    requires UniqueIds(Flatten(bs)) && o < |bs| && 0 < k <= bs[o].len
    requires DepsIn(Flatten(bs), x) && LeftOf(Flatten(bs), x) < Off(bs, o)
    requires RightOf(Flatten(bs), x) <= Off(bs, o) || Off(bs, o + 1) <= RightOf(Flatten(bs), x)
    requires Off(bs, o) + k <= Off(bs, o + 1) <= |Flatten(bs)|
    requires m == ScanItems(Flatten(bs), x, Off(bs, o) + k, Off(bs, o) + k - 1)
    ensures m == ScanItems(Flatten(bs), x, Off(bs, o + 1), Off(bs, o + 1) - 1)
    decreases bs[o].len - k
  {
    if k < bs[o].len {
      InnerUnit(bs, x, o, k);
      PassInside(bs, x, o, k + 1, m);
    }
  }

  /** Inside of a block in conflict the scan over units runs to the block's end too. */
  lemma {:induction false} KeepInside(bs: seq<Block>, x: Item, o: nat, k: nat, left: int, m: int)
    requires UniqueIds(Flatten(bs)) && o < |bs| && 0 < k <= bs[o].len
    requires DepsIn(Flatten(bs), x) && LeftOf(Flatten(bs), x) <= left < Off(bs, o)
    requires RightOf(Flatten(bs), x) <= Off(bs, o) || Off(bs, o + 1) <= RightOf(Flatten(bs), x)
    requires Off(bs, o) + k <= Off(bs, o + 1) <= |Flatten(bs)|
    requires m == ScanItems(Flatten(bs), x, Off(bs, o) + k, left)
    ensures m == ScanItems(Flatten(bs), x, Off(bs, o + 1), left)
    decreases bs[o].len - k
  {
    if k < bs[o].len {
      InnerUnit(bs, x, o, k);
      KeepInside(bs, x, o, k + 1, left, m);
    }
  }

  /** Comparing blocks with a block boundary compares their units with it. */
  lemma BlockBefore(bs: seq<Block>, id: ID, m: nat)
    requires UniqueIds(Flatten(bs)) && Has(Flatten(bs), id) && m <= |bs|
    ensures FindBlock(bs, id) < m <==> Find(Flatten(bs), id) < Off(bs, m)
  {
    FindBlockUnit(bs, id);
    var q := FindBlock(bs, id);
    if q < m {
      OffMonotone(bs, q + 1, m);
    } else {
      OffMonotone(bs, m, q);
    }
  }

  lemma OriginBefore(bs: seq<Block>, o: nat)
    requires Canonical(Flatten(bs)) && NonEmpty(bs) && o < |bs|
    ensures Off(bs, o) < |Flatten(bs)| && Flatten(bs)[Off(bs, o)] == bs[o].Unit(0)
    ensures bs[o].origin.Some? ==>
      Has(Flatten(bs), bs[o].origin.value) && Find(Flatten(bs), bs[o].origin.value) < Off(bs, o)
  {
    assert bs[o] in bs;
    UnitAt(bs, o, 0);
    var i := Off(bs, o);
    assert Placed(ArcsOf(Flatten(bs)), i);
    assert Flatten(bs)[i] in Flatten(bs);
  }

  /** One step of the scan: what the first unit of a block is asked is what the block is asked. */
  lemma SameQuestions(bs: seq<Block>, from: int, o: nat, left: int)
    requires Canonical(Flatten(bs)) && NonEmpty(bs) && o < |bs| && -1 <= from <= left < o
    ensures Off(bs, o) < |Flatten(bs)| && Flatten(bs)[Off(bs, o)] == bs[o].Unit(0)
    ensures bs[o].origin.Some? ==>
      var q, p := FindBlock(bs, bs[o].origin.value), Find(Flatten(bs), bs[o].origin.value);
      && q <= o && p < Off(bs, o)
      && (from < q <==> Off(bs, from + 1) - 1 < p) && (q <= left <==> p <= Off(bs, left + 1) - 1)
  {
    OriginBefore(bs, o);
    if bs[o].origin.Some? {
      BlockBefore(bs, bs[o].origin.value, from + 1);
      BlockBefore(bs, bs[o].origin.value, left + 1);
      BlockBefore(bs, bs[o].origin.value, o);
    }
  }

  /** The first unit of a block gets the verdict of the block. */
  lemma FirstUnit(bs: seq<Block>, x: Block, from: int, r: nat, o: nat, left: int, m: int)
    requires Canonical(Flatten(bs)) && NonEmpty(bs) && Clean(bs, x, from, r)
    requires from <= left < o < r && Off(bs, o) < |Flatten(bs)| && Off(bs, o) != Off(bs, r)
    requires m == ScanItems(Flatten(bs), x.Unit(0), Off(bs, o), Off(bs, left + 1) - 1)
    ensures Ask(bs, x, from, o, left) == Pass ==> m == ScanItems(Flatten(bs), x.Unit(0), Off(bs, o) + 1, Off(bs, o))
    ensures Ask(bs, x, from, o, left) == Keep ==>
      m == ScanItems(Flatten(bs), x.Unit(0), Off(bs, o) + 1, Off(bs, left + 1) - 1)
    ensures Ask(bs, x, from, o, left) == Stop ==> m == Off(bs, left + 1) - 1
  {
    CleanUnits(bs, x, from, r);
    SameQuestions(bs, from, o, left);
  }

  lemma Boundaries(bs: seq<Block>, from: int, left: int, o: nat, r: nat)
    requires NonEmpty(bs) && -1 <= from <= left < o < r <= |bs|
    ensures Off(bs, from + 1) <= Off(bs, left + 1) <= Off(bs, o)
    ensures Off(bs, o) < Off(bs, o + 1) <= Off(bs, r) <= |Flatten(bs)|
  {
    assert bs[o] in bs;
    OffMonotone(bs, from + 1, left + 1);
    OffMonotone(bs, left + 1, o);
    OffMonotone(bs, o + 1, r);
  }

  lemma PassBlock(bs: seq<Block>, x: Block, from: int, r: nat, o: nat, left: int, m: int)
    requires Canonical(Flatten(bs)) && NonEmpty(bs) && Clean(bs, x, from, r)
    requires from <= left < o < r && Off(bs, o) <= |Flatten(bs)| && Ask(bs, x, from, o, left) == Pass
    requires m == ScanItems(Flatten(bs), x.Unit(0), Off(bs, o), Off(bs, left + 1) - 1)
    ensures Off(bs, o + 1) <= |Flatten(bs)|
    ensures m == ScanItems(Flatten(bs), x.Unit(0), Off(bs, o + 1), Off(bs, o + 1) - 1)
  {
    Boundaries(bs, from, left, o, r);
    FirstUnit(bs, x, from, r, o, left, m);
    CleanUnits(bs, x, from, r);
    PassInside(bs, x.Unit(0), o, 1, m);
  }

  lemma KeepBlock(bs: seq<Block>, x: Block, from: int, r: nat, o: nat, left: int, m: int)
    requires Canonical(Flatten(bs)) && NonEmpty(bs) && Clean(bs, x, from, r)
    requires from <= left < o < r && Off(bs, o) <= |Flatten(bs)| && Ask(bs, x, from, o, left) == Keep
    requires m == ScanItems(Flatten(bs), x.Unit(0), Off(bs, o), Off(bs, left + 1) - 1)
    ensures Off(bs, o + 1) <= |Flatten(bs)|
    ensures m == ScanItems(Flatten(bs), x.Unit(0), Off(bs, o + 1), Off(bs, left + 1) - 1)
  {
    Boundaries(bs, from, left, o, r);
    FirstUnit(bs, x, from, r, o, left, m);
    CleanUnits(bs, x, from, r);
    KeepInside(bs, x.Unit(0), o, 1, Off(bs, left + 1) - 1, m);
  }

  /** The scan over blocks finds the place that the scan over units finds. */
  lemma {:induction false} ScanRefines(bs: seq<Block>, x: Block, from: int, r: nat, o: nat, left: int, k: int, m: int)
    requires Canonical(Flatten(bs)) && NonEmpty(bs) && Clean(bs, x, from, r)
    requires from <= left < o <= r && Off(bs, o) <= |Flatten(bs)|
    requires k == ScanBlocks(bs, x, from, r, o, left)
    requires m == ScanItems(Flatten(bs), x.Unit(0), Off(bs, o), Off(bs, left + 1) - 1)
    ensures from <= k < r && m == Off(bs, k + 1) - 1
    decreases |bs| - o
  {
    if o == r {
      CleanUnits(bs, x, from, r);
      OffMonotone(bs, |bs|, |bs|);
    } else {
      match Ask(bs, x, from, o, left)
      case Pass =>
        PassBlock(bs, x, from, r, o, left, m);
        ScanRefines(bs, x, from, r, o + 1, o, k, m);
      case Keep =>
        KeepBlock(bs, x, from, r, o, left, m);
        ScanRefines(bs, x, from, r, o + 1, left, k, m);
      case Stop =>
        Boundaries(bs, from, left, o, r);
        FirstUnit(bs, x, from, r, o, left, m);
    }
  }

  // ----- Integrating a block -----

  /** Integrating the units of a block one after the other, from unit `k` on. */
  function IntegrateUnits(s: seq<Item>, b: Block, k: nat): seq<Item>
    requires k <= b.len
    decreases b.len - k
  {
    if k == b.len then s else IntegrateUnits(Integrate(s, b.Unit(k)), b, k + 1)
  }

  /** The list just after unit `k` of a new block went to position `i`. */
  predicate Growing(s: seq<Item>, x: Block, k: nat, i: nat) {
    && Canonical(s) && k < x.len && i < |s| && s[i] == x.Unit(k)
    && (forall j :: 0 <= j < |s| ==> GrowingAt(s, x, k, j))
  }

  predicate GrowingAt(s: seq<Item>, x: Block, k: nat, j: nat)
    requires j < |s|
  {
    && s[j].origin != Some(x.Unit(k).id)
    && (s[j].id.client == x.id.client ==> s[j].id.clock <= x.id.clock + k)
  }

  lemma NextAdmissible(s: seq<Item>, x: Block, k: nat, i: nat)
    requires Growing(s, x, k, i) && k + 1 < x.len
    ensures Admissible(s, x.Unit(k + 1)) && LeftOf(s, x.Unit(k + 1)) == i
  {
    var u := x.Unit(k + 1);
    FindAt(s, i);
    assert Placed(ArcsOf(s), i) && s[i] in s;
    assert Has(s, u.id) ==> GrowingAt(s, x, k, Find(s, u.id));
    forall j | 0 <= j < |s| ensures InFront(ArcsOf(s), ArcOf(s, u), j) {
      assert GrowingAt(s, x, k, j) && s[j] in s;
      SameRefs(s, s[j], u);
    }
    forall e | e in s && e.id.client == x.id.client ensures e.id.clock < u.id.clock {
      var j :| 0 <= j < |s| && s[j] == e;
      assert GrowingAt(s, x, k, j);
    }
  }

  /** The next unit of the block follows at once, whatever stands behind. */
  lemma NextPosition(s: seq<Item>, x: Block, k: nat, i: nat)
    requires Growing(s, x, k, i) && k + 1 < x.len
    requires DepsIn(s, x.Unit(k + 1)) && LeftOf(s, x.Unit(k + 1)) == i
    ensures Position(s, x.Unit(k + 1)) == i + 1
  {
    if i + 1 < |s| {
      assert s[i + 1] in s && Placed(ArcsOf(s), i + 1) && GrowingAt(s, x, k, i + 1);
      SameRefs(s, s[i + 1], x.Unit(k + 1));
    }
  }

  lemma NextUnit(s: seq<Item>, x: Block, k: nat, i: nat)
    requires Growing(s, x, k, i) && k + 1 < x.len
    ensures Integrate(s, x.Unit(k + 1)) == InsertAt(s, i + 1, x.Unit(k + 1))
    ensures Growing(InsertAt(s, i + 1, x.Unit(k + 1)), x, k + 1, i + 1)
  {
    var u := x.Unit(k + 1);
    NextAdmissible(s, x, k, i);
    NextPosition(s, x, k, i);
    IntegrateCanonical(s, u);
    var t, k' := InsertAt(s, i + 1, u), k + 1;
    forall j | 0 <= j < |t| ensures GrowingAt(t, x, k', j) {
      if j != i + 1 {
        var m := if j <= i then j else j - 1;
        assert t[j] == s[m] && GrowingAt(s, x, k, m);
        OriginKnown(s, m, u);
      }
    }
  }

  /** No item of a list has an origin that is not in the list. */
  lemma OriginKnown(s: seq<Item>, m: nat, u: Item)
    requires Canonical(s) && m < |s| && !Has(s, u.id)
    ensures s[m].origin != Some(u.id)
  {
    assert s[m] in s;
  }

  /** The units that follow unit `k` at position `i`, once they all went behind it. */
  function Grown(s: seq<Item>, x: Block, k: nat, i: nat): seq<Item>
    requires i < |s| && k < x.len
  {
    s[..i + 1] + x.Units()[k + 1..] + s[i + 1..]
  }

  lemma GrownStep(s: seq<Item>, x: Block, k: nat, i: nat)
    requires i < |s| && k + 1 < x.len
    ensures Grown(InsertAt(s, i + 1, x.Unit(k + 1)), x, k + 1, i + 1) == Grown(s, x, k, i)
  {
    var t := InsertAt(s, i + 1, x.Unit(k + 1));
    assert t[..i + 2] == s[..i + 1] + [x.Unit(k + 1)];
    assert t[i + 2..] == s[i + 1..];
    assert x.Units()[k + 1..] == [x.Unit(k + 1)] + x.Units()[k + 2..];
  }

  lemma {:induction false} OtherUnits(s: seq<Item>, x: Block, k: nat, i: nat)
    requires Growing(s, x, k, i)
    ensures IntegrateUnits(s, x, k + 1) == Grown(s, x, k, i)
    ensures Canonical(Grown(s, x, k, i))
    decreases x.len - k
  {
    if k + 1 < x.len {
      NextUnit(s, x, k, i);
      OtherUnits(InsertAt(s, i + 1, x.Unit(k + 1)), x, k + 1, i + 1);
      GrownStep(s, x, k, i);
    } else {
      assert Grown(s, x, k, i) == s;
    }
  }

  /** What delivery guarantees about a new block. */
  predicate BlockAdmissible(bs: seq<Block>, x: Block, from: int, r: nat) {
    && x.len > 0 && Clean(bs, x, from, r)
    && Admissible(Flatten(bs), x.Unit(0))
  }

  lemma FirstUnitGrows(s: seq<Item>, x: Block, i: nat)
    requires Canonical(s) && x.len > 0 && Admissible(s, x.Unit(0)) && i <= |s|
    requires Canonical(InsertAt(s, i, x.Unit(0)))
    ensures Growing(InsertAt(s, i, x.Unit(0)), x, 0, i)
  {
    var u := x.Unit(0);
    var t := InsertAt(s, i, u);
    assert u.origin != Some(u.id);
    forall j | 0 <= j < |t| ensures GrowingAt(t, x, 0, j) {
      if j != i {
        var m := if j < i then j else j - 1;
        assert t[j] == s[m] && s[m] in s;
        OriginKnown(s, m, u);
      }
    }
  }

  /** Integrating all units of an admissible block leaves them next to each other. */
  lemma UnitsStayTogether(s: seq<Item>, x: Block, i: int)
    requires Canonical(s) && x.len > 0 && Admissible(s, x.Unit(0)) && i == Position(s, x.Unit(0))
    ensures 0 <= i <= |s|
    ensures IntegrateUnits(s, x, 0) == s[..i] + x.Units() + s[i..]
    ensures Canonical(s[..i] + x.Units() + s[i..])
  {
    var t := InsertAt(s, i, x.Unit(0));
    IntegrateCanonical(s, x.Unit(0));
    FirstUnitGrows(s, x, i);
    OtherUnits(t, x, 0, i);
    GrownFirst(s, x, i);
  }

  lemma GrownFirst(s: seq<Item>, x: Block, i: nat)
    requires i <= |s| && x.len > 0
    ensures Grown(InsertAt(s, i, x.Unit(0)), x, 0, i) == s[..i] + x.Units() + s[i..]
  {
    var t := InsertAt(s, i, x.Unit(0));
    assert t[..i + 1] == s[..i] + [x.Unit(0)];
    assert t[i + 1..] == s[i..];
    assert x.Units() == [x.Unit(0)] + x.Units()[1..];
  }

  function PlaceOfBlock(bs: seq<Block>, x: Block, from: int, r: nat): int
    requires -1 <= from < |bs|
  {
    ScanBlocks(bs, x, from, r, from + 1, from) + 1
  }

  /** Where the scan over units starts. */
  lemma ScanStarts(bs: seq<Block>, x: Block, from: int, r: nat)
    requires UniqueIds(Flatten(bs)) && Clean(bs, x, from, r)
    ensures DepsIn(Flatten(bs), x.Unit(0)) && Off(bs, from + 1) <= |Flatten(bs)|
    ensures Position(Flatten(bs), x.Unit(0)) ==
      ScanItems(Flatten(bs), x.Unit(0), Off(bs, from + 1), Off(bs, from + 1) - 1) + 1
  {
    CleanUnits(bs, x, from, r);
    OffMonotone(bs, from + 1, |bs|);
  }

  /** The scan over blocks and the scan over units find the same place. */
  lemma PlaceRefines(bs: seq<Block>, x: Block, from: int, r: nat)
    requires Canonical(Flatten(bs)) && NonEmpty(bs) && BlockAdmissible(bs, x, from, r)
    ensures from < PlaceOfBlock(bs, x, from, r) <= r
    ensures Off(bs, PlaceOfBlock(bs, x, from, r)) == Position(Flatten(bs), x.Unit(0))
  {
    FromBeforeR(bs, x, from, r);
    ScanStarts(bs, x, from, r);
    ScanRefines(bs, x, from, r, from + 1, from, PlaceOfBlock(bs, x, from, r) - 1, Position(Flatten(bs), x.Unit(0)) - 1);
  }

  /** Integrating a block of any length is integrating its units one after the other,
      even though other items refer to units in the middle of blocks. */
  lemma BlockRefinesUnits(bs: seq<Block>, x: Block, from: int, r: nat)
    requires Canonical(Flatten(bs)) && NonEmpty(bs) && BlockAdmissible(bs, x, from, r)
    ensures var k := PlaceOfBlock(bs, x, from, r);
      && from < k <= r
      && Flatten(bs[..k] + [x] + bs[k..]) == IntegrateUnits(Flatten(bs), x, 0)
      && Canonical(Flatten(bs[..k] + [x] + bs[k..]))
  {
    PlaceRefines(bs, x, from, r);
    UnitsStayTogether(Flatten(bs), x, Position(Flatten(bs), x.Unit(0)));
    FlattenInserted(bs, PlaceOfBlock(bs, x, from, r), x);
  }

  lemma FromBeforeR(bs: seq<Block>, x: Block, from: int, r: nat)
    requires Canonical(Flatten(bs)) && BlockAdmissible(bs, x, from, r)
    ensures from < r
  {
    CleanUnits(bs, x, from, r);
    if r <= from {
      OffMonotone(bs, r, from + 1);
      OffMonotone(bs, r, from);
    }
  }

  lemma FlattenParts(bs: seq<Block>, k: nat)
    requires k <= |bs|
    ensures Off(bs, k) <= |Flatten(bs)|
    ensures Flatten(bs[..k]) == Flatten(bs)[..Off(bs, k)] && Flatten(bs[k..]) == Flatten(bs)[Off(bs, k)..]
  {
    var a, z := bs[..k], bs[k..];
    assert a + z == bs;
    FlattenConcat(a, z);
    OffPrefix(bs, k);
    Halves(Flatten(bs), Flatten(a), Flatten(z));
  }

  lemma FlattenInserted(bs: seq<Block>, k: nat, x: Block)
    requires k <= |bs|
    ensures Off(bs, k) <= |Flatten(bs)|
    ensures Flatten(bs[..k] + [x] + bs[k..]) == Flatten(bs)[..Off(bs, k)] + x.Units() + Flatten(bs)[Off(bs, k)..]
  {
    FlattenParts(bs, k);
    FlattenConcat(bs[..k] + [x], bs[k..]);
    FlattenConcat(bs[..k], [x]);
    OneBlock(x);
  }

  // ----- Splitting -----

  /** `splitItem`: the two blocks that a block falls into. */
  function LeftPart(b: Block, diff: nat): Block {
    b.(len := diff)
  }

  function RightPart(b: Block, diff: nat): Block
    requires 0 < diff <= b.len
  {
    Block(ID(b.id.client, b.id.clock + diff), b.len - diff,
          Some(ID(b.id.client, b.id.clock + diff - 1)), b.rightOrigin, b.deleted)
  }

  function SplitAt(bs: seq<Block>, i: nat, diff: nat): seq<Block>
    requires i < |bs| && 0 < diff <= bs[i].len
  {
    bs[..i] + [LeftPart(bs[i], diff), RightPart(bs[i], diff)] + bs[i + 1..]
  }

  /** Which units of the first `i` blocks are deleted. */
  function MarksTo(bs: seq<Block>, i: nat): (m: seq<bool>)
    requires i <= |bs|
    ensures |m| == Off(bs, i)
  {
    if i == 0 then [] else MarksTo(bs, i - 1) + bs[i - 1].Marks()
  }

  function Marks(bs: seq<Block>): (m: seq<bool>)
    ensures |m| == |Flatten(bs)|
  {
    MarksTo(bs, |bs|)
  }

  lemma {:induction false} SameMarks(a: seq<Block>, b: seq<Block>, i: nat)
    requires i <= |a| && i <= |b| && a[..i] == b[..i]
    ensures MarksTo(a, i) == MarksTo(b, i)
  {
    if i > 0 {
      assert a[i - 1] == a[..i][i - 1] == b[i - 1];
      assert a[..i - 1] == a[..i][..i - 1] == b[..i - 1];
      SameMarks(a, b, i - 1);
    }
  }

  lemma {:induction false} ConcatMarksTo(a: seq<Block>, b: seq<Block>, j: nat)
    requires j <= |b|
    ensures MarksTo(a + b, |a| + j) == Marks(a) + MarksTo(b, j)
  {
    if j == 0 {
      Halves(a + b, a, b);
      SameMarks(a + b, a, |a|);
    } else {
      ConcatMarksTo(a, b, j - 1);
      assert (a + b)[|a| + j - 1] == b[j - 1];
      Associative(Marks(a), MarksTo(b, j - 1), b[j - 1].Marks());
    }
  }

  lemma MarksConcat(a: seq<Block>, b: seq<Block>)
    ensures Marks(a + b) == Marks(a) + Marks(b)
  {
    ConcatMarksTo(a, b, |b|);
  }

  lemma OneBlock(b: Block)
    ensures Flatten([b]) == b.Units()
    ensures Marks([b]) == b.Marks()
  {
  }

  lemma TwoBlocks(l: Block, r: Block)
    ensures Flatten([l, r]) == l.Units() + r.Units()
    ensures Marks([l, r]) == l.Marks() + r.Marks()
  {
    OneBlock(l);
    OneBlock(r);
    FlattenConcat([l], [r]);
    MarksConcat([l], [r]);
    assert [l, r] == [l] + [r];
  }

  lemma PartsTogether(b: Block, diff: nat)
    requires 0 < diff < b.len
    ensures Flatten([LeftPart(b, diff), RightPart(b, diff)]) == Flatten([b])
    ensures Marks([LeftPart(b, diff), RightPart(b, diff)]) == Marks([b])
  {
    TwoBlocks(LeftPart(b, diff), RightPart(b, diff));
    OneBlock(b);
    UnitsOfParts(b, diff);
  }

  lemma UnitsOfParts(b: Block, diff: nat)
    requires 0 < diff < b.len
    ensures b.Units() == LeftPart(b, diff).Units() + RightPart(b, diff).Units()
  {
  }

  /** Splitting a block changes neither the units nor their marks. */
  lemma SplitKeeps(bs: seq<Block>, i: nat, diff: nat)
    requires i < |bs| && 0 < diff < bs[i].len
    ensures Flatten(SplitAt(bs, i, diff)) == Flatten(bs)
    ensures Marks(SplitAt(bs, i, diff)) == Marks(bs)
  {
    PartsTogether(bs[i], diff);
    ReplaceKeeps(bs[..i], [bs[i]], [LeftPart(bs[i], diff), RightPart(bs[i], diff)], bs[i + 1..]);
    assert bs == bs[..i] + [bs[i]] + bs[i + 1..];
  }

  lemma ReplaceKeeps(a: seq<Block>, m: seq<Block>, n: seq<Block>, z: seq<Block>)
    requires Flatten(m) == Flatten(n) && Marks(m) == Marks(n)
    ensures Flatten(a + m + z) == Flatten(a + n + z)
    ensures Marks(a + m + z) == Marks(a + n + z)
  {
    FlattenConcat(a + m, z);
    FlattenConcat(a, m);
    FlattenConcat(a + n, z);
    FlattenConcat(a, n);
    MarksConcat(a + m, z);
    MarksConcat(a, m);
    MarksConcat(a + n, z);
    MarksConcat(a, n);
  }

  // ----- Clean starts and clean ends -----

  /** The blocks after `n` units of block `q` were cut from the rest of it. */
  function CutAt(bs: seq<Block>, q: nat, n: nat): seq<Block>
    requires q < |bs| && n <= bs[q].len
  {
    if 0 < n < bs[q].len then SplitAt(bs, q, n) else bs
  }

  lemma CutKeeps(bs: seq<Block>, q: nat, n: nat)
    requires q < |bs| && n <= bs[q].len
    ensures Flatten(CutAt(bs, q, n)) == Flatten(bs) && Marks(CutAt(bs, q, n)) == Marks(bs)
    ensures NonEmpty(bs) ==> NonEmpty(CutAt(bs, q, n))
  {
    if 0 < n < bs[q].len {
      SplitKeeps(bs, q, n);
    }
  }

  /** A position behind block `q` after the cut. */
  function Moved(bs: seq<Block>, q: nat, n: nat, r: nat): nat
    requires q < |bs|
  {
    if 0 < n < bs[q].len then r + 1 else r
  }

  lemma CutCleanRight(bs: seq<Block>, q: nat, n: nat, id: Option<ID>, r: nat)
    requires q < r && CleanRight(bs, id, r) && n <= bs[q].len
    ensures CleanRight(CutAt(bs, q, n), id, Moved(bs, q, n, r))
  {
  }

  /** A unit in front of the right origin is in a block in front of it. */
  lemma StandsBefore(bs: seq<Block>, a: ID, id: Option<ID>, r: nat)
    requires UniqueIds(Flatten(bs)) && Has(Flatten(bs), a) && CleanRight(bs, id, r)
    requires id.Some? ==> Find(Flatten(bs), a) < Find(Flatten(bs), id.value)
    ensures FindBlock(bs, a) < r
  {
    FindBlockUnit(bs, a);
    if id.Some? {
      UnitAt(bs, r, 0);
      FindAt(Flatten(bs), Off(bs, r));
      BlockBefore(bs, a, r);
    }
  }

  /** A block that ends in front of a unit stands before the block that holds the unit. */
  lemma EndsBefore(bs: seq<Block>, p: int, a: Option<ID>, b: ID)
    requires UniqueIds(Flatten(bs)) && CleanLeft(bs, a, p) && Has(Flatten(bs), b)
    requires a.Some? ==> Has(Flatten(bs), a.value) && Find(Flatten(bs), a.value) < Find(Flatten(bs), b)
    ensures p < FindBlock(bs, b) < |bs|
  {
    FindBlockUnit(bs, b);
    if a.Some? {
      OnlyBlock(bs, a.value, p);
      BlockBefore(bs, b, p + 1);
      FindBlockUnit(bs, a.value);
    }
  }

  lemma CutCleanLeft(bs: seq<Block>, q: nat, n: nat, id: Option<ID>, from: int)
    requires from < q < |bs| && CleanLeft(bs, id, from) && n <= bs[q].len
    ensures CleanLeft(CutAt(bs, q, n), id, from)
  {
  }

  /** Only one block covers an id. */
  lemma OnlyBlock(bs: seq<Block>, id: ID, q: nat)
    requires UniqueIds(Flatten(bs)) && q < |bs| && bs[q].Covers(id)
    ensures q == FindBlock(bs, id)
  {
    var p := FindBlock(bs, id);
    FindsFirst(bs, id, 0, q);
    UnitAt(bs, q, id.clock - bs[q].id.clock);
    UnitAt(bs, p, id.clock - bs[p].id.clock);
    if p < q {
      OffMonotone(bs, p + 1, q);
    }
  }

  /** Where the items of a list refer to units of the list, every origin has its block. */
  lemma OriginsFound(bs: seq<Block>)
    requires Canonical(Flatten(bs)) && NonEmpty(bs)
    ensures forall b <- bs :: b.origin.Some? ==> FindBlock(bs, b.origin.value) < |bs|
  {
    forall b | b in bs && b.origin.Some? ensures FindBlock(bs, b.origin.value) < |bs| {
      var o :| 0 <= o < |bs| && bs[o] == b;
      OriginBefore(bs, o);
      FindBlockUnit(bs, b.origin.value);
    }
  }

  // ----- Content -----

  /** Number of units that are not deleted. */
  function Alive(m: seq<bool>): nat {
    if m == [] then 0 else (if m[0] then 0 else 1) + Alive(m[1..])
  }

  lemma {:induction false} AliveConcat(m: seq<bool>, n: seq<bool>)
    ensures Alive(m + n) == Alive(m) + Alive(n)
  {
    if m == [] {
      assert m + n == n;
    } else {
      assert (m + n)[1..] == m[1..] + n;
      AliveConcat(m[1..], n);
    }
  }

  lemma {:induction false} AliveBlock(b: Block)
    ensures Alive(b.Marks()) == if b.deleted then 0 else b.len
    decreases b.len
  {
    if b.len > 0 {
      assert b.Marks()[1..] == b.(len := b.len - 1).Marks();
      AliveBlock(b.(len := b.len - 1));
    }
  }

  /** Inserting a block adds its content. */
  lemma AliveInserted(bs: seq<Block>, k: nat, x: Block)
    requires k <= |bs|
    ensures Alive(Marks(bs[..k] + [x] + bs[k..])) == Alive(Marks(bs)) + (if x.deleted then 0 else x.len)
  {
    assert bs[..k] + bs[k..] == bs;
    MarksConcat(bs[..k], bs[k..]);
    MarksConcat(bs[..k] + [x], bs[k..]);
    MarksConcat(bs[..k], [x]);
    OneBlock(x);
    AliveBlock(x);
    AliveConcat(Marks(bs[..k]), Marks(bs[k..]));
    AliveConcat(Marks(bs[..k]) + x.Marks(), Marks(bs[k..]));
    AliveConcat(Marks(bs[..k]), x.Marks());
  }

  // ----- Deleting -----

  /** The structs after the one at `i` was deleted. */
  function Delete(bs: seq<Block>, i: nat): seq<Block>
    requires i < |bs|
  {
    bs[i := bs[i].(deleted := true)]
  }

  lemma SameUnits(a: seq<Block>, b: Block, d: Block, z: seq<Block>)
    requires d == b.(deleted := true)
    ensures Flatten(a + [d] + z) == Flatten(a + [b] + z)
  {
    FlattenConcat(a + [d], z);
    FlattenConcat(a + [b], z);
    FlattenConcat(a, [d]);
    FlattenConcat(a, [b]);
    OneBlock(b);
    OneBlock(d);
    assert b.Units() == d.Units();
  }

  lemma DeletedUnits(bs: seq<Block>, i: nat)
    requires i < |bs|
    ensures Flatten(Delete(bs, i)) == Flatten(bs)
  {
    var d := bs[i].(deleted := true);
    assert Delete(bs, i) == bs[..i] + [d] + bs[i + 1..];
    assert bs == bs[..i] + [bs[i]] + bs[i + 1..];
    SameUnits(bs[..i], bs[i], d, bs[i + 1..]);
  }

  /** The visible length shrinks by that of the block. */
  lemma AliveDeleted(bs: seq<Block>, i: nat)
    requires i < |bs|
    ensures Alive(Marks(Delete(bs, i))) == Alive(Marks(bs)) - (if bs[i].deleted then 0 else bs[i].len)
  {
    var d, a, z := bs[i].(deleted := true), bs[..i], bs[i + 1..];
    assert a + z == bs[..i] + bs[i + 1..];
    assert Delete(bs, i) == a + [d] + z && bs == a + [bs[i]] + z;
    Halves(a + z, a, z);
    AliveInserted(a + z, i, d);
    AliveInserted(a + z, i, bs[i]);
  }
}
