/** `Item.integrate`. */
module Yata {
  // The sequence CRDT, on items of length one.
  // A list is the doubly linked list of a type, or of one key of a map type, tombstones
  // included.  `Integrate` is the conflict scan of the original.  `Canonical` is the
  // arrangement that the scan keeps; two canonical lists order their common items the
  // same way, whatever the order in which the items arrived.

  import opened Arcs
  import opened Common

  datatype ID = ID(client: nat, clock: nat)

  datatype Item = Item(id: ID, origin: Option<ID>, rightOrigin: Option<ID>)

  /** Position of an id, or |s| when the id is absent. */
  function Find(s: seq<Item>, id: ID): (i: nat)
    ensures i <= |s|
    ensures i < |s| ==> s[i].id == id
  {
    if s == [] || s[0].id == id then 0 else 1 + Find(s[1..], id)
  }

  predicate Has(s: seq<Item>, id: ID) {
    Find(s, id) < |s|
  }

  predicate UniqueIds(s: seq<Item>) {
    forall i, j :: 0 <= i < j < |s| ==> s[i].id != s[j].id
  }

  lemma {:induction false} FindFirst(s: seq<Item>, id: ID, k: nat)
    requires k < |s| && s[k].id == id
    ensures Find(s, id) <= k
  {
    if s[0].id != id {
      FindFirst(s[1..], id, k - 1);
    }
  }

  lemma FindAt(s: seq<Item>, k: nat)
    requires UniqueIds(s) && k < |s|
    ensures Find(s, s[k].id) == k
  {
    FindFirst(s, s[k].id, k);
  }

  /** Where the left neighbour chosen by the creator stands; -1 is the list's start. */
  function LeftOf(s: seq<Item>, x: Item): int {
    if x.origin.None? then -1 else Find(s, x.origin.value)
  }

  /** Where the right neighbour chosen by the creator stands; |s| is the list's end. */
  function RightOf(s: seq<Item>, x: Item): int {
    if x.rightOrigin.None? then |s| else Find(s, x.rightOrigin.value)
  }

  /** Both neighbours are in the list. */
  predicate DepsIn(s: seq<Item>, x: Item) {
    && (x.origin.Some? ==> Has(s, x.origin.value))
    && (x.rightOrigin.Some? ==> Has(s, x.rightOrigin.value))
  }

  function ArcOf(s: seq<Item>, x: Item): Arc {
    Arc(LeftOf(s, x), RightOf(s, x), x.id.client, x.id.clock)
  }

  function ArcsOf(s: seq<Item>): (a: seq<Arc>)
    ensures |a| == |s|
  {
    seq(|s|, i requires 0 <= i < |s| => ArcOf(s, s[i]))
  }

  /** The loop of `integrate`: `o` is the item being looked at, and `left` the one that
      the new item will follow. */
  function ScanItems(s: seq<Item>, x: Item, o: nat, left: int): int
    requires o <= |s|
    decreases |s| - o
  {
    if o == |s| || o == RightOf(s, x) then left
    else if s[o].origin == x.origin then
      if s[o].id.client < x.id.client then ScanItems(s, x, o + 1, o)
      else if s[o].rightOrigin == x.rightOrigin then left
      else ScanItems(s, x, o + 1, left)
    else if s[o].origin.Some? && LeftOf(s, x) < Find(s, s[o].origin.value) <= o then
      ScanItems(s, x, o + 1, if Find(s, s[o].origin.value) <= left then o else left)
    else left
  }

  /** The position that `integrate` gives to a new item. */
  function Position(s: seq<Item>, x: Item): int
    requires DepsIn(s, x)
  {
    ScanItems(s, x, LeftOf(s, x) + 1, LeftOf(s, x)) + 1
  }

  function InsertAt(s: seq<Item>, k: nat, x: Item): seq<Item>
    requires k <= |s|
  {
    s[..k] + [x] + s[k..]
  }

  predicate DepsClosed(s: seq<Item>) {
    forall e <- s :: DepsIn(s, e)
  }

  predicate Canonical(s: seq<Item>) {
    && UniqueIds(s) && DepsClosed(s)
    && Arranged(ArcsOf(s))
  }

  /** What delivery guarantees about a new item. */
  predicate Admissible(s: seq<Item>, x: Item) {
    && !Has(s, x.id) && DepsIn(s, x)
    && Anchored(ArcsOf(s), ArcOf(s, x))
    && (forall e <- s :: e.id.client == x.id.client ==> e.id.clock < x.id.clock)
  }

  // ----- References and positions -----

  lemma SameRefs(s: seq<Item>, x: Item, y: Item)
    requires DepsIn(s, x) && DepsIn(s, y)
    ensures x.origin == y.origin <==> LeftOf(s, x) == LeftOf(s, y)
    ensures x.rightOrigin == y.rightOrigin <==> RightOf(s, x) == RightOf(s, y)
  {
  }

  lemma {:induction false} ScanOnArcs(s: seq<Item>, x: Item, o: nat, left: int)
    requires DepsClosed(s) && DepsIn(s, x) && o <= |s| && -1 <= left
    ensures ScanItems(s, x, o, left) == Arcs.Scan(ArcsOf(s), ArcOf(s, x), o, left)
    decreases |s| - o
  {
    if o < |s| && o != RightOf(s, x) {
      assert s[o] in s;
      SameRefs(s, s[o], x);
      assert ArcsOf(s)[o] == ArcOf(s, s[o]);
      ScanOnArcs(s, x, o + 1, left);
      ScanOnArcs(s, x, o + 1, o);
    }
  }

  lemma PositionFits(s: seq<Item>, x: Item)
    requires Canonical(s) && Admissible(s, x)
    ensures FitsAt(ArcsOf(s), ArcOf(s, x), Position(s, x))
    ensures Newest(ArcsOf(s), ArcOf(s, x))
  {
    ScanOnArcs(s, x, LeftOf(s, x) + 1, LeftOf(s, x));
    forall i | 0 <= i < |s| ensures NewerThan(ArcsOf(s), ArcOf(s, x), i) {
      assert s[i] in s;
    }
    PlaceFits(ArcsOf(s), ArcOf(s, x));
  }

  /** The new list.  An item that delivery would not let through is left out. */
  function Integrate(s: seq<Item>, x: Item): seq<Item> {
    if DepsIn(s, x) && 0 <= Position(s, x) <= |s| then InsertAt(s, Position(s, x), x) else s
  }

  lemma {:induction false} FindInserted(s: seq<Item>, k: nat, x: Item, id: ID)
    requires k <= |s| && id != x.id
    ensures Find(InsertAt(s, k, x), id) == Shift(Find(s, id), k)
  {
    var t := InsertAt(s, k, x);
    if k == 0 {
      assert t[1..] == s;
    } else if s[0].id != id {
      assert t[1..] == InsertAt(s[1..], k - 1, x);
      FindInserted(s[1..], k - 1, x, id);
    }
  }

  lemma ArcInserted(s: seq<Item>, k: nat, x: Item, e: Item)
    requires k <= |s| && !Has(s, x.id) && DepsIn(s, e)
    ensures DepsIn(InsertAt(s, k, x), e)
    ensures ArcOf(InsertAt(s, k, x), e) == ShiftArc(ArcOf(s, e), k)
  {
    if e.origin.Some? {
      FindInserted(s, k, x, e.origin.value);
    }
    if e.rightOrigin.Some? {
      FindInserted(s, k, x, e.rightOrigin.value);
    }
  }

  lemma ClosedInserted(s: seq<Item>, k: nat, x: Item)
    requires UniqueIds(s) && DepsClosed(s) && k <= |s| && !Has(s, x.id) && DepsIn(s, x)
    ensures UniqueIds(InsertAt(s, k, x)) && DepsClosed(InsertAt(s, k, x))
  {
    forall i | 0 <= i < |s| ensures s[i].id != x.id {
      FindAt(s, i);
    }
    forall e | e in InsertAt(s, k, x) ensures DepsIn(InsertAt(s, k, x), e) {
      ArcInserted(s, k, x, e);
    }
  }

  lemma ArcsInserted(s: seq<Item>, k: nat, x: Item)
    requires DepsClosed(s) && k <= |s| && !Has(s, x.id) && DepsIn(s, x)
    requires LeftOf(s, x) < k <= RightOf(s, x)
    ensures Inserted(ArcsOf(s), ArcOf(s, x), k, ArcsOf(InsertAt(s, k, x)))
  {
    var t := InsertAt(s, k, x);
    forall i | 0 <= i < |s| ensures ArcsOf(t)[Shift(i, k)] == ShiftArc(ArcsOf(s)[i], k) {
      assert s[i] in s && t[Shift(i, k)] == s[i];
      ArcInserted(s, k, x, s[i]);
    }
    ArcInserted(s, k, x, x);
    assert t[k] == x;
  }

  /** Integrating an item that was delivered in order keeps the arrangement. */
  lemma IntegrateCanonical(s: seq<Item>, x: Item)
    requires Canonical(s) && Admissible(s, x)
    ensures 0 <= Position(s, x) <= |s| && Integrate(s, x) == InsertAt(s, Position(s, x), x)
    ensures Canonical(Integrate(s, x))
  {
    PositionFits(s, x);
    var k := Position(s, x);
    ClosedInserted(s, k, x);
    ArcsInserted(s, k, x);
    InsertCanonical(ArcsOf(s), ArcOf(s, x), k, ArcsOf(InsertAt(s, k, x)));
  }
}
