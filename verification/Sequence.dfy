/** The linked list and the struct store. */
module Sequence {
  // `List` is one shared sequence: doubly linked items, the first of which is `start`,
  // and the same items sorted by client and clock in `clients`.  Each method is proved
  // against the list of units (module Yata) that the items stand for.

  import opened Arcs
  import opened Common
  import opened Yata
  import opened Blocks
  import opened Store

  class Item {
    const client: nat
    var clock: nat
    var length: nat
    var origin: Option<ID>
    var rightOrigin: Option<ID>
    var left: Item?
    var right: Item?
    var deleted: bool

    constructor (client: nat, clock: nat, length: nat, left: Item?, origin: Option<ID>, right: Item?,
                 rightOrigin: Option<ID>, deleted: bool)
      ensures this.client == client && this.left == left && this.right == right
      ensures Snap() == Block(ID(client, clock), length, origin, rightOrigin, deleted)
    {
      this.client, this.clock, this.length := client, clock, length;
      this.left, this.origin, this.right, this.rightOrigin := left, origin, right, rightOrigin;
      this.deleted := deleted;
    }

    /** The value of the item, without its links. */
    function Snap(): Block
      reads this
    {
      Block(ID(client, clock), length, origin, rightOrigin, deleted)
    }
  }

  ghost function Snaps(items: seq<Item>): (bs: seq<Block>)
    reads items
    ensures |bs| == |items|
    ensures forall i :: 0 <= i < |items| ==> bs[i] == items[i].Snap()
  {
    seq(|items|, i requires 0 <= i < |items| reads items => items[i].Snap())
  }

  /** The place where the pivoted search of `findIndexSS` starts. */
  function Pivot(clock: nat, state: nat, right: nat): (p: nat)
    requires clock < state && state > 1
    ensures p <= right
  {
    PivotInRange(clock, state - 1, right);
    clock * right / (state - 1)
  }

  lemma PivotInRange(clock: nat, last: nat, right: nat)
    requires clock <= last && last > 0
    ensures 0 <= clock * right / last <= right
  {
    assert clock * right <= last * right;
    assert last * right / last == right;
  }

  /** The index of the struct that holds a clock below the client's state. */
  method FindIndexSS(structs: seq<Item>, client: nat, clock: nat) returns (index: nat)
    requires Partition(Snaps(structs), client) && clock < StateOf(Snaps(structs))
    ensures index < |structs| && structs[index].Snap().Covers(ID(client, clock))
  {
    ghost var bs := Snaps(structs);
    index := 0;
    var left, right := 0, |structs| - 1;
    var mid := structs[right];
    if mid.clock == clock {
      return right;
    }
    var midindex: int := Pivot(clock, mid.clock + mid.length, right);
    while left <= right
      decreases right - left
      invariant 0 <= left <= right + 1 <= |structs|
      invariant left <= right ==> left <= midindex <= right
      invariant forall i :: 0 <= i < left ==> bs[i].id.clock + bs[i].len <= clock
      invariant forall i :: right < i < |structs| ==> clock < bs[i].id.clock
    {
      mid := structs[midindex];
      assert bs[midindex] == mid.Snap();
      if mid.clock <= clock {
        if clock < mid.clock + mid.length {
          return midindex;
        }
        forall i | 0 <= i <= midindex ensures bs[i].id.clock + bs[i].len <= clock {
          if i < midindex { Sorted(bs, client, i, midindex); }
        }
        left := midindex + 1;
      } else {
        forall i | midindex <= i < |structs| ensures clock < bs[i].id.clock {
          if midindex < i { Sorted(bs, client, midindex, i); }
        }
        right := midindex - 1;
      }
      midindex := (left + right) / 2;
    }
    NextReached(bs, client, clock, left);
    assert false;  // the clock is below the client's state
  }

  ghost predicate LinkedAt(items: seq<Item>, i: nat)
    requires i < |items|
    reads items
  {
    && items[i].left == (if i == 0 then null else items[i - 1])
    && items[i].right == (if i + 1 == |items| then null else items[i + 1])
  }

  ghost predicate Differ(items: seq<Item>, i: nat, j: nat)
    requires i < j < |items|
  {
    items[i] != items[j]
  }

  /** The items in the order of the list, linked both ways. */
  ghost predicate Linked(items: seq<Item>, start: Item?)
    reads items
  {
    && (forall i, j :: 0 <= i < j < |items| ==> Differ(items, i, j))
    && start == (if items == [] then null else items[0])
    && (forall i :: 0 <= i < |items| ==> LinkedAt(items, i))
  }

  ghost predicate InAt(structs: seq<Item>, items: seq<Item>, k: nat)
    requires k < |structs|
  {
    structs[k] in items
  }

  ghost predicate AllIn(structs: seq<Item>, items: seq<Item>) {
    forall k :: 0 <= k < |structs| ==> InAt(structs, items, k)
  }

  ghost predicate StoredAt(items: seq<Item>, clients: map<nat, seq<Item>>, i: nat)
    requires i < |items|
  {
    items[i].client in clients && items[i] in clients[items[i].client]
  }

  /** The same items, by client and clock. */
  ghost predicate Stored(items: seq<Item>, clients: map<nat, seq<Item>>)
    reads items
  {
    && SameItems(items, clients)
    && (forall c :: c in clients ==> PartitionOf(clients[c], items, c))
  }

  ghost predicate OtherAt(items: seq<Item>, others: seq<Item>, k: nat)
    requires k < |others|
  {
    others[k] !in items
  }

  /** The store holds the items of the list, and items of other lists. */
  ghost predicate StoredWith(items: seq<Item>, others: seq<Item>, clients: map<nat, seq<Item>>)
    reads items, others
  {
    (forall k :: 0 <= k < |others| ==> OtherAt(items, others, k)) && Stored(items + others, clients)
  }

  /** What is another list's for one list is its own for that one. */
  lemma StoredForOther(items: seq<Item>, others: seq<Item>, items': seq<Item>, others': seq<Item>,
                       clients: map<nat, seq<Item>>)
    requires StoredWith(items, others, clients) && forall x :: x in items + others <==> x in items' + others'
    requires forall k :: 0 <= k < |others'| ==> OtherAt(items', others', k)
    ensures StoredWith(items', others', clients)
  {
    var a, b := items + others, items' + others';
    forall c, k | c in clients && 0 <= k < |clients[c]| ensures InAt(clients[c], b, k) {
      assert AllIn(clients[c], a) && InAt(clients[c], a, k);
    }
    forall i | 0 <= i < |b| ensures StoredAt(b, clients, i) {
      assert b[i] in items' + others' && b[i] in a;
      var j :| 0 <= j < |a| && a[j] == b[i];
      assert StoredAt(a, clients, j);
    }
    forall c | c in clients ensures PartitionOf(clients[c], b, c) {
      assert PartitionOf(clients[c], a, c);
    }
  }

  /** The units of the list, and those of the other lists. */
  ghost function AllUnits(items: seq<Item>, others: seq<Item>): seq<Yata.Item>
    reads items, others
  {
    UnitsOf(items) + UnitsOf(others)
  }

  lemma AllFlattened(items: seq<Item>, others: seq<Item>)
    ensures Flatten(Snaps(items + others)) == AllUnits(items, others)
    ensures Snaps(items + others) == Snaps(items) + Snaps(others)
  {
    assert Snaps(items + others) == Snaps(items) + Snaps(others);
    FlattenConcat(Snaps(items), Snaps(others));
  }

  ghost predicate PartitionOf(structs: seq<Item>, items: seq<Item>, client: nat)
    requires AllIn(structs, items)
    reads items
  {
    InItems(structs, items);
    Partition(Snaps(structs), client)
  }

  lemma InItems(structs: seq<Item>, items: seq<Item>)
    requires AllIn(structs, items)
    ensures forall k :: 0 <= k < |structs| ==> structs[k] in items
  {
    forall k | 0 <= k < |structs| ensures structs[k] in items {
      assert InAt(structs, items, k);
    }
  }

  ghost predicate SameItems(items: seq<Item>, clients: map<nat, seq<Item>>) {
    && (forall c :: c in clients ==> AllIn(clients[c], items))
    && (forall i :: 0 <= i < |items| ==> StoredAt(items, clients, i))
  }

  function Inserted(items: seq<Item>, k: nat, x: Item): seq<Item>
    requires k <= |items|
  {
    items[..k] + [x] + items[k..]
  }

  lemma DifferInserted(items: seq<Item>, k: nat, x: Item)
    requires k <= |items| && (forall i, j :: 0 <= i < j < |items| ==> Differ(items, i, j)) && x !in items
    ensures forall i, j :: 0 <= i < j < |Inserted(items, k, x)| ==> Differ(Inserted(items, k, x), i, j)
  {
    var t := Inserted(items, k, x);
    forall i, j | 0 <= i < j < |t| ensures Differ(t, i, j) {
      assert i != k && j != k ==> Differ(items, if i < k then i else i - 1, if j < k then j else j - 1);
    }
  }

  /** Makes both neighbours of a new item point to it. */
  method Link(ghost items: seq<Item>, ghost start: Item?, x: Item, ghost k: nat)
    requires Linked(items, start) && k <= |items| && x !in items
    requires x.left == ItemAt(items, k - 1) && x.right == ItemAt(items, k)
    modifies items
    ensures Linked(Inserted(items, k, x), if k == 0 then x else start)
    ensures Snaps(items) == old(Snaps(items))
  {
    if x.left != null {
      x.left.right := x;
    }
    if x.right != null {
      x.right.left := x;
    }
    ghost var items' := Inserted(items, k, x);
    DifferInserted(items, k, x);
    forall j | 0 <= j < |items'| ensures LinkedAt(items', j) {
      if j != k {
        var m := if j < k then j else j - 1;
        assert old(LinkedAt(items, m));
        assert 0 < k != m + 1 ==> Differ(items, Min(m, k - 1), Max(m, k - 1));
        assert m != k < |items| ==> Differ(items, Min(m, k), Max(m, k));
      }
    }
  }

  /** `splitItem`: cuts an item in two, next to each other in the list. */
  method SplitItem(ghost items: seq<Item>, ghost start: Item?, ghost i: nat, leftItem: Item, diff: nat)
    returns (rightItem: Item, ghost items': seq<Item>)
    requires Linked(items, start) && i < |items| && items[i] == leftItem && 0 < diff < leftItem.length
    modifies items
    ensures fresh(rightItem) && items' == items[..i + 1] + [rightItem] + items[i + 1..]
    ensures Linked(items', start)
    ensures forall j :: 0 <= j < |items| && j != i ==> items[j].Snap() == old(items[j].Snap())
    ensures Snaps(items') == SplitAt(old(Snaps(items)), i, diff)
    ensures leftItem.Snap() == LeftPart(old(leftItem.Snap()), diff)
    ensures rightItem.Snap() == RightPart(old(leftItem.Snap()), diff)
  {
    assert LinkedAt(items, i);
    rightItem := new Item(leftItem.client, leftItem.clock + diff, leftItem.length - diff, leftItem,
                          Some(ID(leftItem.client, leftItem.clock + diff - 1)), leftItem.right, leftItem.rightOrigin,
                            leftItem.deleted);
    Link(items, start, rightItem, i + 1);
    items' := Inserted(items, i + 1, rightItem);
    ghost var bs := Snaps(items);
    assert leftItem.Snap() == bs[i] && rightItem.Snap() == RightPart(bs[i], diff);
    InsertedAt(items, i + 1, rightItem, i);
    SnapsInserted(items, i + 1, rightItem);
    Shorten(items', start, i, leftItem, diff);
    SplitSnaps(bs, i, diff);
    assert Snaps(items') == SplitAt(bs, i, diff);
    SplitOthers(items, items', i, rightItem, bs, diff);
  }

  /** The items that were not split are as they were. */
  lemma SplitOthers(items: seq<Item>, items': seq<Item>, i: nat, x: Item, bs: seq<Block>, diff: nat)
    requires i < |items| == |bs| && 0 < diff <= bs[i].len
    requires items' == Inserted(items, i + 1, x) && Snaps(items') == SplitAt(bs, i, diff)
    ensures forall j :: 0 <= j < |items| && j != i ==> items[j].Snap() == bs[j]
  {
    forall j | 0 <= j < |items| && j != i ensures items[j].Snap() == bs[j] {
      var k := if j < i then j else j + 1;
      InsertedAt(items, i + 1, x, j);
      SplitElsewhere(bs, i, diff, j);
      assert items[j].Snap() == items'[k].Snap() == Snaps(items')[k];
    }
  }

  lemma InsertedAt(items: seq<Item>, k: nat, x: Item, j: nat)
    requires k <= |items| && j < |items|
    ensures Inserted(items, k, x)[k] == x && Inserted(items, k, x)[if j < k then j else j + 1] == items[j]
  {
  }

  lemma SplitElsewhere(bs: seq<Block>, i: nat, diff: nat, j: nat)
    requires i < |bs| && 0 < diff <= bs[i].len && j < |bs| && j != i
    ensures SplitAt(bs, i, diff)[if j < i then j else j + 1] == bs[j]
  {
  }

  /** `leftItem.length = diff`. */
  method Shorten(ghost items: seq<Item>, ghost start: Item?, ghost i: nat, item: Item, length: nat)
    requires Linked(items, start) && i < |items| && items[i] == item && length <= item.length
    modifies item`length
    ensures Linked(items, start)
    ensures Snaps(items) == old(Snaps(items))[i := LeftPart(old(item.Snap()), length)]
  {
    item.length := length;
    forall j | 0 <= j < |items| ensures LinkedAt(items, j) {
      assert old(LinkedAt(items, j));
    }
    forall j | 0 <= j < |items| && j != i ensures items[j].Snap() == old(items[j].Snap()) {
      assert Differ(items, Min(j, i), Max(j, i));
    }
  }

  lemma SnapsInserted(items: seq<Item>, k: nat, x: Item)
    requires k <= |items|
    ensures Snaps(Inserted(items, k, x)) == Snaps(items)[..k] + [x.Snap()] + Snaps(items)[k..]
  {
  }

  lemma SplitSnaps(bs: seq<Block>, i: nat, diff: nat)
    requires i < |bs| && 0 < diff <= bs[i].len
    ensures (bs[..i + 1] + [RightPart(bs[i], diff)] + bs[i + 1..])[i := LeftPart(bs[i], diff)] == SplitAt(bs, i, diff)
  {
  }

  function Spliced(structs: seq<Item>, index: nat, it: Item): seq<Item>
    requires index < |structs|
  {
    structs[..index + 1] + [it] + structs[index + 1..]
  }

  /** Where a unit of the list is in the store. */
  method Locate(ghost items: seq<Item>, clients: map<nat, seq<Item>>, id: ID, ghost q: nat) returns (index: nat)
    requires Stored(items, clients) && q < |items| && items[q].Snap().Covers(id)
    ensures id.client in clients && index < |clients[id.client]| && clients[id.client][index] == items[q]
  {
    assert StoredAt(items, clients, q);
    var structs := clients[id.client];
    ghost var k :| 0 <= k < |structs| && structs[k] == items[q];
    ghost var bs := Snaps(structs);
    BelowState(bs, id.client, k);
    index := FindIndexSS(structs, id.client, id.clock);
    if index < k { Sorted(bs, id.client, index, k); }
    if k < index { Sorted(bs, id.client, k, index); }
  }

  // ----- What a change of one item does to the store -----

  /** `ps` is what `structs` were when `items` were `bs`. */
  ghost predicate Were(structs: seq<Item>, ps: seq<Block>, items: seq<Item>, bs: seq<Block>)
    requires |items| == |bs|
  {
    && |structs| == |ps|
    && forall k, j :: 0 <= k < |structs| && 0 <= j < |items| && structs[k] == items[j] ==> ps[k] == bs[j]
  }

  /** All items but the one at `i` are what they were. */
  ghost predicate OthersSame(items: seq<Item>, bs: seq<Block>, i: nat)
    reads items
  {
    |items| == |bs| && forall j :: 0 <= j < |items| && j != i ==> items[j].Snap() == bs[j]
  }

  lemma OtherSnaps(items: seq<Item>, bs: seq<Block>, i: nat, structs: seq<Item>, ps: seq<Block>, client: nat)
    requires i < |items| && OthersSame(items, bs, i) && AllIn(structs, items)
    requires Were(structs, ps, items, bs) && Partition(ps, client) && bs[i].id.client != client
    ensures Snaps(structs) == ps
  {
    forall k | 0 <= k < |structs| ensures structs[k].Snap() == ps[k] {
      assert InAt(structs, items, k);
    }
  }

  lemma CutSnaps(items: seq<Item>, bs: seq<Block>, i: nat, structs: seq<Item>, ps: seq<Block>, client: nat, index: nat,
                 diff: nat, it: Item)
    requires i < |items| && OthersSame(items, bs, i) && AllIn(structs, items)
    requires Were(structs, ps, items, bs) && Partition(ps, client)
    requires index < |structs| && structs[index] == items[i] && 0 < diff < bs[i].len
    requires items[i].Snap() == LeftPart(bs[i], diff) && it.Snap() == RightPart(bs[i], diff)
    ensures Snaps(Spliced(structs, index, it)) == SplitAt(ps, index, diff)
  {
    forall k | 0 <= k < |structs| && k != index ensures structs[k].Snap() == ps[k] {
      assert InAt(structs, items, k);
      Distinct(ps, client, index, k);
    }
  }

  lemma CutStored(items: seq<Item>, bs: seq<Block>, i: nat, clients: map<nat, seq<Item>>, parts: map<nat, seq<Block>>,
                  client: nat, index: nat, diff: nat, it: Item)
    requires SameItems(items, clients) && OthersSame(items, bs, i) && parts.Keys == clients.Keys
    requires forall c :: c in clients ==> Were(clients[c], parts[c], items, bs) && Partition(parts[c], c)
    requires client in clients && index < |clients[client]| && i < |items| && items[i] == clients[client][index]
    requires 0 < diff < bs[i].len
    requires items[i].Snap() == LeftPart(bs[i], diff) && it.Snap() == RightPart(bs[i], diff)
    ensures Stored(Spliced(items, i, it), clients[client := Spliced(clients[client], index, it)])
  {
    var clients' := clients[client := Spliced(clients[client], index, it)];
    assert parts[client][index].id.client == client;
    CutSameItems(items, i, index, clients, client, it);
    forall c | c in clients
      ensures PartitionOf(clients'[c], Spliced(items, i, it), c)
    {
      if c == client {
        CutSnaps(items, bs, i, clients[c], parts[c], c, index, diff, it);
        SplitPartition(parts[c], c, index, diff);
      } else {
        OtherSnaps(items, bs, i, clients[c], parts[c], c);
      }
    }
  }

  /** Where no item changed, the store did not. */
  lemma StoreSame(items: seq<Item>, bs: seq<Block>, clients: map<nat, seq<Item>>, parts: map<nat, seq<Block>>)
    requires SameItems(items, clients) && Snaps(items) == bs && parts.Keys == clients.Keys
    requires forall c :: c in clients ==> Were(clients[c], parts[c], items, bs) && Partition(parts[c], c)
    ensures Stored(items, clients) && forall c :: c in clients ==> Snaps(clients[c]) == parts[c]
  {
    forall c | c in clients ensures PartitionOf(clients[c], items, c) && Snaps(clients[c]) == parts[c] {
      var structs := clients[c];
      forall k | 0 <= k < |structs| ensures structs[k].Snap() == parts[c][k] {
        assert AllIn(structs, items) && InAt(structs, items, k);
      }
    }
  }

  /** The list and the store stay the same items when both get a new one. */
  lemma CutSameItems(items: seq<Item>, i: nat, index: nat, clients: map<nat, seq<Item>>, client: nat, it: Item)
    requires SameItems(items, clients) && client in clients && it.client == client
    requires i < |items| && index < |clients[client]|
    ensures SameItems(Spliced(items, i, it), clients[client := Spliced(clients[client], index, it)])
  {
    var items' := Spliced(items, i, it);
    var structs, structs' := clients[client], Spliced(clients[client], index, it);
    forall j | 0 <= j < |structs'| ensures InAt(structs', items', j) {
      InSpliced(items, i, it);
      assert j != index + 1 ==> InAt(structs, items, if j <= index then j else j - 1);
    }
    forall c, j | c in clients && c != client && 0 <= j < |clients[c]| ensures InAt(clients[c], items', j) {
      InSpliced(items, i, it);
      assert AllIn(clients[c], items) && InAt(clients[c], items, j);
    }
    var clients' := clients[client := structs'];
    forall j | 0 <= j < |items'| ensures StoredAt(items', clients', j) {
      InSpliced(structs, index, it);
      assert j != i + 1 ==> StoredAt(items, clients, if j <= i then j else j - 1);
    }
  }

  lemma InSpliced(s: seq<Item>, i: nat, it: Item)
    requires i < |s|
    ensures it in Spliced(s, i, it) && forall x <- s :: x in Spliced(s, i, it)
  {
    assert s == s[..i + 1] + s[i + 1..];
  }

  method CutStruct(ghost items: seq<Item>, ghost others: seq<Item>, ghost start: Item?, clients: map<nat, seq<Item>>,
                   client: nat, index: nat, diff: nat, ghost i: nat)
    returns (rightItem: Item, ghost items': seq<Item>, clients': map<nat, seq<Item>>)
    requires Linked(items, start) && StoredWith(items, others, clients) && client in clients
    requires index < |clients[client]|
    requires i < |items| && items[i] == clients[client][index] && 0 < diff < items[i].length
    modifies items
    ensures Linked(items', start) && StoredWith(items', others, clients') && fresh(rightItem)
    ensures items' == Spliced(items, i, rightItem)
    ensures Snaps(items') == SplitAt(old(Snaps(items)), i, diff)
  {
    ghost var whole := items + others;
    ghost var bs := Snaps(whole);
    ghost var parts := map c | c in clients :: Snaps(clients[c]);
    rightItem, items' := SplitItem(items, start, i, clients[client][index], diff);
    clients' := clients[client := Spliced(clients[client], index, rightItem)];
    forall j | 0 <= j < |whole| && j != i ensures whole[j].Snap() == bs[j] {
      assert j >= |items| ==> OtherAt(items, others, j - |items|);
    }
    CutStored(whole, bs, i, clients, parts, client, index, diff, rightItem);
    SplicedWith(items, others, i, rightItem);
  }

  lemma SplicedWith(items: seq<Item>, others: seq<Item>, i: nat, it: Item)
    requires i < |items| && it !in others && forall k :: 0 <= k < |others| ==> OtherAt(items, others, k)
    ensures Spliced(items + others, i, it) == Spliced(items, i, it) + others
    ensures forall k :: 0 <= k < |others| ==> OtherAt(Spliced(items, i, it), others, k)
  {
    forall k | 0 <= k < |others| ensures OtherAt(Spliced(items, i, it), others, k) {
      assert OtherAt(items, others, k);
    }
  }

  lemma InsertedWith(items: seq<Item>, others: seq<Item>, i: nat, it: Item)
    requires i <= |items| && it !in others && forall k :: 0 <= k < |others| ==> OtherAt(items, others, k)
    ensures Inserted(items + others, i, it) == Inserted(items, i, it) + others
    ensures forall k :: 0 <= k < |others| ==> OtherAt(Inserted(items, i, it), others, k)
  {
    forall k | 0 <= k < |others| ensures OtherAt(Inserted(items, i, it), others, k) {
      assert OtherAt(items, others, k);
    }
  }

  /** `getItemCleanStart`: the item that begins with a unit.  `cut` units are split off in front of it. */
  method GetItemCleanStart(ghost items: seq<Item>, ghost others: seq<Item>, ghost start: Item?,
                           clients: map<nat, seq<Item>>, id: ID, ghost q: nat)
    returns (it: Item, cut: nat, ghost items': seq<Item>, clients': map<nat, seq<Item>>)
    requires Linked(items, start) && StoredWith(items, others, clients)
    requires q < |items| && items[q].Snap().Covers(id)
    modifies items
    ensures Linked(items', start) && StoredWith(items', others, clients') && cut == id.clock - old(items[q].clock)
    ensures cut == 0 ==> it == items[q] && items' == items && Snaps(items') == old(Snaps(items))
    ensures cut > 0 ==>
      fresh(it) && items' == Spliced(items, q, it) && Snaps(items') == SplitAt(old(Snaps(items)), q, cut)
  {
    var index := Locate(items + others, clients, id, q);
    it := clients[id.client][index];
    cut := id.clock - it.clock;
    items', clients' := items, clients;
    if it.clock < id.clock {
      it, items', clients' := CutStruct(items, others, start, clients, id.client, index, cut, q);
    }
  }

  /** `getItemCleanEnd`: the item that ends with a unit.  `kept` units remain in it. */
  method GetItemCleanEnd(ghost items: seq<Item>, ghost others: seq<Item>, ghost start: Item?,
                         clients: map<nat, seq<Item>>, id: ID, ghost q: nat)
    returns (it: Item, kept: nat, ghost r: Item, ghost items': seq<Item>, clients': map<nat, seq<Item>>)
    requires Linked(items, start) && StoredWith(items, others, clients)
    requires q < |items| && items[q].Snap().Covers(id)
    modifies items
    ensures Linked(items', start) && StoredWith(items', others, clients') && it == items[q]
    ensures kept == id.clock - old(items[q].clock) + 1
    ensures kept == old(items[q].length) ==> items' == items && Snaps(items') == old(Snaps(items))
    ensures kept < old(items[q].length) ==>
      fresh(r) && items' == Spliced(items, q, r) && Snaps(items') == SplitAt(old(Snaps(items)), q, kept)
  {
    var index := Locate(items + others, clients, id, q);
    it := clients[id.client][index];
    kept := id.clock - it.clock + 1;
    r, items', clients' := it, items, clients;
    if id.clock != it.clock + it.length - 1 {
      var right;
      right, items', clients' := CutStruct(items, others, start, clients, id.client, index, kept, q);
      r := right;
    }
  }

  lemma Distinct(bs: seq<Block>, client: nat, i: nat, k: nat)
    requires Partition(bs, client) && i < |bs| && k < |bs| && i != k
    ensures bs[i] != bs[k]
  {
    if i < k { Sorted(bs, client, i, k); } else { Sorted(bs, client, k, i); }
  }

  // ----- Integrating an item -----

  function ItemAt(items: seq<Item>, i: int): Item? {
    if 0 <= i < |items| then items[i] else null
  }

  /** The origins of all items are in the list. */
  predicate OriginsIn(bs: seq<Block>) {
    forall b <- bs :: b.origin.Some? ==> FindBlock(bs, b.origin.value) < |bs|
  }

  ghost predicate HoldsAt(s: set<Item>, items: seq<Item>, i: int, j: int, k: nat)
    requires k < |items|
  {
    items[k] in s <==> i < k < j
  }

  /** `s` holds the items strictly between two positions. */
  ghost predicate Between(s: set<Item>, items: seq<Item>, i: int, j: int) {
    forall k :: 0 <= k < |items| ==> HoldsAt(s, items, i, j, k)
  }

  lemma BetweenGrows(s: set<Item>, items: seq<Item>, start: Item?, i: int, j: nat)
    requires Linked(items, start) && Between(s, items, i, j) && i < j < |items|
    ensures Between(s + {items[j]}, items, i, j + 1)
  {
    var t, j' := s + {items[j]}, j + 1;
    forall k | 0 <= k < |items| ensures HoldsAt(t, items, i, j', k) {
      assert HoldsAt(s, items, i, j, k);
      assert k < j ==> Differ(items, k, j);
      assert j < k ==> Differ(items, j, k);
    }
  }

  /** One round of the conflict loop, for the item `o` at position `i`. */
  method Judge(ghost items: seq<Item>, ghost others: seq<Item>, clients: map<nat, seq<Item>>, x: Block, o: Item,
               itemsBeforeOrigin: set<Item>, conflictingItems: set<Item>, ghost from: int, ghost i: nat, ghost l: int)
    returns (verdict: Verdict)
    requires StoredWith(items, others, clients) && OriginsIn(Snaps(items)) && -1 <= from <= l < i < |items|
    requires o == items[i]
    requires Between(itemsBeforeOrigin, items, from, i + 1) && Between(conflictingItems, items, l, i + 1)
    ensures verdict == Ask(Snaps(items), x, from, i, l)
  {
    ghost var bs := Snaps(items);
    assert bs[i] in bs;
    if x.origin == o.origin {
      if o.client < x.id.client {
        return Pass;
      } else if x.rightOrigin == o.rightOrigin {
        return Stop;
      }
      return Keep;
    } else if o.origin.Some? {
      ghost var q := FindBlock(bs, o.origin.value);
      var index := Locate(items + others, clients, o.origin.value, q);
      var origin := clients[o.origin.value.client][index];
      assert HoldsAt(itemsBeforeOrigin, items, from, i + 1, q) && HoldsAt(conflictingItems, items, l, i + 1, q);
      if origin in itemsBeforeOrigin {
        return if origin !in conflictingItems then Pass else Keep;
      }
    }
    return Stop;
  }

  /** One round, and what it means for the scan. */
  method Round(ghost items: seq<Item>, ghost others: seq<Item>, clients: map<nat, seq<Item>>, x: Block, o: Item,
               itemsBeforeOrigin: set<Item>, conflictingItems: set<Item>, ghost from: int, ghost r: nat, ghost i: nat,
               ghost l: int)
    returns (verdict: Verdict)
    requires StoredWith(items, others, clients) && OriginsIn(Snaps(items)) && -1 <= from <= l < i < |items|
    requires o == items[i] && i != r
    requires Between(itemsBeforeOrigin, items, from, i + 1) && Between(conflictingItems, items, l, i + 1)
    ensures ScanBlocks(Snaps(items), x, from, r, i, l) ==
            if verdict == Stop then l else ScanBlocks(Snaps(items), x, from, r, i + 1, if verdict == Pass then i else l)
  {
    verdict := Judge(items, others, clients, x, o, itemsBeforeOrigin, conflictingItems, from, i, l);
    if verdict == Stop {
      ScanEnds(Snaps(items), x, from, r, i, l);
    } else {
      ScanGoesOn(Snaps(items), x, from, r, i, l, if verdict == Pass then i else l);
    }
  }

  /** Positions are determined by the item that stands there. */
  lemma SamePosition(items: seq<Item>, start: Item?, i: int, j: int)
    requires Linked(items, start) && 0 <= i <= |items| && 0 <= j <= |items| && ItemAt(items, i) == ItemAt(items, j)
    ensures i == j
  {
    assert i < j < |items| ==> Differ(items, i, j);
    assert j < i < |items| ==> Differ(items, j, i);
  }

  /** Without anything between the two neighbours the scan is not needed. */
  lemma NothingBetween(items: seq<Item>, start: Item?, from: int, r: nat)
    requires Linked(items, start) && -1 <= from < r <= |items|
    requires from >= 0 ==> items[from].right == ItemAt(items, r)
    requires from == -1 ==> r < |items| && items[r].left == null
    ensures r == from + 1
  {
    if from >= 0 {
      assert LinkedAt(items, from);
      SamePosition(items, start, from + 1, r);
    } else {
      assert LinkedAt(items, r);
    }
  }

  /** The conflict loop of `integrate`, from the item `first` on. */
  method ScanLoop(ghost items: seq<Item>, ghost others: seq<Item>, ghost start: Item?, clients: map<nat, seq<Item>>,
                  x: Block, left0: Item?, right0: Item?, first: Item?, ghost from: int, ghost r: nat)
    returns (left: Item?, ghost k: int)
    requires Linked(items, start) && StoredWith(items, others, clients) && OriginsIn(Snaps(items))
    requires -1 <= from < r <= |items| && left0 == ItemAt(items, from) && right0 == ItemAt(items, r)
    requires first == ItemAt(items, from + 1)
    ensures k == ScanBlocks(Snaps(items), x, from, r, from + 1, from)
    ensures from <= k < r && left == ItemAt(items, ScanBlocks(Snaps(items), x, from, r, from + 1, from))
  {
    ghost var bs := Snaps(items);
    var o := first;
    var conflictingItems: set<Item> := {};
    var itemsBeforeOrigin: set<Item> := {};
    left, k := left0, from;
    ghost var i := from + 1;
    ghost var target := ScanBlocks(bs, x, from, r, i, k);
    while o != null && o != right0
      invariant from <= k < i <= r
      invariant o == ItemAt(items, i)
      invariant left == ItemAt(items, k)
      invariant Between(itemsBeforeOrigin, items, from, i)
      invariant Between(conflictingItems, items, k, i)
      invariant target == ScanBlocks(bs, x, from, r, i, k)
      decreases r - i
    {
      assert i < r && o == items[i];
      assert LinkedAt(items, i);
      BetweenGrows(itemsBeforeOrigin, items, start, from, i);
      BetweenGrows(conflictingItems, items, start, k, i);
      itemsBeforeOrigin := itemsBeforeOrigin + {o};
      conflictingItems := conflictingItems + {o};
      var verdict := Round(items, others, clients, x, o, itemsBeforeOrigin, conflictingItems, from, r, i, k);
      if verdict == Stop {
        return;
      }
      if verdict == Pass {
        left, k := o, i;
        conflictingItems := {};
      }
      i := i + 1;
      o := o.right;
    }
    SamePosition(items, start, i, if o == null then |items| else r);
    ScanEnds(bs, x, from, r, i, k);
  }

  /** The conflict resolution of `integrate`: the item that the new one will follow. */
  method FindLeft(ghost items: seq<Item>, ghost others: seq<Item>, start: Item?, clients: map<nat, seq<Item>>,
                  x: Block, left0: Item?, right0: Item?, ghost from: int, ghost r: nat)
    returns (left: Item?, ghost k: int)
    requires Linked(items, start) && StoredWith(items, others, clients) && OriginsIn(Snaps(items))
    requires -1 <= from < r <= |items| && left0 == ItemAt(items, from) && right0 == ItemAt(items, r)
    ensures from <= k < r && left == ItemAt(items, k) && k + 1 == PlaceOfBlock(Snaps(items), x, from, r)
  {
    if (left0 == null && (right0 == null || right0.left != null)) || (left0 != null && left0.right != right0) {
      assert from >= 0 ==> LinkedAt(items, from);
      left, k := ScanLoop(items, others, start, clients, x, left0, right0,
        if left0 != null then left0.right else start, from, r);
    } else {
      left, k := left0, from;
      NothingBetween(items, start, from, r);
      ScanEnds(Snaps(items), x, from, r, from + 1, from);
    }
  }

  /** Links a new item behind `left`. */
  method Connect(ghost items: seq<Item>, start: Item?, b: Block, left: Item?, ghost k: nat)
    returns (x: Item, start': Item?, ghost items': seq<Item>)
    requires Linked(items, start) && k <= |items| && left == ItemAt(items, k - 1)
    modifies items
    ensures fresh(x) && items' == Inserted(items, k, x) && Linked(items', start')
    ensures x.Snap() == b && Snaps(items) == old(Snaps(items))
    ensures Snaps(items') == old(Snaps(items))[..k] + [b] + old(Snaps(items))[k..]
  {
    assert k > 0 ==> LinkedAt(items, k - 1);
    var right := if left != null then left.right else start;
    x := new Item(b.id.client, b.id.clock, b.len, left, b.origin, right, b.rightOrigin, b.deleted);
    Link(items, start, x, k);
    start' := if left != null then start else x;
    items' := Inserted(items, k, x);
  }

  /** `Connect` moves nothing of the other lists. */
  method ConnectBeside(ghost items: seq<Item>, ghost others: seq<Item>, start: Item?, b: Block, left: Item?,
                       ghost k: nat)
    returns (x: Item, start': Item?, ghost items': seq<Item>)
    requires Linked(items, start) && k <= |items| && left == ItemAt(items, k - 1)
    requires forall k :: 0 <= k < |others| ==> OtherAt(items, others, k)
    modifies items
    ensures fresh(x) && items' == Inserted(items, k, x) && Linked(items', start') && x.Snap() == b
    ensures Snaps(items') == old(Snaps(items))[..k] + [b] + old(Snaps(items))[k..]
    ensures Snaps(items + others) == old(Snaps(items + others))
  {
    ghost var whole, bs := items + others, Snaps(items + others);
    ghost var ps := Snaps(items);
    x, start', items' := Connect(items, start, b, left, k);
    forall j | 0 <= j < |whole| ensures whole[j].Snap() == bs[j] {
      assert if j < |items| then items[j].Snap() == Snaps(items)[j] == ps[j] else OtherAt(items, others, j - |items|);
    }
    assert Snaps(whole) == bs;
  }

  function Added(clients: map<nat, seq<Item>>, x: Item): map<nat, seq<Item>> {
    clients[x.client := (if x.client in clients then clients[x.client] else []) + [x]]
  }

  ghost function StateIn(clients: map<nat, seq<Item>>, client: nat): nat
    reads if client in clients then clients[client] else []
  {
    if client in clients && clients[client] != [] then StateOf(Snaps(clients[client])) else 0
  }

  /** The clocks below `n` are exactly the ones of the client's units. */
  ghost predicate NextClock(s: seq<Yata.Item>, client: nat, n: nat) {
    forall m: nat :: m < n <==> Has(s, ID(client, m))
  }

  lemma HeldIff(items: seq<Item>, clients: map<nat, seq<Item>>, c: nat, m: nat)
    requires Stored(items, clients)
    ensures m < StateIn(clients, c) <==> Has(Flatten(Snaps(items)), ID(c, m))
  {
    var bs, id := Snaps(items), ID(c, m);
    HasUnit(bs, id);
    if m < StateIn(clients, c) {
      assert PartitionOf(clients[c], items, c);
      var i := Held(Snaps(clients[c]), c, m);
      assert AllIn(clients[c], items) && InAt(clients[c], items, i);
      var j :| 0 <= j < |items| && items[j] == clients[c][i];
      FindsFirst(bs, id, 0, j);
    }
    if Has(Flatten(bs), id) {
      var j := FindBlock(bs, id);
      assert StoredAt(items, clients, j);
      var k :| 0 <= k < |clients[c]| && clients[c][k] == items[j];
      BelowState(Snaps(clients[c]), c, k);
    }
  }

  /** `getState` is the next clock of the client. */
  lemma StateIsNext(items: seq<Item>, clients: map<nat, seq<Item>>, c: nat, n: nat)
    requires Stored(items, clients) && NextClock(Flatten(Snaps(items)), c, n)
    ensures StateIn(clients, c) == n
  {
    HeldIff(items, clients, c, n);
    if n > 0 {
      HeldIff(items, clients, c, n - 1);
    }
  }

  /** `addStruct`: the store gets the item that the list got. */
  lemma AddStored(items: seq<Item>, clients: map<nat, seq<Item>>, k: nat, x: Item)
    requires Stored(items, clients) && k <= |items| && x.length > 0
    requires x.clock == StateIn(clients, x.client)
    ensures Stored(Inserted(items, k, x), Added(clients, x))
  {
    var items', clients' := Inserted(items, k, x), Added(clients, x);
    forall c, j | c in clients' && 0 <= j < |clients'[c]| ensures InAt(clients'[c], items', j) {
      assert items == items[..k] + items[k..];
      if !(c == x.client && j == |clients'[c]| - 1) {
        assert AllIn(clients[c], items) && InAt(clients[c], items, j);
      }
    }
    forall j | 0 <= j < |items'| ensures StoredAt(items', clients', j) {
      assert j != k ==> StoredAt(items, clients, if j < k then j else j - 1);
    }
    forall c | c in clients' ensures PartitionOf(clients'[c], items', c) {
      if c == x.client && c in clients {
        assert PartitionOf(clients[c], items, c);
        assert Snaps(clients'[c]) == Snaps(clients[c]) + [x.Snap()];
        AddPartition(Snaps(clients[c]), c, x.Snap());
      } else if c in clients {
        assert PartitionOf(clients[c], items, c);
      }
    }
  }

  /** The left part of `getMissing`: the item that ends with the origin, split if needed. */
  method FindLeftNeighbour(ghost items: seq<Item>, ghost others: seq<Item>, ghost start: Item?,
                           clients: map<nat, seq<Item>>, id: Option<ID>, ghost q: nat)
    returns (left: Item?, ghost from: int, ghost kept: nat, ghost items': seq<Item>, clients': map<nat, seq<Item>>)
    requires Linked(items, start) && StoredWith(items, others, clients)
    requires id.Some? ==> q < |items| && items[q].Snap().Covers(id.value)
    modifies items
    ensures Linked(items', start) && StoredWith(items', others, clients') && left == ItemAt(items', from)
    ensures id.None? ==> items' == items && from == -1 && Snaps(items') == old(Snaps(items))
    ensures id.Some? ==> from == q && 0 < kept <= old(items[q].length)
    ensures id.Some? ==> Snaps(items') == CutAt(old(Snaps(items)), q, kept)
    ensures id.Some? ==> forall j :: q < j <= |items| ==>
      ItemAt(items', Moved(old(Snaps(items)), q, kept, j)) == ItemAt(items, j)
    ensures CleanLeft(Snaps(items'), id, from)
    ensures forall j :: 0 <= j < |items'| ==> items'[j] in items || fresh(items'[j])
  {
    left, from, kept, items', clients' := null, -1, 0, items, clients;
    if id.Some? {
      var n;
      ghost var rest;
      left, n, rest, items', clients' := GetItemCleanEnd(items, others, start, clients, id.value, q);
      from, kept := q, n;
      assert left.Snap() == Snaps(items')[q];
    }
  }

  /** The right part of `getMissing`: the item that begins with the right origin, split if needed. */
  method FindRightNeighbour(ghost items: seq<Item>, ghost others: seq<Item>, ghost start: Item?,
                            clients: map<nat, seq<Item>>, id: Option<ID>, ghost q: nat)
    returns (right: Item?, ghost r: nat, ghost cut: nat, ghost items': seq<Item>, clients': map<nat, seq<Item>>)
    requires Linked(items, start) && StoredWith(items, others, clients)
    requires id.Some? ==> q < |items| && items[q].Snap().Covers(id.value)
    modifies items
    ensures Linked(items', start) && StoredWith(items', others, clients') && right == ItemAt(items', r)
    ensures id.None? ==> items' == items && r == |items| && Snaps(items') == old(Snaps(items))
    ensures id.Some? ==> cut < old(items[q].length) && r == (if cut == 0 then q else q + 1)
    ensures id.Some? ==> Snaps(items') == CutAt(old(Snaps(items)), q, cut)
    ensures id.Some? ==> forall j :: 0 <= j < q ==> ItemAt(items', j) == ItemAt(items, j)
    ensures CleanRight(Snaps(items'), id, r) && forall j :: 0 <= j < |items'| ==> items'[j] in items || fresh(items'[j])
  {
    right, r, cut, items', clients' := null, |items|, 0, items, clients;
    if id.Some? {
      var n;
      right, n, items', clients' := GetItemCleanStart(items, others, start, clients, id.value, q);
      cut, r := n, if n == 0 then q else q + 1;
      assert right.Snap() == Snaps(items')[r];
    }
  }

  // ----- The shared sequence -----

  ghost predicate ValidList(items: seq<Item>, others: seq<Item>, start: Item?, clients: map<nat, seq<Item>>)
    reads items, others
  {
    Linked(items, start) && StoredWith(items, others, clients) && NonEmpty(Snaps(items))
  }

  /** The rest of a block whose first units are known already. */
  function Rest(b: Block, offset: nat): Block
    requires offset < b.len
  {
    if offset == 0 then b else RightPart(b, offset)
  }

  /** The block that holds a unit of the list. */
  lemma BlockOf(bs: seq<Block>, id: ID) returns (q: nat)
    requires UniqueIds(Flatten(bs)) && Has(Flatten(bs), id)
    ensures q < |bs| && bs[q].Covers(id)
  {
    q := FindBlock(bs, id);
    FindBlockUnit(bs, id);
  }

  /** The block that holds the right origin stands right of the origin. */
  lemma RightBlock(bs: seq<Block>, from: int, b: Block) returns (q: nat)
    requires UniqueIds(Flatten(bs)) && DepsIn(Flatten(bs), b.Unit(0)) && b.rightOrigin.Some?
    requires CleanLeft(bs, b.origin, from)
    requires LeftOf(Flatten(bs), b.Unit(0)) < RightOf(Flatten(bs), b.Unit(0))
    ensures from < q < |bs| && bs[q].Covers(b.rightOrigin.value)
  {
    q := FindBlock(bs, b.rightOrigin.value);
    FindBlockUnit(bs, b.rightOrigin.value);
    EndsBefore(bs, from, b.origin, b.rightOrigin.value);
  }

  /** The origin's half of `getMissing`. */
  method ResolveLeft(ghost items: seq<Item>, ghost others: seq<Item>, ghost start: Item?, clients: map<nat, seq<Item>>,
                     b: Block)
    returns (left: Item?, ghost from: int, ghost items': seq<Item>, clients': map<nat, seq<Item>>)
    requires ValidList(items, others, start, clients) && UniqueIds(UnitsOf(items)) && DepsIn(UnitsOf(items), b.Unit(0))
    modifies items
    ensures ValidList(items', others, start, clients')
    ensures UnitsOf(items') == old(UnitsOf(items)) && Marks(Snaps(items')) == old(Marks(Snaps(items)))
    ensures CleanLeft(Snaps(items'), b.origin, from) && left == ItemAt(items', from)
    ensures forall j :: 0 <= j < |items'| ==> items'[j] in items || fresh(items'[j])
  {
    ghost var bs, q, n := Snaps(items), 0, 0;
    if b.origin.Some? {
      q := BlockOf(bs, b.origin.value);
    }
    left, from, n, items', clients' := FindLeftNeighbour(items, others, start, clients, b.origin, q);
    if b.origin.Some? {
      CutKeeps(bs, q, n);
    }
  }

  /** `getMissing`, once nothing is missing: the items at both sides, split where needed. */
  method FindNeighbours(ghost items: seq<Item>, ghost others: seq<Item>, ghost start: Item?,
                        clients: map<nat, seq<Item>>, b: Block)
    returns (left: Item?, right: Item?, ghost from: int, ghost r: nat, ghost items': seq<Item>,
             clients': map<nat, seq<Item>>)
    requires ValidList(items, others, start, clients) && UniqueIds(Flatten(Snaps(items)))
    requires DepsIn(Flatten(Snaps(items)), b.Unit(0))
    requires LeftOf(Flatten(Snaps(items)), b.Unit(0)) < RightOf(Flatten(Snaps(items)), b.Unit(0))
    modifies items
    ensures ValidList(items', others, start, clients')
    ensures Flatten(Snaps(items')) == old(Flatten(Snaps(items))) && Marks(Snaps(items')) == old(Marks(Snaps(items)))
    ensures Clean(Snaps(items'), b, from, r) && from < r
    ensures left == ItemAt(items', from) && right == ItemAt(items', r)
    ensures forall j :: 0 <= j < |items'| ==> items'[j] in items || fresh(items'[j])
  {
    left, from, items', clients' := ResolveLeft(items, others, start, clients, b);
    ghost var bs, q, n := Snaps(items'), 0, 0;
    if b.rightOrigin.Some? {
      q := RightBlock(bs, from, b);
    }
    right, r, n, items', clients' := FindRightNeighbour(items', others, start, clients', b.rightOrigin, q);
    if b.rightOrigin.Some? {
      CutKeeps(bs, q, n);
      CutCleanLeft(bs, q, n, b.origin, from);
    }
  }

  /** The part of `integrate` for an item whose first `offset` units are known: it goes
      on from the last of them. */
  method Trim(ghost items: seq<Item>, ghost others: seq<Item>, ghost start: Item?, clients: map<nat, seq<Item>>,
              b: Block, offset: nat, right: Item?, ghost r: nat)
    returns (left: Item?, ghost from: int, ghost r': nat, ghost items': seq<Item>, clients': map<nat, seq<Item>>)
    requires ValidList(items, others, start, clients) && UniqueIds(Flatten(Snaps(items))) && 0 < offset < b.len
    requires CleanRight(Snaps(items), b.rightOrigin, r) && right == ItemAt(items, r)
    requires DepsIn(Flatten(Snaps(items)), b.Unit(offset))
    requires LeftOf(Flatten(Snaps(items)), b.Unit(offset)) < RightOf(Flatten(Snaps(items)), b.Unit(offset))
    modifies items
    ensures ValidList(items', others, start, clients')
    ensures Flatten(Snaps(items')) == old(Flatten(Snaps(items))) && Marks(Snaps(items')) == old(Marks(Snaps(items)))
    ensures Clean(Snaps(items'), RightPart(b, offset), from, r') && from < r'
    ensures left == ItemAt(items', from) && right == ItemAt(items', r')
    ensures forall j :: 0 <= j < |items'| ==> items'[j] in items || fresh(items'[j])
  {
    var id := ID(b.id.client, b.id.clock + offset - 1);
    ghost var bs, n := Snaps(items), 0;
    ghost var q := FindBlock(bs, id);
    FindBlockUnit(bs, id);
    StandsBefore(bs, id, b.rightOrigin, r);
    left, from, n, items', clients' := FindLeftNeighbour(items, others, start, clients, Some(id), q);
    CutKeeps(bs, q, n);
    CutCleanRight(bs, q, n, b.rightOrigin, r);
    r' := Moved(bs, q, n, r);
  }

  /** Links a new item behind `left` and adds it to the store. */
  method Place(ghost items: seq<Item>, ghost others: seq<Item>, start: Item?, clients: map<nat, seq<Item>>, x: Block,
               left: Item?, ghost k: nat)
    returns (start': Item?, ghost items': seq<Item>, clients': map<nat, seq<Item>>)
    requires ValidList(items, others, start, clients) && k <= |items| && left == ItemAt(items, k - 1)
    requires x.len > 0 && NextClock(AllUnits(items, others), x.id.client, x.id.clock)
    modifies items
    ensures ValidList(items', others, start', clients')
    ensures IsInserted(old(Snaps(items)), k, x, Snaps(items'))
  {
    ghost var whole := items + others;
    ghost var bs := Snaps(whole);
    ghost var parts := map c | c in clients :: Snaps(clients[c]);
    AllFlattened(items, others);
    StateIsNext(whole, clients, x.id.client, x.id.clock);
    var it;
    it, start', items' := ConnectBeside(items, others, start, x, left, k);
    StoreSame(whole, bs, clients, parts);
    clients' := Added(clients, it);
    AddStored(whole, clients, k, it);
    InsertedWith(items, others, k, it);
    StaysNonEmpty(old(Snaps(items)), k, x);
  }

  predicate IsInserted(bs: seq<Block>, k: nat, x: Block, bs': seq<Block>)
    requires k <= |bs|
  {
    bs' == bs[..k] + [x] + bs[k..]
  }

  /** The block, put at the place that the scan finds. */
  predicate PutInPlace(bs: seq<Block>, x: Block, from: int, r: nat, bs': seq<Block>)
    requires OriginsIn(bs) && -1 <= from < r <= |bs|
  {
    var k := PlaceOfBlock(bs, x, from, r);
    from < k <= r && IsInserted(bs, k, x, bs')
  }

  /** `integrate`, from the conflict loop on: places the item between its neighbours. */
  method InsertBlock(ghost items: seq<Item>, ghost others: seq<Item>, start: Item?, clients: map<nat, seq<Item>>,
                     x: Block, left0: Item?, right0: Item?, ghost from: int, ghost r: nat)
    returns (start': Item?, ghost items': seq<Item>, clients': map<nat, seq<Item>>)
    requires ValidList(items, others, start, clients) && OriginsIn(Snaps(items)) && x.len > 0
    requires -1 <= from < r <= |items|
    requires left0 == ItemAt(items, from) && right0 == ItemAt(items, r)
    requires NextClock(AllUnits(items, others), x.id.client, x.id.clock)
    modifies items
    ensures ValidList(items', others, start', clients')
    ensures PutInPlace(old(Snaps(items)), x, from, r, Snaps(items'))
  {
    var left;
    ghost var k;
    left, k := FindLeft(items, others, start, clients, x, left0, right0, from, r);
    start', items', clients' := Place(items, others, start, clients, x, left, k + 1);
  }

  lemma StaysNonEmpty(bs: seq<Block>, k: nat, x: Block)
    requires NonEmpty(bs) && k <= |bs| && x.len > 0
    ensures NonEmpty(bs[..k] + [x] + bs[k..])
  {
  }

  lemma RestUnit(b: Block, offset: nat, k: nat)
    requires offset < b.len && k < b.len - offset
    ensures Rest(b, offset).len == b.len - offset && Rest(b, offset).Unit(k) == b.Unit(offset + k)
  {
  }

  /** The neighbours of a unit that is in the list enclose it. */
  lemma EnclosedByNeighbours(s: seq<Yata.Item>, u: Yata.Item)
    requires Canonical(s) && u in s
    ensures DepsIn(s, u) && LeftOf(s, u) < RightOf(s, u)
  {
    var i :| 0 <= i < |s| && s[i] == u;
    assert Placed(ArcsOf(s), i);
  }

  /** The neighbours of the part of a block that is not known yet. */
  method FindPlace(ghost items: seq<Item>, ghost others: seq<Item>, ghost start: Item?, clients: map<nat, seq<Item>>,
                   b: Block, offset: nat)
    returns (left: Item?, right: Item?, ghost from: int, ghost r: nat, ghost items': seq<Item>,
             clients': map<nat, seq<Item>>)
    requires ValidList(items, others, start, clients) && Canonical(Flatten(Snaps(items))) && offset < b.len
    requires Admissible(Flatten(Snaps(items)), b.Unit(offset))
    requires offset > 0 ==> b.Unit(0) in Flatten(Snaps(items))
    modifies items
    ensures ValidList(items', others, start, clients')
    ensures Flatten(Snaps(items')) == old(Flatten(Snaps(items))) && Marks(Snaps(items')) == old(Marks(Snaps(items)))
    ensures Clean(Snaps(items'), Rest(b, offset), from, r) && from < r
    ensures left == ItemAt(items', from) && right == ItemAt(items', r)
    ensures forall j :: 0 <= j < |items'| ==> items'[j] in items || fresh(items'[j])
  {
    if offset > 0 {
      EnclosedByNeighbours(Flatten(Snaps(items)), b.Unit(0));
    }
    left, right, from, r, items', clients' := FindNeighbours(items, others, start, clients, b);
    if offset > 0 {
      left, from, r, items', clients' := Trim(items', others, start, clients', b, offset, right, r);
    }
  }

  /** `integrate` for the units of a block from `offset` on: the list becomes what
      integrating these units one after the other makes of it. */
  method IntegrateBlock(ghost items: seq<Item>, ghost others: seq<Item>, start: Item?, clients: map<nat, seq<Item>>,
                        b: Block, offset: nat)
    returns (start': Item?, ghost items': seq<Item>, clients': map<nat, seq<Item>>)
    requires ValidList(items, others, start, clients) && Canonical(Flatten(Snaps(items))) && offset < b.len
    requires NextClock(AllUnits(items, others), b.id.client, b.id.clock + offset)
    requires Admissible(Flatten(Snaps(items)), b.Unit(offset))
    requires offset > 0 ==> b.Unit(0) in Flatten(Snaps(items))
    modifies items
    ensures ValidList(items', others, start', clients') && Canonical(Flatten(Snaps(items')))
    ensures Flatten(Snaps(items')) == IntegrateUnits(old(Flatten(Snaps(items))), Rest(b, offset), 0)
    ensures Alive(Marks(Snaps(items'))) == old(Alive(Marks(Snaps(items)))) + (if b.deleted then 0 else b.len - offset)
  {
    var left, right;
    ghost var from, r;
    ghost var os := Snaps(others);
    left, right, from, r, items', clients' := FindPlace(items, others, start, clients, b, offset);
    forall k | 0 <= k < |others| ensures others[k].Snap() == os[k] {
      assert OtherAt(items, others, k);
    }
    assert Snaps(others) == os;
    assert UnitsOf(items') == old(UnitsOf(items));
    RestIntegrated(Snaps(items'), b, offset, from, r);
    start', items', clients' := InsertBlock(items', others, start, clients', Rest(b, offset), left, right, from, r);
  }

  /** The units of a block from `offset` on, integrated at the place that the scan finds. */
  lemma RestIntegrated(bs: seq<Block>, b: Block, offset: nat, from: int, r: nat)
    requires Canonical(Flatten(bs)) && NonEmpty(bs) && offset < b.len && Admissible(Flatten(bs), b.Unit(offset))
    requires Clean(bs, Rest(b, offset), from, r)
    ensures OriginsIn(bs) && from < PlaceOfBlock(bs, Rest(b, offset), from, r) <= r
    ensures IsRestIntegrated(bs, b, offset, PlaceOfBlock(bs, Rest(b, offset), from, r))
  {
    var x := Rest(b, offset);
    RestUnit(b, offset, 0);
    OriginsFound(bs);
    BlockRefinesUnits(bs, x, from, r);
    AliveInserted(bs, PlaceOfBlock(bs, x, from, r), x);
  }

  predicate IsRestIntegrated(bs: seq<Block>, b: Block, offset: nat, k: nat)
    requires k <= |bs| && offset < b.len
  {
    var t := bs[..k] + [Rest(b, offset)] + bs[k..];
    && Flatten(t) == IntegrateUnits(Flatten(bs), Rest(b, offset), 0) && Canonical(Flatten(t))
    && Alive(Marks(t)) == Alive(Marks(bs)) + (if b.deleted then 0 else b.len - offset)
  }

  /** All that holds of a shared sequence: its links, its store, its order and its length. */
  ghost predicate IsSequence(items: seq<Item>, others: seq<Item>, start: Item?, clients: map<nat, seq<Item>>,
                             length: nat)
    reads items, others
  {
    && ValidList(items, others, start, clients) && Canonical(Flatten(Snaps(items)))
    && length == Alive(Marks(Snaps(items)))
  }

  ghost function UnitsOf(items: seq<Item>): seq<Yata.Item>
    reads items
  {
    Flatten(Snaps(items))
  }

  method Advance(ghost items: seq<Item>, ghost others: seq<Item>, start: Item?, clients: map<nat, seq<Item>>,
                 length: nat, b: Block, offset: nat)
    returns (start': Item?, ghost items': seq<Item>, clients': map<nat, seq<Item>>, length': nat)
    requires IsSequence(items, others, start, clients, length) && offset < b.len
    requires NextClock(AllUnits(items, others), b.id.client, b.id.clock + offset)
    requires Admissible(UnitsOf(items), b.Unit(offset)) && (offset > 0 ==> b.Unit(0) in UnitsOf(items))
    modifies items
    ensures IsSequence(items', others, start', clients', length')
    ensures UnitsOf(items') == IntegrateUnits(old(UnitsOf(items)), Rest(b, offset), 0)
    ensures UnitsOf(others) == old(UnitsOf(others))
    ensures length' == length + if b.deleted then 0 else b.len - offset
  {
    ghost var os := Snaps(others);
    start', items', clients' := IntegrateBlock(items, others, start, clients, b, offset);
    forall k | 0 <= k < |others| ensures others[k].Snap() == os[k] {
      assert OtherAt(items, others, k);
    }
    assert Snaps(others) == os;
    length' := length + if b.deleted then 0 else b.len - offset;
  }

  // ----- Deleting an item -----

  /** `qs` is `ps` but for the deleted marks. */
  predicate SameButMarks(ps: seq<Block>, qs: seq<Block>) {
    |qs| == |ps| && forall k :: 0 <= k < |ps| ==> MarkDiffers(ps, qs, k)
  }

  predicate MarkDiffers(ps: seq<Block>, qs: seq<Block>, k: nat)
    requires k < |ps| == |qs|
  {
    qs[k] == ps[k].(deleted := qs[k].deleted)
  }

  lemma PartitionMarks(ps: seq<Block>, qs: seq<Block>, client: nat)
    requires Partition(ps, client) && SameButMarks(ps, qs)
    ensures Partition(qs, client)
  {
    assert MarkDiffers(ps, qs, 0);
    forall k | 0 <= k < |qs| ensures qs[k].id.client == client && qs[k].len > 0 {
      assert MarkDiffers(ps, qs, k);
    }
    forall k | 0 < k < |qs| ensures FollowsAt(qs, k) {
      assert MarkDiffers(ps, qs, k) && MarkDiffers(ps, qs, k - 1) && FollowsAt(ps, k);
    }
  }

  /** What marking the item at `i` does to the store. */
  lemma MarkStored(items: seq<Item>, bs: seq<Block>, i: nat, clients: map<nat, seq<Item>>, parts: map<nat, seq<Block>>)
    requires SameItems(items, clients) && i < |items| && OthersSame(items, bs, i) && parts.Keys == clients.Keys
    requires items[i].Snap() == bs[i].(deleted := true)
    requires forall c :: c in clients ==> Were(clients[c], parts[c], items, bs) && Partition(parts[c], c)
    ensures Stored(items, clients)
  {
    forall c | c in clients ensures PartitionOf(clients[c], items, c) {
      var structs := clients[c];
      InItems(structs, items);
      var qs := Snaps(structs);
      forall k | 0 <= k < |structs| ensures MarkDiffers(parts[c], qs, k) {
        assert InAt(structs, items, k);
        var j :| 0 <= j < |items| && items[j] == structs[k];
        assert parts[c][k] == bs[j];
      }
      PartitionMarks(parts[c], qs, c);
    }
  }

  /** `markDeleted`. */
  method MarkItem(ghost items: seq<Item>, ghost others: seq<Item>, ghost start: Item?, it: Item, ghost i: nat)
    requires Linked(items, start) && (forall k :: 0 <= k < |others| ==> OtherAt(items, others, k))
    requires i < |items| && items[i] == it
    modifies it`deleted
    ensures Linked(items, start) && Snaps(items) == Delete(old(Snaps(items)), i)
    ensures OthersSame(items + others, old(Snaps(items + others)), i)
    ensures it.Snap() == old(it.Snap()).(deleted := true)
  {
    ghost var bs, whole, ws := Snaps(items), items + others, Snaps(items + others);
    it.deleted := true;
    forall j | 0 <= j < |items| && j != i ensures items[j].Snap() == bs[j] {
      assert if i < j then Differ(items, i, j) else Differ(items, j, i);
    }
    forall j | 0 <= j < |items| ensures LinkedAt(items, j) {
      assert old(LinkedAt(items, j));
    }
    forall j | 0 <= j < |whole| && j != i ensures whole[j].Snap() == ws[j] {
      assert j >= |items| ==> OtherAt(items, others, j - |items|);
    }
    assert Snaps(items) == Delete(bs, i);
  }

  /** `Item.delete`: marks the item and shortens the list; nothing moves. */
  method DeleteItem(ghost items: seq<Item>, ghost others: seq<Item>, ghost start: Item?,
                    ghost clients: map<nat, seq<Item>>, length: nat, it: Item, ghost i: nat)
    returns (length': nat)
    requires IsSequence(items, others, start, clients, length) && i < |items| && items[i] == it
    modifies it`deleted
    ensures IsSequence(items, others, start, clients, length') && UnitsOf(items) == old(UnitsOf(items))
    ensures Snaps(items) == Delete(old(Snaps(items)), i)
    ensures length' == length - if old(it.deleted) then 0 else it.length
  {
    hide Canonical, Partition, Alive;
    ghost var bs, whole := Snaps(items), items + others;
    ghost var ws := Snaps(whole);
    ghost var parts := map c | c in clients :: Snaps(clients[c]);
    DeletedUnits(bs, i);
    AliveDeleted(bs, i);
    forall c | c in clients ensures Were(clients[c], parts[c], whole, ws) && Partition(parts[c], c) {
      assert PartitionOf(clients[c], whole, c);
    }
    length' := if it.deleted then length else length - it.length;
    MarkItem(items, others, start, it, i);
    MarkStored(whole, ws, i, clients, parts);
  }

  /** What holds of the items holds whatever becomes of the list's own fields. */
  twostate lemma Framed(p: (seq<Item>, seq<Item>, Item?, map<nat, seq<Item>>, nat))
    requires unchanged(p.0) && unchanged(p.1) && old(IsSequence(p.0, p.1, p.2, p.3, p.4))
    ensures IsSequence(p.0, p.1, p.2, p.3, p.4) && UnitsOf(p.0) == old(UnitsOf(p.0))
    ensures UnitsOf(p.1) == old(UnitsOf(p.1))
  {
  }

  /** One shared sequence of a document.  The store holds its items, and those of others. */
  class List {
    var start: Item?
    var clients: map<nat, seq<Item>>
    var length: nat
    ghost var items: seq<Item>
    ghost var others: seq<Item>

    ghost predicate Valid()
      reads this, items, others
    {
      IsSequence(items, others, start, clients, length)
    }

    ghost function Units(): seq<Yata.Item>
      reads this, items
    {
      UnitsOf(items)
    }

    constructor ()
      ensures Valid() && Units() == [] && others == []
    {
      start, clients, length, items, others := null, map[], 0, [], [];
    }

    /** A further list of a store that holds the items of other lists. */
    constructor Beside(clients: map<nat, seq<Item>>, ghost others: seq<Item>)
      requires StoredWith([], others, clients)
      ensures Valid() && Units() == [] && this.clients == clients && this.others == others
    {
      this.start, this.clients, this.length, this.items, this.others := null, clients, 0, [], others;
    }

    /** Takes in an item whose first `offset` units are known already. */
    method Integrate(b: Block, offset: nat)
      requires Valid() && offset < b.len && NextClock(AllUnits(items, others), b.id.client, b.id.clock + offset)
      requires Admissible(Units(), b.Unit(offset)) && (offset > 0 ==> b.Unit(0) in Units())
      modifies this, items
      ensures Valid() && Units() == IntegrateUnits(old(Units()), Rest(b, offset), 0)
      ensures others == old(others) && UnitsOf(others) == old(UnitsOf(others))
      ensures length == old(length) + if b.deleted then 0 else b.len - offset
    {
      var start', clients', length';
      ghost var items';
      start', items', clients', length' := Advance(items, others, start, clients, length, b, offset);
      Become(items', start', clients', length');
    }

    /** The fields change; no item does. */
    method Become(ghost items': seq<Item>, start': Item?, clients': map<nat, seq<Item>>, length': nat)
      requires IsSequence(items', others, start', clients', length')
      modifies this
      ensures items == items' && others == old(others) && start == start' && clients == clients' && length == length'
      ensures Valid() && Units() == old(UnitsOf(items')) && UnitsOf(others) == old(UnitsOf(others))
    {
      label Given:
      start, clients, items, length := start', clients', items', length';
      Framed@Given((items', others, start', clients', length'));
    }

    /** Deletes an item of the list. */
    method Delete(it: Item)
      requires Valid() && it in items
      modifies this`length, it`deleted
      ensures Valid() && Units() == old(Units())
      ensures it.deleted && length == old(length) - if old(it.deleted) then 0 else it.length
    {
      ghost var i :| 0 <= i < |items| && items[i] == it;
      var length' := DeleteItem(items, others, start, clients, length, it, i);
      label Marked:
      length := length';
      Framed@Marked((items, others, start, clients, length'));
    }
  }
}
