/** Transactions and their events. */
module Transactions {
  // A transaction integrates items, splits items and deletes items.  Its delete set names
  // what it deleted, here and in other types, and the items that came without their
  // content.  `before` is the state vector at its start.

  import opened Common
  import opened Yata
  import opened Structs
  import opened DeleteSets
  import opened EventDelta

  datatype Tx<T> = Tx(list: seq<Node<T>>, ds: DeleteSet)

  datatype Edit<T> =
    | Put(k: nat, node: Node<T>)                          // `integrate`
    | Cut(k: nat, diff: nat)                              // `splitItem`
    | Remove(k: nat)                                      // `Item.delete`
    | Elsewhere(client: nat, clock: nat, len: nat)        // a deletion in another type

  predicate Covers<T>(n: Node<T>, id: ID) {
    id.client == n.id.client && n.id.clock <= id.clock < n.id.clock + |n.content|
  }

  predicate ApartFrom<T>(n: Node<T>, client: nat, clock: nat, len: nat) {
    n.id.client != client || n.id.clock + |n.content| <= clock || clock + len <= n.id.clock
  }

  predicate Apart<T>(m: Node<T>, n: Node<T>) {
    ApartFrom(m, n.id.client, n.id.clock, |n.content|)
  }

  function LeftPart<T>(n: Node<T>, diff: nat): Node<T>
    requires diff <= |n.content|
  {
    n.(content := n.content[..diff])
  }

  function RightPart<T>(n: Node<T>, diff: nat): Node<T>
    requires diff <= |n.content|
  {
    Node(ID(n.id.client, n.id.clock + diff), n.content[diff..], n.deleted)
  }

  /** `addToDeleteSet`. */
  function AddToDeleteSet(ds: DeleteSet, client: nat, clock: nat, len: nat): DeleteSet {
    ds[client := (if client in ds then ds[client] else []) + [Range(clock, len)]]
  }

  /** `ContentDeleted.integrate`: an item that comes without its content names itself. */
  function AfterPut<T>(ds: DeleteSet, node: Node<T>): DeleteSet {
    if node.deleted then AddToDeleteSet(ds, node.id.client, node.id.clock, |node.content|) else ds
  }

  ghost predicate Allowed<T>(tx: Tx<T>, before: StateVector, e: Edit<T>) {
    match e
    case Put(k, node) =>
      && k <= |tx.list| && node.content != [] && Adds(node, before)
      && (forall n <- tx.list :: Apart(n, node)) && NamedAs(node, tx.ds, false)
    case Cut(k, diff) => k < |tx.list| && 0 < diff < |tx.list[k].content|
    case Remove(k) => k < |tx.list| && !tx.list[k].deleted
    case Elsewhere(client, clock, len) => forall n <- tx.list :: ApartFrom(n, client, clock, len)
  }

  function Replaced<T>(list: seq<Node<T>>, k: nat, m: seq<Node<T>>): seq<Node<T>>
    requires k < |list|
  {
    list[..k] + m + list[k + 1..]
  }

  function Next<T>(tx: Tx<T>, before: StateVector, e: Edit<T>): Tx<T>
    requires Allowed(tx, before, e)
  {
    match e
    case Put(k, node) => Tx(tx.list[..k] + [node] + tx.list[k..], AfterPut(tx.ds, node))
    case Cut(k, diff) => tx.(list := Replaced(tx.list, k, [LeftPart(tx.list[k], diff), RightPart(tx.list[k], diff)]))
    case Remove(k) =>
      var n := tx.list[k];
      Tx(Replaced(tx.list, k, [n.(deleted := true)]), AddToDeleteSet(tx.ds, n.id.client, n.id.clock, |n.content|))
    case Elsewhere(client, clock, len) => tx.(ds := AddToDeleteSet(tx.ds, client, clock, len))
  }

  ghost predicate Run<T>(tx: Tx<T>, before: StateVector, edits: seq<Edit<T>>)
    decreases |edits|
  {
    edits == [] || (Allowed(tx, before, edits[0]) && Run(Next(tx, before, edits[0]), before, edits[1..]))
  }

  function After<T>(tx: Tx<T>, before: StateVector, edits: seq<Edit<T>>): Tx<T>
    requires Run(tx, before, edits)
    decreases |edits|
  {
    if edits == [] then tx else After(Next(tx, before, edits[0]), before, edits[1..])
  }

  /** An array as a transaction finds it: all its items are in the state vector. */
  ghost predicate Started<T>(list: seq<Node<T>>, before: StateVector) {
    && (forall n <- list :: n.content != [] && n.id.clock + |n.content| <= State(before, n.id.client))
    && (forall i, j :: 0 <= i < j < |list| ==> ApartAt(list, i, j))
  }

  predicate ApartAt<T>(list: seq<Node<T>>, i: nat, j: nat)
    requires i < j < |list|
  {
    Apart(list[i], list[j])
  }

  // ----- What every step keeps -----

  /** All ids of an item are named, or none is. */
  ghost predicate NamedAs<T>(n: Node<T>, ds: DeleteSet, named: bool) {
    forall id :: Covers(n, id) ==> (Names(ds, id) <==> named)
  }

  ghost predicate NodeOk<T>(n: Node<T>, before: StateVector, ds: DeleteSet) {
    && n.content != [] && (Adds(n, before) || n.id.clock + |n.content| <= State(before, n.id.client))
    && (NamedAs(n, ds, false) || (n.deleted && NamedAs(n, ds, true)))
  }

  ghost predicate Inv<T>(tx: Tx<T>, before: StateVector) {
    && Inhabited(tx.ds) && (forall n <- tx.list :: NodeOk(n, before, tx.ds))
    && (forall i, j :: 0 <= i < j < |tx.list| ==> ApartAt(tx.list, i, j))
  }

  /** The content before the transaction, as the event reads it off. */
  function OldOf<T>(list: seq<Node<T>>, before: StateVector, ds: DeleteSet): seq<T> {
    Old(list, |list|, before, ds)
  }

  /** What the array holds. */
  function Visible<T>(list: seq<Node<T>>): seq<T> {
    New(list, |list|)
  }

  lemma {:induction false} OldPrefix<T>(a: seq<Node<T>>, b: seq<Node<T>>, i: nat, before: StateVector, ds: DeleteSet)
    requires i <= |a| && i <= |b| && a[..i] == b[..i]
    ensures Old(a, i, before, ds) == Old(b, i, before, ds)
  {
    if i > 0 {
      assert a[..i][i - 1] == a[i - 1] && b[..i][i - 1] == b[i - 1];
      assert a[..i][..i - 1] == a[..i - 1] && b[..i][..i - 1] == b[..i - 1];
      OldPrefix(a, b, i - 1, before, ds);
    }
  }

  lemma {:induction false} OldConcat<T>(a: seq<Node<T>>, b: seq<Node<T>>, before: StateVector, ds: DeleteSet)
    ensures OldOf(a + b, before, ds) == OldOf(a, before, ds) + OldOf(b, before, ds)
  {
    if b == [] {
      assert a + b == a && OldOf(a, before, ds) + [] == OldOf(a, before, ds);
    } else {
      var n := |b| - 1;
      var s, last := a + b, b[n];
      OldConcat(a, b[..n], before, ds);
      OldPrefix(s, a + b[..n], |a| + n, before, ds);
      OldPrefix(b, b[..n], n, before, ds);
      assert s[|a| + n] == last;
      Associative(OldOf(a, before, ds), Old(b, n, before, ds), OldContent(last, before, ds));
    }
  }

  lemma OldOne<T>(n: Node<T>, before: StateVector, ds: DeleteSet)
    ensures OldOf([n], before, ds) == OldContent(n, before, ds)
  {
    assert Old([n], 0, before, ds) == [];
  }

  /** One item replaced by others that held the same. */
  lemma OldReplaced<T>(list: seq<Node<T>>, k: nat, m: seq<Node<T>>, before: StateVector, ds: DeleteSet)
    requires k < |list| && OldOf(m, before, ds) == OldContent(list[k], before, ds)
    ensures OldOf(Replaced(list, k, m), before, ds) == OldOf(list, before, ds)
  {
    var a, z := list[..k], list[k + 1..];
    assert list == a + [list[k]] + z;
    OldOne(list[k], before, ds);
    OldConcat(a + [list[k]], z, before, ds);
    OldConcat(a, [list[k]], before, ds);
    OldConcat(a + m, z, before, ds);
    OldConcat(a, m, before, ds);
  }

  lemma {:induction false} OldSame<T>(list: seq<Node<T>>, i: nat, before: StateVector, ds: DeleteSet, ds': DeleteSet)
    requires i <= |list| && forall n <- list :: Names(ds, n.id) <==> Names(ds', n.id)
    ensures Old(list, i, before, ds) == Old(list, i, before, ds')
  {
    if i > 0 {
      OldSame(list, i - 1, before, ds, ds');
      assert list[i - 1] in list;
    }
  }

  lemma NamesAdded(ds: DeleteSet, client: nat, clock: nat, len: nat, id: ID)
    ensures Names(AddToDeleteSet(ds, client, clock, len), id) <==>
            Names(ds, id) || (id.client == client && clock <= id.clock < clock + len)
  {
    if id.client == client {
      var rs := if client in ds then ds[client] else [];
      InRangesConcat(rs, [Range(clock, len)], id.clock);
      assert InRanges([Range(clock, len)], id.clock) <==> [Range(clock, len)][0].Covers(id.clock);
      assert !InRanges([], id.clock);
    }
  }

  /** Deletions of other ids change nothing about an item. */
  lemma StaysNamed<T>(n: Node<T>, ds: DeleteSet, client: nat, clock: nat, len: nat, named: bool)
    requires ApartFrom(n, client, clock, len) && NamedAs(n, ds, named)
    ensures NamedAs(n, AddToDeleteSet(ds, client, clock, len), named)
  {
    forall id | Covers(n, id) ensures Names(AddToDeleteSet(ds, client, clock, len), id) <==> named {
      NamesAdded(ds, client, clock, len, id);
    }
  }

  lemma OthersStay<T>(n: Node<T>, before: StateVector, ds: DeleteSet, client: nat, clock: nat, len: nat)
    requires NodeOk(n, before, ds) && ApartFrom(n, client, clock, len)
    ensures NodeOk(n, before, AddToDeleteSet(ds, client, clock, len))
    ensures Names(AddToDeleteSet(ds, client, clock, len), n.id) <==> Names(ds, n.id)
  {
    NamesAdded(ds, client, clock, len, n.id);
    if NamedAs(n, ds, false) {
      StaysNamed(n, ds, client, clock, len, false);
    } else {
      StaysNamed(n, ds, client, clock, len, true);
    }
  }

  // ----- Put -----

  lemma PutApart<T>(list: seq<Node<T>>, k: nat, node: Node<T>)
    requires k <= |list| && (forall n <- list :: Apart(n, node))
    requires forall i, j :: 0 <= i < j < |list| ==> ApartAt(list, i, j)
    ensures var t := list[..k] + [node] + list[k..]; forall i, j :: 0 <= i < j < |t| ==> ApartAt(t, i, j)
  {
    var t := list[..k] + [node] + list[k..];
    forall i, j | 0 <= i < j < |t| ensures ApartAt(t, i, j) {
      if i != k && j != k {
        assert ApartAt(list, if i < k then i else i - 1, if j < k then j else j - 1);
      } else {
        assert list[if i == k then j - 1 else i] in list;
      }
    }
  }

  lemma PutOld<T>(list: seq<Node<T>>, k: nat, node: Node<T>, before: StateVector, ds: DeleteSet)
    requires k <= |list| && OldContent(node, before, ds) == []
    ensures OldOf(list[..k] + [node] + list[k..], before, ds) == OldOf(list, before, ds)
  {
    var a, z := list[..k], list[k..];
    assert list == a + z;
    OldConcat(a, z, before, ds);
    OldConcat(a + [node], z, before, ds);
    OldConcat(a, [node], before, ds);
    OldOne(node, before, ds);
  }

  /** The new item is named if it came without its content, and no other item notices. */
  lemma PutNamed<T>(list: seq<Node<T>>, node: Node<T>, before: StateVector, ds: DeleteSet)
    requires node.content != [] && Adds(node, before) && NamedAs(node, ds, false)
    requires forall n <- list :: NodeOk(n, before, ds) && Apart(n, node)
    ensures var ds' := AfterPut(ds, node);
      && NodeOk(node, before, ds') && OldContent(node, before, ds') == []
      && (forall n <- list :: NodeOk(n, before, ds') && (Names(ds', n.id) <==> Names(ds, n.id)))
  {
    if node.deleted {
      forall id | Covers(node, id) ensures Names(AfterPut(ds, node), id) {
        NamesAdded(ds, node.id.client, node.id.clock, |node.content|, id);
      }
      forall n | n in list
        ensures NodeOk(n, before, AfterPut(ds, node))
        ensures Names(AfterPut(ds, node), n.id) <==> Names(ds, n.id)
      {
        OthersStay(n, before, ds, node.id.client, node.id.clock, |node.content|);
      }
    }
  }

  lemma PutKeeps<T>(tx: Tx<T>, before: StateVector, k: nat, node: Node<T>)
    requires Inv(tx, before) && Allowed(tx, before, Put(k, node))
    ensures var t := Next(tx, before, Put(k, node));
      Inv(t, before) && OldOf(t.list, before, t.ds) == OldOf(tx.list, before, tx.ds)
  {
    var ds' := AfterPut(tx.ds, node);
    PutApart(tx.list, k, node);
    PutNamed(tx.list, node, before, tx.ds);
    PutOld(tx.list, k, node, before, ds');
    OldSame(tx.list, |tx.list|, before, tx.ds, ds');
  }

  // ----- Cut -----

  lemma CutOld<T>(n: Node<T>, before: StateVector, ds: DeleteSet, diff: nat)
    requires NodeOk(n, before, ds) && 0 < diff < |n.content|
    ensures NodeOk(LeftPart(n, diff), before, ds) && NodeOk(RightPart(n, diff), before, ds)
    ensures OldOf([LeftPart(n, diff), RightPart(n, diff)], before, ds) == OldContent(n, before, ds)
  {
    var l, r := LeftPart(n, diff), RightPart(n, diff);
    assert forall id :: Covers(l, id) || Covers(r, id) ==> Covers(n, id);
    assert Covers(n, n.id) && Covers(n, r.id);
    OldOne(l, before, ds);
    OldOne(r, before, ds);
    OldConcat([l], [r], before, ds);
    assert [l, r] == [l] + [r] && n.content == l.content + r.content;
  }

  /** The parts keep apart from what the item kept apart from. */
  lemma CutApart<T>(list: seq<Node<T>>, k: nat, diff: nat)
    requires k < |list| && 0 < diff < |list[k].content| && forall i, j :: 0 <= i < j < |list| ==> ApartAt(list, i, j)
    ensures var t := Replaced(list, k, [LeftPart(list[k], diff), RightPart(list[k], diff)]);
      forall i, j :: 0 <= i < j < |t| ==> ApartAt(t, i, j)
  {
    var t := Replaced(list, k, [LeftPart(list[k], diff), RightPart(list[k], diff)]);
    forall i, j | 0 <= i < j < |t| ensures ApartAt(t, i, j) {
      var i0, j0 := if i <= k then i else i - 1, if j <= k then j else j - 1;
      assert i0 < j0 ==> ApartAt(list, i0, j0);
    }
  }

  lemma CutKeeps<T>(tx: Tx<T>, before: StateVector, k: nat, diff: nat)
    requires Inv(tx, before) && Allowed(tx, before, Cut(k, diff))
    ensures var t := Next(tx, before, Cut(k, diff));
      Inv(t, before) && OldOf(t.list, before, t.ds) == OldOf(tx.list, before, tx.ds)
  {
    assert tx.list[k] in tx.list;
    CutOld(tx.list[k], before, tx.ds, diff);
    OldReplaced(tx.list, k, [LeftPart(tx.list[k], diff), RightPart(tx.list[k], diff)], before, tx.ds);
    CutApart(tx.list, k, diff);
  }

  // ----- Remove -----

  lemma RemoveOne<T>(n: Node<T>, before: StateVector, ds: DeleteSet)
    requires NodeOk(n, before, ds) && !n.deleted
    ensures var ds' := AddToDeleteSet(ds, n.id.client, n.id.clock, |n.content|);
      && NodeOk(n.(deleted := true), before, ds')
      && OldContent(n.(deleted := true), before, ds') == OldContent(n, before, ds)
  {
    var ds' := AddToDeleteSet(ds, n.id.client, n.id.clock, |n.content|);
    forall id | Covers(n, id) ensures Names(ds', id) {
      NamesAdded(ds, n.id.client, n.id.clock, |n.content|, id);
    }
    assert Covers(n, n.id);
  }

  /** The other items do not notice. */
  lemma RemoveOthers<T>(tx: Tx<T>, before: StateVector, k: nat, m: Node<T>)
    requires Inv(tx, before) && k < |tx.list| && m in tx.list[..k] + tx.list[k + 1..]
    ensures var n := tx.list[k]; var ds' := AddToDeleteSet(tx.ds, n.id.client, n.id.clock, |n.content|);
      NodeOk(m, before, ds') && (Names(ds', m.id) <==> Names(tx.ds, m.id))
  {
    var n := tx.list[k];
    var i :| 0 <= i < |tx.list| && i != k && tx.list[i] == m;
    assert ApartAt(tx.list, Min(i, k), Max(i, k));
    OthersStay(m, before, tx.ds, n.id.client, n.id.clock, |n.content|);
  }

  lemma RemoveOld<T>(list: seq<Node<T>>, k: nat, d: Node<T>, before: StateVector, ds: DeleteSet, ds': DeleteSet)
    requires k < |list| && OldContent(d, before, ds') == OldContent(list[k], before, ds)
    requires forall m <- list[..k] + list[k + 1..] :: Names(ds, m.id) <==> Names(ds', m.id)
    ensures OldOf(Replaced(list, k, [d]), before, ds') == OldOf(list, before, ds)
  {
    var n, a, z := list[k], list[..k], list[k + 1..];
    assert list == a + [n] + z;
    OldSame(a, |a|, before, ds, ds');
    OldSame(z, |z|, before, ds, ds');
    OldOne(n, before, ds);
    OldOne(d, before, ds');
    OldConcat(a + [n], z, before, ds);
    OldConcat(a, [n], before, ds);
    OldConcat(a + [d], z, before, ds');
    OldConcat(a, [d], before, ds');
  }

  lemma RemoveKeeps<T>(tx: Tx<T>, before: StateVector, k: nat)
    requires Inv(tx, before) && Allowed(tx, before, Remove(k))
    ensures var t := Next(tx, before, Remove(k));
      Inv(t, before) && OldOf(t.list, before, t.ds) == OldOf(tx.list, before, tx.ds)
  {
    var n, t := tx.list[k], Next(tx, before, Remove(k));
    var d := n.(deleted := true);
    assert n in tx.list;
    RemoveOne(n, before, tx.ds);
    forall m | m in tx.list[..k] + tx.list[k + 1..]
      ensures NodeOk(m, before, t.ds) && (Names(t.ds, m.id) <==> Names(tx.ds, m.id)) {
      RemoveOthers(tx, before, k, m);
    }
    RemoveOld(tx.list, k, d, before, tx.ds, t.ds);
    forall i, j | 0 <= i < j < |t.list| ensures ApartAt(t.list, i, j) {
      assert ApartAt(tx.list, i, j);
    }
  }

  // ----- Elsewhere -----

  lemma ElsewhereKeeps<T>(tx: Tx<T>, before: StateVector, client: nat, clock: nat, len: nat)
    requires Inv(tx, before) && Allowed(tx, before, Elsewhere(client, clock, len))
    ensures var t := Next(tx, before, Elsewhere(client, clock, len));
      Inv(t, before) && OldOf(t.list, before, t.ds) == OldOf(tx.list, before, tx.ds)
  {
    var t := Next(tx, before, Elsewhere(client, clock, len));
    forall n | n in tx.list ensures NodeOk(n, before, t.ds) && (Names(t.ds, n.id) <==> Names(tx.ds, n.id)) {
      OthersStay(n, before, tx.ds, client, clock, len);
    }
    OldSame(tx.list, |tx.list|, before, tx.ds, t.ds);
  }

  // ----- Whole transactions -----

  lemma StepKeeps<T>(tx: Tx<T>, before: StateVector, e: Edit<T>)
    requires Inv(tx, before) && Allowed(tx, before, e)
    ensures var t := Next(tx, before, e); Inv(t, before) && OldOf(t.list, before, t.ds) == OldOf(tx.list, before, tx.ds)
  {
    match e
    case Put(k, node) => PutKeeps(tx, before, k, node);
    case Cut(k, diff) => CutKeeps(tx, before, k, diff);
    case Remove(k) => RemoveKeeps(tx, before, k);
    case Elsewhere(client, clock, len) => ElsewhereKeeps(tx, before, client, clock, len);
  }

  lemma {:induction false} RunKeeps<T>(tx: Tx<T>, before: StateVector, edits: seq<Edit<T>>)
    requires Inv(tx, before) && Run(tx, before, edits)
    ensures var t := After(tx, before, edits);
      Inv(t, before) && OldOf(t.list, before, t.ds) == OldOf(tx.list, before, tx.ds)
    decreases |edits|
  {
    if edits != [] {
      StepKeeps(tx, before, edits[0]);
      RunKeeps(Next(tx, before, edits[0]), before, edits[1..]);
    }
  }

  lemma {:induction false} StartVisible<T>(list: seq<Node<T>>, i: nat, before: StateVector)
    requires Started(list, before) && i <= |list|
    ensures Old(list, i, before, map[]) == New(list, i)
  {
    if i > 0 {
      StartVisible(list, i - 1, before);
      assert list[i - 1] in list;
    }
  }

  /** Whatever a transaction did, its event reads off what the array held at its start. */
  lemma OldIsBefore<T>(list: seq<Node<T>>, before: StateVector, edits: seq<Edit<T>>)
    requires Started(list, before) && Run(Tx(list, map[]), before, edits)
    ensures var t := After(Tx(list, map[]), before, edits);
      OldOf(t.list, before, t.ds) == Visible(list) && Inhabited(t.ds)
  {
    var tx := Tx(list, map[]);
    forall n | n in tx.list ensures NodeOk(n, before, tx.ds) {
      assert NamedAs(n, tx.ds, false);
    }
    RunKeeps(tx, before, edits);
    StartVisible(list, |list|, before);
  }

  lemma {:induction false} HappenedSame<T>(list: seq<Node<T>>, i: nat, before: StateVector, a: DeleteSet, b: DeleteSet)
    requires i <= |list| && forall n <- list :: Names(a, n.id) <==> Names(b, n.id)
    ensures AllHappened(list, i, before, a) == AllHappened(list, i, before, b)
  {
    if i > 0 {
      HappenedSame(list, i - 1, before, a, b);
      assert list[i - 1] in list;
    }
  }

  /** The delta of the event turns the array at the start of the transaction into the array
      at its end, and retains what stayed. */
  method EventChanges<T>(ghost list: seq<Node<T>>, before: StateVector, ghost edits: seq<Edit<T>>, tx: Tx<T>)
    returns (delta: seq<Op<T>>)
    requires Started(list, before) && Run(Tx(list, map[]), before, edits) && tx == After(Tx(list, map[]), before, edits)
    ensures Apply(delta, Visible(list)) == Visible(tx.list)
    ensures Packed(delta) && (delta != [] ==> !delta[|delta| - 1].Retain?)
    ensures exists k :: Spread(delta) + Singles(Retain(k)) == AllHappened(tx.list, |tx.list|, before, tx.ds)
  {
    OldIsBefore(list, before, edits);
    var ds := SortAndMergeDeleteSet(tx.ds);
    forall n | n in tx.list ensures Names(ds, n.id) <==> Names(tx.ds, n.id) {
      NormalNames(tx.ds, ds, n.id);
    }
    OldSame(tx.list, |tx.list|, before, tx.ds, ds);
    HappenedSame(tx.list, |tx.list|, before, tx.ds, ds);
    delta := Changes(tx.list, before, ds);
  }

  lemma NormalNames(ds: DeleteSet, r: DeleteSet, id: ID)
    requires r.Keys == ds.Keys && forall c <- ds :: Normal(ds[c], r[c])
    ensures Names(r, id) <==> Names(ds, id)
  {
  }
}
