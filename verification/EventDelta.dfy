/** `YEvent.changes`. */
module EventDelta {
  // What a transaction did to an array, as a list of operations.

  import opened Common
  import opened Yata
  import opened Structs
  import opened DeleteSets

  /** An item of the array with its content. */
  datatype Node<T> = Node(id: ID, content: seq<T>, deleted: bool)

  datatype Op<T> = Insert(items: seq<T>) | Delete(count: nat) | Retain(length: nat)

  /** `adds`: the item was created in the transaction. */
  predicate Adds<T>(n: Node<T>, before: StateVector) {
    n.id.clock >= State(before, n.id.client)
  }

  /** `deletes`: the item was deleted in the transaction. */
  predicate Deletes<T>(n: Node<T>, ds: DeleteSet) {
    Names(ds, n.id)
  }

  /** What the item contributed before the transaction, and what it contributes now. */
  function OldContent<T>(n: Node<T>, before: StateVector, ds: DeleteSet): seq<T> {
    if !Adds(n, before) && (!n.deleted || Deletes(n, ds)) then n.content else []
  }

  function NewContent<T>(n: Node<T>): seq<T> {
    if n.deleted then [] else n.content
  }

  function Old<T>(list: seq<Node<T>>, i: nat, before: StateVector, ds: DeleteSet): seq<T>
    requires i <= |list|
  {
    if i == 0 then [] else Old(list, i - 1, before, ds) + OldContent(list[i - 1], before, ds)
  }

  function New<T>(list: seq<Node<T>>, i: nat): seq<T>
    requires i <= |list|
  {
    if i == 0 then [] else New(list, i - 1) + NewContent(list[i - 1])
  }

  /** A list of operations applied to a content; what it does not reach stays. */
  function Apply<T>(ops: seq<Op<T>>, s: seq<T>): seq<T> {
    if ops == [] then s
    else
      match ops[0]
      case Insert(items) => items + Apply(ops[1..], s)
      case Delete(n) => Apply(ops[1..], s[Min(n, |s|)..])
      case Retain(n) => s[..Min(n, |s|)] + Apply(ops[1..], s[Min(n, |s|)..])
  }

  function Reach<T>(op: Op<T>): nat {
    match op
    case Insert(_) => 0
    case Delete(n) => n
    case Retain(n) => n
  }

  /** How much of the old content the operations reach. */
  function Reaches<T>(ops: seq<Op<T>>): nat {
    if ops == [] then 0 else Reach(ops[0]) + Reaches(ops[1..])
  }

  /** Operations that reach exactly `s` leave what follows to the operations after them. */
  lemma {:induction false} ApplyConcat<T>(ops: seq<Op<T>>, s: seq<T>, more: seq<Op<T>>, t: seq<T>)
    requires Reaches(ops) == |s|
    ensures Apply(ops + more, s + t) == Apply(ops, s) + Apply(more, t)
    decreases |ops|
  {
    if ops == [] {
      assert ops + more == more && s + t == t;
    } else {
      var rest := s[Reach(ops[0])..];
      ApplyConcat(ops[1..], rest, more, t);
      ApplyFirst(ops, s, rest);
      ApplyNext(ops, s, rest, more, t);
      Associative(Made(ops[0], s), Apply(ops[1..], rest), Apply(more, t));
    }
  }

  lemma ApplyNext<T>(ops: seq<Op<T>>, s: seq<T>, rest: seq<T>, more: seq<Op<T>>, t: seq<T>)
    requires ops != [] && Reach(ops[0]) <= |s| && rest == s[Reach(ops[0])..]
    ensures Apply(ops + more, s + t) == Made(ops[0], s) + Apply(ops[1..] + more, rest + t)
  {
    assert (ops + more)[1..] == ops[1..] + more;
    MadeSame(ops[0], s, t);
    ApplyFirst(ops + more, s + t, rest + t);
  }

  lemma {:induction false} ReachesConcat<T>(ops: seq<Op<T>>, more: seq<Op<T>>)
    ensures Reaches(ops + more) == Reaches(ops) + Reaches(more)
  {
    if ops == [] {
      assert ops + more == more;
    } else {
      assert (ops + more)[1..] == ops[1..] + more;
      ReachesConcat(ops[1..], more);
    }
  }

  lemma MadeSame<T>(op: Op<T>, s: seq<T>, t: seq<T>)
    requires Reach(op) <= |s|
    ensures Made(op, s + t) == Made(op, s) && (s + t)[Reach(op)..] == s[Reach(op)..] + t
  {
  }

  /** What the first operation contributes. */
  function Made<T>(op: Op<T>, s: seq<T>): seq<T>
    requires Reach(op) <= |s|
  {
    match op
    case Insert(items) => items
    case Delete(_) => []
    case Retain(n) => s[..n]
  }

  lemma ApplyFirst<T>(ops: seq<Op<T>>, s: seq<T>, rest: seq<T>)
    requires ops != [] && Reach(ops[0]) <= |s| && rest == s[Reach(ops[0])..]
    ensures Apply(ops, s) == Made(ops[0], s) + Apply(ops[1..], rest)
  {
    assert s[0..] == s;
  }

  // ----- Element by element -----

  /** An operation as operations on single elements. */
  function Singles<T>(op: Op<T>): seq<Op<T>> {
    match op
    case Insert(items) => seq(|items|, i requires 0 <= i < |items| => Insert([items[i]]))
    case Delete(n) => seq(n, _ => Delete(1))
    case Retain(n) => seq(n, _ => Retain(1))
  }

  function Spread<T>(ops: seq<Op<T>>): seq<Op<T>> {
    if ops == [] then [] else Spread(ops[..|ops| - 1]) + Singles(ops[|ops| - 1])
  }

  /** What the transaction did to the elements of an item: an added one was inserted, an old
      one was deleted or stays, and of an added and deleted one nothing is to be seen. */
  function Happened<T>(n: Node<T>, before: StateVector, ds: DeleteSet): seq<Op<T>> {
    if Adds(n, before) then if n.deleted then [] else Singles(Insert(n.content))
    else if !n.deleted then Singles(Retain(|n.content|))
    else if Deletes(n, ds) then Singles(Delete(|n.content|))
    else []
  }

  function AllHappened<T>(list: seq<Node<T>>, i: nat, before: StateVector, ds: DeleteSet): seq<Op<T>>
    requires i <= |list|
  {
    if i == 0 then [] else AllHappened(list, i - 1, before, ds) + Happened(list[i - 1], before, ds)
  }

  /** The operations so far, the last one included. */
  function SoFar<T>(delta: seq<Op<T>>, lastOp: Option<Op<T>>): seq<Op<T>> {
    if lastOp.Some? then delta + [lastOp.value] else delta
  }

  lemma SpreadSnoc<T>(ops: seq<Op<T>>, op: Op<T>)
    ensures Spread(ops + [op]) == Spread(ops) + Singles(op)
  {
    assert (ops + [op])[..|ops|] == ops;
  }

  predicate Filled<T>(op: Op<T>) {
    match op
    case Insert(items) => items != []
    case Delete(n) => n > 0
    case Retain(n) => n > 0
  }

  predicate AllFilled<T>(ops: seq<Op<T>>) {
    forall i :: 0 <= i < |ops| ==> Filled(ops[i])
  }

  /** Two operations of one kind would be one. */
  predicate DifferAt<T>(ops: seq<Op<T>>, i: nat)
    requires i + 1 < |ops|
  {
    var a, b := ops[i], ops[i + 1];
    !(a.Insert? && b.Insert?) && !(a.Delete? && b.Delete?) && !(a.Retain? && b.Retain?)
  }

  predicate Packed<T>(ops: seq<Op<T>>) {
    forall i :: 0 <= i < |ops| - 1 ==> DifferAt(ops, i)
  }

  /** `ops` turns `a` into `a'`, and the last operation turns `b` into `b'`. */
  ghost predicate Computes<T>(delta: seq<Op<T>>, lastOp: Option<Op<T>>, a: seq<T>, a': seq<T>, b: seq<T>, b': seq<T>) {
    && Reaches(delta) == |a| && Apply(delta, a) == a'
    && Packed(if lastOp.Some? then delta + [lastOp.value] else delta)
    && (lastOp.None? ==> delta == [] && b == [] && b' == [])
    && (lastOp.Some? ==>
      match lastOp.value
      case Insert(items) => b == [] && b' == items
      case Delete(n) => |b| == n && b' == []
      case Retain(n) => |b| == n && b' == b)
  }

  lemma ApplyOne<T>(op: Op<T>, b: seq<T>, b': seq<T>)
    requires match op
             case Insert(items) => b == [] && b' == items
             case Delete(n) => |b| == n && b' == []
             case Retain(n) => |b| == n && b' == b
    ensures Apply([op], b) == b' && Reaches([op]) == |b|
  {
    assert [op][1..] == [];
  }

  /** An operation of another kind begins: the last one is pushed. */
  lemma PackOp<T>(delta: seq<Op<T>>, lastOp: Option<Op<T>>, a: seq<T>, a': seq<T>, b: seq<T>, b': seq<T>, next: Op<T>)
    requires Computes(delta, lastOp, a, a', b, b')
    requires lastOp.Some? ==> DifferAt([lastOp.value, next], 0)
    requires match next
             case Insert(items) => items == []
             case Delete(n) => n == 0
             case Retain(n) => n == 0
    ensures var delta' := if lastOp.Some? then delta + [lastOp.value] else delta;
      Computes(delta', Some(next), a + b, a' + b', [], [])
  {
    if lastOp.Some? {
      ApplyOne(lastOp.value, b, b');
      ReachesConcat(delta, [lastOp.value]);
      ApplyConcat(delta, a, [lastOp.value], b);
      var ops := delta + [lastOp.value];
      forall i | 0 <= i < |ops + [next]| - 1 ensures DifferAt(ops + [next], i) {
        if i < |ops| - 1 {
          assert DifferAt(ops, i);
        } else {
          assert DifferAt([lastOp.value, next], 0);
        }
      }
    } else {
      assert a + b == a && a' + b' == a';
    }
  }

  predicate SameKind<T>(x: Op<T>, y: Op<T>) {
    (x.Insert? && y.Insert?) || (x.Delete? && y.Delete?) || (x.Retain? && y.Retain?)
  }

  /** Makes sure that the last operation is of the kind of `next`, which is still empty. */
  method Begin<T>(delta0: seq<Op<T>>, lastOp0: Option<Op<T>>, next: Op<T>, ghost a0: seq<T>, ghost a0': seq<T>,
                  ghost b0: seq<T>, ghost b0': seq<T>)
    returns (delta: seq<Op<T>>, lastOp: Op<T>, ghost a: seq<T>, ghost a': seq<T>, ghost b: seq<T>, ghost b': seq<T>)
    requires Computes(delta0, lastOp0, a0, a0', b0, b0')
    requires match next
             case Insert(items) => items == []
             case Delete(n) => n == 0
             case Retain(n) => n == 0
    ensures Computes(delta, Some(lastOp), a, a', b, b') && SameKind(lastOp, next)
    ensures Spread(delta + [lastOp]) == Spread(SoFar(delta0, lastOp0))
    ensures AllFilled(SoFar(delta0, lastOp0)) ==> AllFilled(delta)
    ensures a + b == a0 + b0 && a' + b' == a0' + b0'
  {
    if lastOp0.Some? && SameKind(lastOp0.value, next) {
      delta, lastOp := delta0, lastOp0.value;
      a, a', b, b' := a0, a0', b0, b0';
    } else {
      PackOp(delta0, lastOp0, a0, a0', b0, b0', next);
      delta := if lastOp0.Some? then delta0 + [lastOp0.value] else delta0;
      lastOp := next;
      SpreadSnoc(delta, next);
      a, a', b, b' := a0 + b0, a0' + b0', [], [];
    }
  }

  /** An operation of the same kind in place of the last one. */
  lemma StillPacked<T>(delta: seq<Op<T>>, op: Op<T>, op': Op<T>)
    requires Packed(delta + [op]) && SameKind(op, op')
    ensures Packed(delta + [op'])
  {
    var s, t := delta + [op], delta + [op'];
    forall i | 0 <= i < |t| - 1 ensures DifferAt(t, i) {
      assert DifferAt(s, i);
    }
  }

  /** The last operation after an item of its kind. */
  function Extended<T>(op: Op<T>, content: seq<T>): Op<T> {
    match op
    case Insert(items) => Insert(items + content)
    case Delete(n) => Delete(n + |content|)
    case Retain(n) => Retain(n + |content|)
  }

  lemma Extend<T>(delta: seq<Op<T>>, op: Op<T>, a: seq<T>, a': seq<T>, b: seq<T>, b': seq<T>, content: seq<T>)
    requires Computes(delta, Some(op), a, a', b, b')
    ensures Computes(delta, Some(Extended(op, content)), a, a',
                     if op.Insert? then b else b + content, if op.Delete? then b' else b' + content)
  {
    StillPacked(delta, op, Extended(op, content));
  }

  /** The operation of the same kind that stands for the content alone. */
  function Alone<T>(op: Op<T>, content: seq<T>): Op<T> {
    match op
    case Insert(_) => Insert(content)
    case Delete(_) => Delete(|content|)
    case Retain(_) => Retain(|content|)
  }

  lemma ExtendedSingles<T>(op: Op<T>, content: seq<T>)
    ensures Singles(Extended(op, content)) == Singles(op) + Singles(Alone(op, content))
  {
    match op
    case Insert(items) => assert Singles(Extended(op, content)) == Singles(op) + Singles(Insert(content));
    case Delete(n) => assert Singles(Extended(op, content)) == Singles(op) + Singles<T>(Delete(|content|));
    case Retain(n) => assert Singles(Extended(op, content)) == Singles(op) + Singles<T>(Retain(|content|));
  }

  lemma ExtendedSpread<T>(delta: seq<Op<T>>, op: Op<T>, content: seq<T>)
    ensures Spread(delta + [Extended(op, content)]) == Spread(delta + [op]) + Singles(Alone(op, content))
    ensures content != [] && AllFilled(delta) ==> AllFilled(delta + [Extended(op, content)])
  {
    hide Spread, Singles;
    SpreadSnoc(delta, op);
    SpreadSnoc(delta, Extended(op, content));
    ExtendedSingles(op, content);
    Associative(Spread(delta), Singles(op), Singles(Alone(op, content)));
  }

  /** The kind of operation that an item asks for, if any. */
  function KindOf<T>(item: Node<T>, before: StateVector, deletes: bool): Option<Op<T>> {
    if item.deleted then if deletes && !Adds(item, before) then Some(Delete(0)) else None
    else if Adds(item, before) then Some(Insert([]))
    else Some(Retain(0))
  }

  /** One item. */
  method AddItem<T>(item: Node<T>, before: StateVector, ds: DeleteSet, delta0: seq<Op<T>>, lastOp0: Option<Op<T>>,
                    ghost a0: seq<T>, ghost a0': seq<T>, ghost b0: seq<T>, ghost b0': seq<T>)
    returns (delta: seq<Op<T>>, lastOp: Option<Op<T>>, ghost a: seq<T>, ghost a': seq<T>, ghost b: seq<T>,
             ghost b': seq<T>)
    requires Computes(delta0, lastOp0, a0, a0', b0, b0') && forall c <- ds :: Separated(ds[c])
    ensures Computes(delta, lastOp, a, a', b, b')
    ensures a + b == a0 + b0 + OldContent(item, before, ds) && a' + b' == a0' + b0' + NewContent(item)
    ensures Spread(SoFar(delta, lastOp)) == Spread(SoFar(delta0, lastOp0)) + Happened(item, before, ds)
    ensures item.content != [] && AllFilled(SoFar(delta0, lastOp0)) ==> AllFilled(SoFar(delta, lastOp))
  {
    hide Computes, Spread, Singles, AllFilled;
    var deletes := IsDeleted(ds, item.id);
    var kind := KindOf(item, before, deletes);
    if kind.None? {
      delta, lastOp, a, a', b, b' := delta0, lastOp0, a0, a0', b0, b0';
    } else {
      var op;
      delta, op, a, a', b, b' := Begin(delta0, lastOp0, kind.value, a0, a0', b0, b0');
      Extend(delta, op, a, a', b, b', item.content);
      ExtendedSpread(delta, op, item.content);
      Associative(a, b, item.content);
      Associative(a', b', item.content);
      lastOp := Some(Extended(op, item.content));
      b, b' := if op.Insert? then b else b + item.content, if op.Delete? then b' else b' + item.content;
    }
  }

  /** The operations so far turn the old content of the first `i` items into the new one. */
  ghost predicate Tracks<T>(list: seq<Node<T>>, i: nat, before: StateVector, ds: DeleteSet, delta: seq<Op<T>>,
                            lastOp: Option<Op<T>>, a: seq<T>, a': seq<T>, b: seq<T>, b': seq<T>) {
    && i <= |list| && Computes(delta, lastOp, a, a', b, b')
    && Old(list, i, before, ds) == a + b && New(list, i) == a' + b'
    && Spread(SoFar(delta, lastOp)) == AllHappened(list, i, before, ds)
    && ((forall j :: 0 <= j < |list| ==> list[j].content != []) ==> AllFilled(SoFar(delta, lastOp)))
  }

  method Step<T>(list: seq<Node<T>>, i: nat, before: StateVector, ds: DeleteSet, delta0: seq<Op<T>>,
                 lastOp0: Option<Op<T>>, ghost a0: seq<T>, ghost a0': seq<T>, ghost b0: seq<T>, ghost b0': seq<T>)
    returns (delta: seq<Op<T>>, lastOp: Option<Op<T>>, ghost a: seq<T>, ghost a': seq<T>, ghost b: seq<T>,
             ghost b': seq<T>)
    requires i < |list| && Tracks(list, i, before, ds, delta0, lastOp0, a0, a0', b0, b0')
    requires forall c <- ds :: Separated(ds[c])
    ensures Tracks(list, i + 1, before, ds, delta, lastOp, a, a', b, b')
  {
    delta, lastOp, a, a', b, b' := AddItem(list[i], before, ds, delta0, lastOp0, a0, a0', b0, b0');
  }

  lemma TracksStart<T>(list: seq<Node<T>>, before: StateVector, ds: DeleteSet)
    ensures Tracks(list, 0, before, ds, [], None, [], [], [], [])
  {
  }

  /** The list of changes of an array: element by element, and up to the elements that stay at
      its end, it is what happened to the items. */
  method Changes<T>(list: seq<Node<T>>, before: StateVector, ds: DeleteSet) returns (delta: seq<Op<T>>)
    requires forall c <- ds :: Separated(ds[c])
    ensures Apply(delta, Old(list, |list|, before, ds)) == New(list, |list|)
    ensures Packed(delta) && (delta != [] ==> !delta[|delta| - 1].Retain?)
    ensures exists k :: Spread(delta) + Singles(Retain(k)) == AllHappened(list, |list|, before, ds)
    ensures (forall j :: 0 <= j < |list| ==> list[j].content != []) ==> AllFilled(delta)
  {
    hide Computes, Spread, Singles, AllFilled, AllHappened, Old, New, Apply, Packed;
    delta := [];
    var lastOp: Option<Op<T>> := None;
    ghost var a, a', b, b': seq<T> := [], [], [], [];
    TracksStart(list, before, ds);
    for i := 0 to |list|
      invariant Tracks(list, i, before, ds, delta, lastOp, a, a', b, b')
    {
      delta, lastOp, a, a', b, b' := Step(list, i, before, ds, delta, lastOp, a, a', b, b');
    }
    Finished(delta, lastOp, a, a', b, b');
    LastRetained(delta, lastOp);
    if lastOp.Some? && !lastOp.value.Retain? {
      delta := delta + [lastOp.value];
    }
  }

  lemma LastRetained<T>(delta: seq<Op<T>>, lastOp: Option<Op<T>>)
    ensures var ops := if lastOp.Some? && !lastOp.value.Retain? then delta + [lastOp.value] else delta;
      && (exists k :: Spread(ops) + Singles(Retain(k)) == Spread(SoFar(delta, lastOp)))
      && (AllFilled(SoFar(delta, lastOp)) ==> AllFilled(ops))
  {
    var ops := if lastOp.Some? && !lastOp.value.Retain? then delta + [lastOp.value] else delta;
    var k := if lastOp.Some? && lastOp.value.Retain? then lastOp.value.length else 0;
    if k > 0 {
      SpreadSnoc(delta, lastOp.value);
    } else if lastOp.Some? && lastOp.value.Retain? {
      SpreadSnoc(delta, lastOp.value);
    }
    assert Spread(ops) + Singles(Retain(k)) == Spread(SoFar(delta, lastOp));
  }

  /** A last `Retain` need not be pushed. */
  lemma Finished<T>(delta: seq<Op<T>>, lastOp: Option<Op<T>>, a: seq<T>, a': seq<T>, b: seq<T>, b': seq<T>)
    requires Computes(delta, lastOp, a, a', b, b')
    ensures var ops := if lastOp.Some? && !lastOp.value.Retain? then delta + [lastOp.value] else delta;
      Apply(ops, a + b) == a' + b' && Packed(ops) && (ops != [] ==> !ops[|ops| - 1].Retain?)
  {
    if lastOp.Some? {
      if lastOp.value.Retain? {
        ApplyConcat(delta, a, [], b);
        assert delta + [] == delta;
        var s := delta + [lastOp.value];
        forall i | 0 <= i < |delta| - 1 ensures DifferAt(delta, i) {
          assert DifferAt(s, i);
        }
        assert |delta| > 0 ==> DifferAt(s, |delta| - 1);
      } else {
        ApplyOne(lastOp.value, b, b');
        ApplyConcat(delta, a, [lastOp.value], b);
      }
    }
  }
}
