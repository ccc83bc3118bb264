/** `mergeUpdatesV2`. */
module MergeUpdates {
  // Merging the structs of several updates into one.

  import opened Common
  import opened Yata
  import opened Structs

  // ----- Units -----

  /** What an update says about one unit. */
  datatype Unit = Collected | Inserted(origin: Option<ID>, rightOrigin: Option<ID>, parent: Parent, gone: bool)

  /** The unit with a covered id; within an item each unit follows the one before it, and
      is written without a parent. */
  function UnitOf(s: Struct, id: ID): Unit
    requires !s.Skip? && s.Covers(id)
  {
    if s.GC? then Collected
    else if id.clock == s.clock then Inserted(s.origin, s.rightOrigin, s.parent, s.gone)
    else Inserted(Some(ID(id.client, id.clock - 1)), s.rightOrigin, Copied, s.gone)
  }

  /** What a unit refers to. */
  function UnitDeps(u: Unit): seq<ID> {
    match u
    case Collected => []
    case Inserted(o, r, p, _) => Listed(o) + Listed(r) + p.Deps()
  }

  /** The units that the merged updates hold. */
  type Content = (ID, Unit) -> bool

  /** A struct holds its ids with units of the content only. */
  ghost predicate From(s: Struct, content: Content) {
    s.len > 0 && (!s.Skip? ==> forall id :: s.Covers(id) ==> content(id, UnitOf(s, id)))
  }

  predicate Has(s: Struct, id: ID) {
    !s.Skip? && s.Covers(id)
  }

  predicate Holds(s: seq<Struct>, id: ID) {
    exists i :: 0 <= i < |s| && Has(s[i], id)
  }

  // ----- Updates -----

  /** Clients descend, and the clocks of a client leave no gap. */
  predicate Meets(s: Struct, t: Struct) {
    s.client > t.client || (s.client == t.client && s.End() == t.clock)
  }

  predicate MeetsAt(s: seq<Struct>, i: nat)
    requires i + 1 < |s|
  {
    Meets(s[i], s[i + 1])
  }

  /** The structs of an update, gaps filled by `Skip`s. */
  ghost predicate Update(s: seq<Struct>, content: Content) {
    (forall i :: 0 <= i < |s| - 1 ==> MeetsAt(s, i)) && (forall i :: 0 <= i < |s| ==> From(s[i], content))
  }

  /** Without the `Skip`s the clocks of a client may have gaps. */
  predicate Precedes(s: Struct, t: Struct) {
    s.client > t.client || (s.client == t.client && s.End() <= t.clock)
  }

  predicate PrecedesAt(s: seq<Struct>, i: nat, j: nat)
    requires i < j < |s|
  {
    Precedes(s[i], s[j])
  }

  /** What a `LazyStructReader` that filters `Skip`s still has to read. */
  ghost predicate Reader(s: seq<Struct>, content: Content, bound: nat) {
    && (forall i, j :: 0 <= i < j < |s| ==> PrecedesAt(s, i, j))
    && (forall i :: 0 <= i < |s| ==> ReadsAt(s, content, bound, i))
  }

  ghost predicate ReadsAt(s: seq<Struct>, content: Content, bound: nat, i: nat)
    requires i < |s|
  {
    !s[i].Skip? && From(s[i], content) && s[i].End() <= bound
  }

  /** The structs that are no `Skip`s. */
  function Filtered(s: seq<Struct>): seq<Struct> {
    if s == [] then [] else if s[0].Skip? then Filtered(s[1..]) else [s[0]] + Filtered(s[1..])
  }

  // ----- Parts of structs -----

  /** `sliceStruct`: the struct without its first `diff` units.  The rest of an item has an
      origin, so that its parent is not written. */
  function Slice(s: Struct, diff: nat): Struct
    requires 0 < diff < s.len
  {
    match s
    case GC(c, k, n) => GC(c, k + diff, n - diff)
    case Skip(c, k, n) => Skip(c, k + diff, n - diff)
    case Item(c, k, n, _, r, _, gone) => Struct.Item(c, k + diff, n - diff, Some(ID(c, k + diff - 1)), r, Copied, gone)
  }

  lemma SliceFrom(s: Struct, diff: nat, content: Content)
    requires 0 < diff < s.len && From(s, content)
    ensures From(Slice(s, diff), content) && Slice(s, diff).End() == s.End() && Slice(s, diff).clock == s.clock + diff
    ensures Slice(s, diff).client == s.client && Slice(s, diff).Skip? == s.Skip?
  {
    var t := Slice(s, diff);
    if !s.Skip? {
      forall id | t.Covers(id) ensures content(id, UnitOf(t, id)) {
        assert s.Covers(id) && UnitOf(t, id) == UnitOf(s, id);
      }
    }
  }

  /** `mergeWith` on structs that were read: only two GCs merge, as the links between
      items are not set. */
  predicate Merges(s: Struct, t: Struct) {
    (s.GC? && t.GC?) || (s.Skip? && t.Skip?)
  }

  function Merged(s: Struct, t: Struct): Struct
    requires Merges(s, t)
  {
    match s
    case GC(c, k, n) => GC(c, k, n + t.len)
    case Skip(c, k, n) => Skip(c, k, n + t.len)
  }

  lemma MergedFrom(s: Struct, t: Struct, content: Content)
    requires Merges(s, t) && Meets(s, t) && s.client == t.client && From(s, content) && From(t, content)
    ensures From(Merged(s, t), content) && forall id :: Has(Merged(s, t), id) <==> Has(s, id) || Has(t, id)
  {
    var u := Merged(s, t);
    if !u.Skip? {
      forall id | u.Covers(id) ensures content(id, UnitOf(u, id)) {
        assert if s.Covers(id) then UnitOf(u, id) == UnitOf(s, id) else t.Covers(id) && UnitOf(u, id) == UnitOf(t, id);
      }
    }
  }

  // ----- The order of the readers -----

  /** The comparison by which the readers are sorted: higher clients first, then lower clocks. */
  predicate NotAfter(s: Struct, t: Struct) {
    s.client > t.client || (s.client == t.client && s.clock <= t.clock)
  }

  predicate NoneEmpty(decs: seq<seq<Struct>>) {
    forall i :: 0 <= i < |decs| ==> decs[i] != []
  }

  function InsertReader(d: seq<Struct>, decs: seq<seq<Struct>>): (r: seq<seq<Struct>>)
    requires d != [] && NoneEmpty(decs)
    ensures NoneEmpty(r) && forall e :: e in r <==> e == d || e in decs
  {
    if decs == [] then [d]
    else if NotAfter(d[0], decs[0][0]) then [d] + decs
    else [decs[0]] + InsertReader(d, decs[1..])
  }

  /** `filter` and `sort`: the readers that are not empty, in order. */
  function SortReaders(decs: seq<seq<Struct>>): (r: seq<seq<Struct>>)
    ensures NoneEmpty(r) && forall e :: e in r <==> e in decs && e != []
  {
    if decs == [] then []
    else if decs[0] == [] then SortReaders(decs[1..])
    else InsertReader(decs[0], SortReaders(decs[1..]))
  }

  /** How many structs are left to read. */
  function Total(decs: seq<seq<Struct>>): nat {
    if decs == [] then 0 else |decs[0]| + Total(decs[1..])
  }

  predicate FirstIsLeast(decs: seq<seq<Struct>>)
    requires NoneEmpty(decs)
  {
    forall i :: 0 <= i < |decs| ==> NotAfter(decs[0][0], decs[i][0])
  }

  predicate InOrder(decs: seq<seq<Struct>>)
    requires NoneEmpty(decs)
  {
    decs == [] || (FirstIsLeast(decs) && InOrder(decs[1..]))
  }

  lemma {:induction false} InsertInOrder(d: seq<Struct>, decs: seq<seq<Struct>>)
    requires d != [] && NoneEmpty(decs) && InOrder(decs)
    ensures InOrder(InsertReader(d, decs)) && Total(InsertReader(d, decs)) == |d| + Total(decs)
  {
    if decs != [] {
      var r := InsertReader(d, decs);
      if NotAfter(d[0], decs[0][0]) {
        assert r == [d] + decs && r[1..] == decs;
      } else {
        InsertInOrder(d, decs[1..]);
        assert r[0] == decs[0] && r[1..] == InsertReader(d, decs[1..]);
      }
    }
  }

  lemma {:induction false} SortInOrder(decs: seq<seq<Struct>>)
    ensures InOrder(SortReaders(decs)) && Total(SortReaders(decs)) == Total(decs)
  {
    if decs != [] {
      SortInOrder(decs[1..]);
      if decs[0] != [] {
        InsertInOrder(decs[0], SortReaders(decs[1..]));
      }
    }
  }

  // ----- The invariant of the merge -----

  /** Something that is left to read holds the id. */
  predicate Left(decs: seq<seq<Struct>>, id: ID) {
    exists d <- decs :: Holds(d, id)
  }

  /** What is left to read does not lie before what was written, unless it was written. */
  ghost predicate AheadOf(cw: Struct, out: seq<Struct>, decs: seq<seq<Struct>>) {
    forall id :: Left(decs, id) ==> IsAhead(cw, out, id)
  }

  ghost predicate IsAhead(cw: Struct, out: seq<Struct>, id: ID) {
    id.client < cw.client || (id.client == cw.client && (cw.End() <= id.clock || Holds(out + [cw], id)))
  }

  ghost predicate AllReaders(decs: seq<seq<Struct>>, content: Content, bound: nat) {
    forall d <- decs :: Reader(d, content, bound)
  }

  /** `out` was written and `cw` comes next: together they are an update, and hold together
      with what is left to read exactly the ids of `ids`. */
  ghost predicate Merging(ids: iset<ID>, content: Content, bound: nat, decs: seq<seq<Struct>>, cw: Struct,
                          out: seq<Struct>) {
    && AllReaders(decs, content, bound)
    && Update(out + [cw], content) && cw.End() <= bound
    && (forall id :: id in ids <==> Holds(out + [cw], id) || Left(decs, id))
    && AheadOf(cw, out, decs)
  }

  /** `next()` of the first reader. */
  function Next(decs: seq<seq<Struct>>): seq<seq<Struct>>
    requires decs != [] && decs[0] != []
  {
    [decs[0][1..]] + decs[1..]
  }

  lemma HoldsCons(s: seq<Struct>, id: ID)
    requires s != []
    ensures Holds(s, id) <==> Has(s[0], id) || Holds(s[1..], id)
  {
    if i :| 0 <= i < |s| && Has(s[i], id) {
      assert i > 0 ==> Has(s[1..][i - 1], id);
    }
    if i :| 0 <= i < |s[1..]| && Has(s[1..][i], id) {
      assert Has(s[i + 1], id);
    }
  }

  lemma HoldsSnoc(s: seq<Struct>, t: Struct, id: ID)
    ensures Holds(s + [t], id) <==> Holds(s, id) || Has(t, id)
  {
    var u := s + [t];
    if i :| 0 <= i < |s| && Has(s[i], id) {
      assert Has(u[i], id);
    }
    if Has(t, id) {
      assert Has(u[|s|], id);
    }
    if i :| 0 <= i < |u| && Has(u[i], id) {
      assert i < |s| ==> Has(s[i], id);
    }
  }

  lemma LeftNext(decs: seq<seq<Struct>>, id: ID)
    requires decs != [] && decs[0] != []
    ensures Left(decs, id) <==> Has(decs[0][0], id) || Left(Next(decs), id)
  {
    HoldsCons(decs[0], id);
    if Left(decs, id) {
      var d :| d in decs && Holds(d, id);
      assert d == decs[0] || d in Next(decs);
      assert decs[0][1..] in Next(decs);
    }
    if Left(Next(decs), id) {
      var d :| d in Next(decs) && Holds(d, id);
      assert d == decs[0][1..] || d in decs;
      assert decs[0] in decs;
    }
  }

  lemma ReaderTail(d: seq<Struct>, content: Content, bound: nat)
    requires Reader(d, content, bound) && d != []
    ensures Reader(d[1..], content, bound) && ReadsAt(d, content, bound, 0)
  {
    forall i, j | 0 <= i < j < |d[1..]| ensures PrecedesAt(d[1..], i, j) {
      assert PrecedesAt(d, i + 1, j + 1);
    }
    forall i | 0 <= i < |d[1..]| ensures ReadsAt(d[1..], content, bound, i) {
      assert ReadsAt(d, content, bound, i + 1);
    }
  }

  lemma ReadersNext(decs: seq<seq<Struct>>, content: Content, bound: nat)
    requires AllReaders(decs, content, bound) && decs != [] && decs[0] != []
    ensures AllReaders(Next(decs), content, bound) && Total(Next(decs)) < Total(decs)
    ensures ReadsAt(decs[0], content, bound, 0)
  {
    ReaderTail(decs[0], content, bound);
  }

  /** Of the sorted readers the first one holds the least id. */
  lemma LeastFirst(decs: seq<seq<Struct>>, content: Content, bound: nat, id: ID)
    requires NoneEmpty(decs) && InOrder(decs) && AllReaders(decs, content, bound) && Left(decs, id)
    ensures id.client < decs[0][0].client || (id.client == decs[0][0].client && decs[0][0].clock <= id.clock)
  {
    var d :| d in decs && Holds(d, id);
    var k :| 0 <= k < |decs| && decs[k] == d;
    var i :| 0 <= i < |d| && Has(d[i], id);
    assert NotAfter(decs[0][0], decs[k][0]);
    assert ReadsAt(d, content, bound, 0);
    assert i > 0 ==> PrecedesAt(d, 0, i);
  }

  lemma UpdateGrows(out: seq<Struct>, cw: Struct, t: Struct, content: Content)
    requires Update(out + [cw], content) && Meets(cw, t) && From(t, content)
    ensures Update(out + [cw] + [t], content)
  {
    var s, u := out + [cw], out + [cw] + [t];
    forall i | 0 <= i < |u| - 1 ensures MeetsAt(u, i) {
      assert i < |s| - 1 ==> MeetsAt(s, i);
    }
    forall i | 0 <= i < |u| ensures From(u[i], content) {
      assert i < |s| ==> From(s[i], content);
    }
  }

  // ----- The steps of the merge -----

  /** A struct that was written already is passed over. */
  lemma PassOver(ids: iset<ID>, content: Content, bound: nat, decs: seq<seq<Struct>>, cw: Struct, out: seq<Struct>)
    requires Merging(ids, content, bound, decs, cw, out) && decs != [] && decs[0] != []
    requires decs[0][0].End() <= cw.End() && cw.client <= decs[0][0].client
    ensures Merging(ids, content, bound, Next(decs), cw, out)
  {
    ReadersNext(decs, content, bound);
    forall id ensures Left(decs, id) <==> Has(decs[0][0], id) || Left(Next(decs), id) {
      LeftNext(decs, id);
    }
    forall id | Has(decs[0][0], id) ensures Holds(out + [cw], id) {
      assert Left(decs, id) && IsAhead(cw, out, id);
    }
    forall id | Left(Next(decs), id) ensures IsAhead(cw, out, id) {
      assert Left(decs, id);
    }
  }

  /** `cw` is written, and `t`, what is new of the first struct, comes next. */
  lemma WriteNext(ids: iset<ID>, content: Content, bound: nat, decs: seq<seq<Struct>>, cw: Struct, out: seq<Struct>,
                  t: Struct)
    requires Merging(ids, content, bound, decs, cw, out) && decs != [] && decs[0] != []
    requires Meets(cw, t) && From(t, content) && !t.Skip? && t.End() <= bound
    requires forall id :: Has(t, id) ==> Has(decs[0][0], id)
    requires forall id :: Has(decs[0][0], id) ==> Has(t, id) || Holds(out + [cw], id)
    requires forall id :: Left(decs, id) ==> IsAhead(t, out + [cw], id)
    ensures Merging(ids, content, bound, Next(decs), t, out + [cw])
  {
    ReadersNext(decs, content, bound);
    UpdateGrows(out, cw, t, content);
    forall id ensures Left(decs, id) <==> Has(decs[0][0], id) || Left(Next(decs), id) {
      LeftNext(decs, id);
    }
    forall id ensures Holds(out + [cw] + [t], id) <==> Holds(out + [cw], id) || Has(t, id) {
      HoldsSnoc(out + [cw], t, id);
    }
  }

  /** The first struct of the sorted readers is of a lower client. */
  lemma SwitchClient(ids: iset<ID>, content: Content, bound: nat, decs: seq<seq<Struct>>, cw: Struct, out: seq<Struct>)
    requires Merging(ids, content, bound, decs, cw, out) && NoneEmpty(decs) && decs != [] && InOrder(decs)
    requires decs[0][0].client != cw.client
    ensures Merging(ids, content, bound, Next(decs), decs[0][0], out + [cw])
  {
    var t := decs[0][0];
    ReadersNext(decs, content, bound);
    FirstHasId(decs, content, bound);
    assert IsAhead(cw, out, ID(t.client, t.clock));
    forall id | Left(decs, id) ensures IsAhead(t, out + [cw], id) {
      LeastFirst(decs, content, bound, id);
      HoldsSnoc(out + [cw], t, id);
    }
    WriteNext(ids, content, bound, decs, cw, out, t);
  }

  lemma FirstHasId(decs: seq<seq<Struct>>, content: Content, bound: nat)
    requires AllReaders(decs, content, bound) && decs != [] && decs[0] != []
    ensures Has(decs[0][0], ID(decs[0][0].client, decs[0][0].clock))
    ensures Left(decs, ID(decs[0][0].client, decs[0][0].clock))
  {
    ReadersNext(decs, content, bound);
    LeftNext(decs, ID(decs[0][0].client, decs[0][0].clock));
  }

  /** A gap is filled by a `Skip`. */
  lemma FillGap(ids: iset<ID>, content: Content, bound: nat, decs: seq<seq<Struct>>, cw: Struct, out: seq<Struct>)
    requires Merging(ids, content, bound, decs, cw, out) && NoneEmpty(decs) && decs != [] && InOrder(decs)
    requires decs[0][0].client == cw.client && cw.End() < decs[0][0].clock
    ensures Merging(ids, content, bound, decs, Skip(cw.client, cw.End(), decs[0][0].clock - cw.End()), out + [cw])
  {
    var t := Skip(cw.client, cw.End(), decs[0][0].clock - cw.End());
    ReadersNext(decs, content, bound);
    UpdateGrows(out, cw, t, content);
    forall id ensures Holds(out + [cw] + [t], id) <==> Holds(out + [cw], id) {
      HoldsSnoc(out + [cw], t, id);
    }
    forall id | Left(decs, id) ensures IsAhead(t, out + [cw], id) {
      LeastFirst(decs, content, bound, id);
    }
  }

  /** What is new of a struct that begins at or before the end of `cw`. */
  function NewPart(cw: Struct, curr: Struct): Struct
    requires cw.client == curr.client && curr.clock <= cw.End() < curr.End()
  {
    if cw.End() > curr.clock then Slice(curr, cw.End() - curr.clock) else curr
  }

  lemma NewPartFrom(cw: Struct, curr: Struct, content: Content)
    requires cw.client == curr.client && curr.clock <= cw.End() < curr.End() && From(curr, content) && !curr.Skip?
    ensures var t := NewPart(cw, curr);
      && From(t, content) && !t.Skip? && t.client == cw.client && t.clock == cw.End() && t.End() == curr.End()
      && forall id :: Has(t, id) <==> Has(curr, id) && cw.End() <= id.clock
  {
    if cw.End() > curr.clock {
      SliceFrom(curr, cw.End() - curr.clock, content);
    }
  }

  /** The new part is written as the next struct. */
  lemma WritePart(ids: iset<ID>, content: Content, bound: nat, decs: seq<seq<Struct>>, cw: Struct, out: seq<Struct>)
    requires Merging(ids, content, bound, decs, cw, out) && decs != [] && decs[0] != []
    requires cw.client == decs[0][0].client && decs[0][0].clock <= cw.End() < decs[0][0].End()
    ensures Merging(ids, content, bound, Next(decs), NewPart(cw, decs[0][0]), out + [cw])
  {
    var curr := decs[0][0];
    var t := NewPart(cw, curr);
    ReadersNext(decs, content, bound);
    NewPartFrom(cw, curr, content);
    forall id | Has(curr, id) ensures Has(t, id) || Holds(out + [cw], id) {
      LeftNext(decs, id);
      assert IsAhead(cw, out, id);
    }
    forall id | Left(decs, id) ensures IsAhead(t, out + [cw], id) {
      assert IsAhead(cw, out, id);
      HoldsSnoc(out + [cw], t, id);
    }
    WriteNext(ids, content, bound, decs, cw, out, t);
  }

  /** The new part is merged into the struct that comes next; it is passed over later. */
  lemma MergePart(ids: iset<ID>, content: Content, bound: nat, decs: seq<seq<Struct>>, cw: Struct, out: seq<Struct>)
    requires Merging(ids, content, bound, decs, cw, out) && decs != [] && decs[0] != []
    requires cw.client == decs[0][0].client && decs[0][0].clock <= cw.End() < decs[0][0].End()
    requires !cw.Skip? && Merges(cw, NewPart(cw, decs[0][0]))
    ensures Merging(ids, content, bound, decs, Merged(cw, NewPart(cw, decs[0][0])), out)
  {
    var curr := decs[0][0];
    var t := NewPart(cw, curr);
    var m := Merged(cw, t);
    ReadersNext(decs, content, bound);
    NewPartFrom(cw, curr, content);
    UpdateReplaced(out, cw, t, content);
    forall id ensures Holds(out + [m], id) <==> Holds(out + [cw], id) || Has(t, id) {
      HoldsSnoc(out, m, id);
      HoldsSnoc(out, cw, id);
    }
    forall id | Has(t, id) ensures Left(decs, id) {
      LeftNext(decs, id);
    }
    forall id | Left(decs, id) ensures IsAhead(m, out, id) {
      assert IsAhead(cw, out, id);
    }
  }

  lemma UpdateReplaced(out: seq<Struct>, cw: Struct, t: Struct, content: Content)
    requires Update(out + [cw], content) && Merges(cw, t) && Meets(cw, t) && cw.client == t.client && From(t, content)
    ensures Update(out + [Merged(cw, t)], content)
    ensures forall id :: Has(Merged(cw, t), id) <==> Has(cw, id) || Has(t, id)
  {
    var s, u := out + [cw], out + [Merged(cw, t)];
    assert From(s[|out|], content);
    MergedFrom(cw, t, content);
    forall i | 0 <= i < |u| - 1 ensures MeetsAt(u, i) {
      assert MeetsAt(s, i);
    }
    forall i | 0 <= i < |u| ensures From(u[i], content) {
      assert i < |out| ==> From(s[i], content);
    }
  }

  // ----- Whole structs -----

  /** `t` is a struct that was read, or what is left of it: of a GC, with others before it. */
  predicate IsPart(s: Struct, t: Struct) {
    && t.client == s.client && t.End() == s.End() && !t.Skip? && t.GC? == s.GC?
    && (t.Item? ==> t == s || (s.clock < t.clock < s.End() && t == Slice(s, t.clock - s.clock)))
  }

  ghost predicate Part(given: iset<Struct>, t: Struct) {
    exists s :: s in given && IsPart(s, t)
  }

  /** A `Skip` stands between structs of its client that are none. */
  ghost predicate WholeAt(given: iset<Struct>, s: seq<Struct>, i: nat)
    requires i < |s|
  {
    if s[i].Skip? then
      && 0 < i && !s[i - 1].Skip? && s[i - 1].client == s[i].client
      && (i + 1 < |s| ==> !s[i + 1].Skip? && s[i + 1].client == s[i].client)
    else Part(given, s[i])
  }

  ghost predicate Whole(given: iset<Struct>, s: seq<Struct>) {
    forall i :: 0 <= i < |s| ==> WholeAt(given, s, i)
  }

  ghost predicate AllGiven(given: iset<Struct>, decs: seq<seq<Struct>>) {
    forall d <- decs, t <- d :: t in given
  }

  /** Only structs that were given are read, and only whole ones are written. */
  ghost predicate Keeping(given: iset<Struct>, decs: seq<seq<Struct>>, cw: Struct, out: seq<Struct>) {
    AllGiven(given, decs) && Whole(given, out + [cw])
  }

  lemma GivenNext(given: iset<Struct>, decs: seq<seq<Struct>>)
    requires AllGiven(given, decs) && decs != [] && decs[0] != []
    ensures AllGiven(given, Next(decs)) && decs[0][0] in given
  {
    forall d, t | d in Next(decs) && t in d ensures t in given {
      if d == decs[0][1..] {
        assert decs[0] in decs && t in decs[0];
      } else {
        assert d in decs;
      }
    }
    assert decs[0] in decs && decs[0][0] in decs[0];
  }

  lemma WholeSnoc(given: iset<Struct>, out: seq<Struct>, cw: Struct, t: Struct)
    requires Whole(given, out + [cw])
    requires if t.Skip? then !cw.Skip? && t.client == cw.client
      else Part(given, t) && (cw.Skip? ==> t.client == cw.client)
    ensures Whole(given, out + [cw] + [t])
  {
    var s, u := out + [cw], out + [cw] + [t];
    forall i | 0 <= i < |u| ensures WholeAt(given, u, i) {
      assert i < |s| ==> WholeAt(given, s, i);
      assert s[|out|] == cw && u[|out|] == cw;
    }
  }

  lemma WholeReplaced(given: iset<Struct>, out: seq<Struct>, cw: Struct, t: Struct)
    requires Whole(given, out + [cw]) && !cw.Skip? && !t.Skip? && cw.client == t.client && Part(given, t)
    ensures Whole(given, out + [t])
  {
    var s, u := out + [cw], out + [t];
    forall i | 0 <= i < |u| ensures WholeAt(given, u, i) {
      assert WholeAt(given, s, i) && s[|out|] == cw;
    }
  }

  /** The new part of the first struct, also after a GC that it was merged into. */
  lemma NewPartGiven(given: iset<Struct>, decs: seq<seq<Struct>>, cw: Struct)
    requires AllGiven(given, decs) && decs != [] && decs[0] != [] && !decs[0][0].Skip?
    requires cw.client == decs[0][0].client && decs[0][0].clock <= cw.End() < decs[0][0].End()
    ensures Part(given, NewPart(cw, decs[0][0])) && !NewPart(cw, decs[0][0]).Skip?
    ensures cw.GC? && NewPart(cw, decs[0][0]).GC? ==> Part(given, Merged(cw, NewPart(cw, decs[0][0])))
  {
    var curr := decs[0][0];
    GivenNext(given, decs);
    assert IsPart(curr, NewPart(cw, curr));
    assert cw.GC? && NewPart(cw, curr).GC? ==> IsPart(curr, Merged(cw, NewPart(cw, curr)));
  }

  lemma FirstGiven(given: iset<Struct>, decs: seq<seq<Struct>>)
    requires AllGiven(given, decs) && decs != [] && decs[0] != [] && !decs[0][0].Skip?
    ensures AllGiven(given, Next(decs)) && Part(given, decs[0][0])
  {
    GivenNext(given, decs);
    assert IsPart(decs[0][0], decs[0][0]);
  }

  // ----- The merge -----

  /** Passes over what the first reader holds that was written already. */
  method SkipWritten(ghost given: iset<Struct>, ghost ids: iset<ID>, ghost content: Content, ghost bound: nat,
                     decs0: seq<seq<Struct>>, cw: Struct, ghost out: seq<Struct>)
    returns (decs: seq<seq<Struct>>, iterated: bool)
    requires Merging(ids, content, bound, decs0, cw, out) && decs0 != [] && decs0[0] != []
    requires AllGiven(given, decs0)
    ensures Merging(ids, content, bound, decs, cw, out) && |decs| == |decs0| && AllGiven(given, decs)
    ensures decs[0] != [] ==> decs[0][0].client < cw.client || cw.End() < decs[0][0].End()
    ensures if iterated then Total(decs) < Total(decs0) else decs == decs0
    ensures iterated ==> cw.client <= decs0[0][0].client
  {
    decs, iterated := decs0, false;
    while decs[0] != [] && decs[0][0].End() <= cw.End() && cw.client <= decs[0][0].client
      invariant Merging(ids, content, bound, decs, cw, out) && |decs| == |decs0| && AllGiven(given, decs)
      invariant if iterated then Total(decs) < Total(decs0) else decs == decs0
      invariant iterated ==> cw.client <= decs0[0][0].client
      decreases Total(decs)
    {
      PassOver(ids, content, bound, decs, cw, out);
      ReadersNext(decs, content, bound);
      GivenNext(given, decs);
      decs, iterated := Next(decs), true;
    }
  }

  /** Writes on while the first reader continues `cw`. */
  method WriteConsecutive(ghost given: iset<Struct>, ghost ids: iset<ID>, ghost content: Content, ghost bound: nat,
                          decs0: seq<seq<Struct>>, cw0: Struct, out0: seq<Struct>, firstClient: nat)
    returns (decs: seq<seq<Struct>>, cw: Struct, out: seq<Struct>)
    requires Merging(ids, content, bound, decs0, cw0, out0) && decs0 != [] && cw0.client == firstClient
    requires Keeping(given, decs0, cw0, out0)
    requires cw0.Skip? ==> decs0[0] != [] && decs0[0][0].client == firstClient && decs0[0][0].clock == cw0.End()
    ensures Merging(ids, content, bound, decs, cw, out) && !cw.Skip? && Keeping(given, decs, cw, out)
    ensures Total(decs) <= Total(decs0) && (Total(decs) == Total(decs0) ==> cw == cw0)
  {
    decs, cw, out := decs0, cw0, out0;
    while decs[0] != [] && decs[0][0].client == firstClient && decs[0][0].clock == cw.End() && !decs[0][0].Skip?
      invariant Merging(ids, content, bound, decs, cw, out) && |decs| == |decs0| && cw.client == firstClient
      invariant Total(decs) <= Total(decs0) && (Total(decs) == Total(decs0) ==> cw == cw0 && decs == decs0)
      invariant Total(decs) < Total(decs0) ==> !cw.Skip?
      invariant Keeping(given, decs, cw, out)
      decreases Total(decs)
    {
      ReadersNext(decs, content, bound);
      WritePart(ids, content, bound, decs, cw, out);
      FirstGiven(given, decs);
      WholeSnoc(given, out, cw, decs[0][0]);
      out, cw, decs := out + [cw], decs[0][0], Next(decs);
    }
    if cw.Skip? {
      ReadersNext(decs, content, bound);
    }
  }

  /** Writes what is new of the first struct, of the same client as `cw`.  As `cw` is never
      a `Skip` here, no `Skip` needs to be extended or shortened. */
  method WriteSameClient(ghost given: iset<Struct>, ghost ids: iset<ID>, ghost content: Content, ghost bound: nat,
                         decs0: seq<seq<Struct>>, cw0: Struct, out0: seq<Struct>)
    returns (decs: seq<seq<Struct>>, cw: Struct, out: seq<Struct>)
    requires Merging(ids, content, bound, decs0, cw0, out0) && decs0 != [] && decs0[0] != [] && !cw0.Skip?
    requires decs0[0][0].client == cw0.client && cw0.End() < decs0[0][0].End()
    requires cw0.End() < decs0[0][0].clock ==> NoneEmpty(decs0) && InOrder(decs0)
    requires Keeping(given, decs0, cw0, out0)
    ensures Keeping(given, decs, cw, out)
    ensures Merging(ids, content, bound, decs, cw, out) && |decs| == |decs0| && cw.client == cw0.client
    ensures cw.Skip? ==> decs[0] != [] && decs[0][0].client == cw.client && decs[0][0].clock == cw.End()
    ensures Total(decs) < Total(decs0) || (decs == decs0 && cw0.End() < cw.End())
  {
    var curr := decs0[0][0];
    decs, cw, out := decs0, cw0, out0;
    ReadersNext(decs, content, bound);
    if cw.End() < curr.clock {
      FillGap(ids, content, bound, decs, cw, out);
      WholeSnoc(given, out, cw, Skip(cw.client, cw.End(), curr.clock - cw.End()));
      out, cw := out + [cw], Skip(cw.client, cw.End(), curr.clock - cw.End());
    } else {
      var t := curr;
      var diff := cw.End() - curr.clock;
      if diff > 0 {
        t := Slice(curr, diff);
      }
      assert t == NewPart(cw, curr);
      NewPartFrom(cw, curr, content);
      NewPartGiven(given, decs, cw);
      GivenNext(given, decs);
      if Merges(cw, t) {
        WholeReplaced(given, out, cw, Merged(cw, t));
        MergePart(ids, content, bound, decs, cw, out);
        cw := Merged(cw, t);
      } else {
        WritePart(ids, content, bound, decs, cw, out);
        WholeSnoc(given, out, cw, t);
        out, cw, decs := out + [cw], t, Next(decs);
      }
    }
  }

  /** One round of the loop, with the readers sorted. */
  method Round(ghost given: iset<Struct>, ghost ids: iset<ID>, ghost content: Content, ghost bound: nat,
               decs0: seq<seq<Struct>>, cw0: Struct, out0: seq<Struct>)
    returns (decs: seq<seq<Struct>>, cw: Struct, out: seq<Struct>)
    requires Merging(ids, content, bound, decs0, cw0, out0) && !cw0.Skip?
    requires NoneEmpty(decs0) && InOrder(decs0) && decs0 != [] && Keeping(given, decs0, cw0, out0)
    ensures Keeping(given, decs, cw, out)
    ensures Merging(ids, content, bound, decs, cw, out) && !cw.Skip?
    ensures Total(decs) < Total(decs0) || (Total(decs) == Total(decs0) && cw0.End() < cw.End())
  {
    var firstClient := decs0[0][0].client;
    var iterated;
    cw, out := cw0, out0;
    decs, iterated := SkipWritten(given, ids, content, bound, decs0, cw, out);
    if decs[0] == [] || decs[0][0].client != firstClient || (iterated && cw.End() < decs[0][0].clock) {
      return;
    }
    if firstClient != cw.client {
      assert !iterated by {
        FirstHasId(decs0, content, bound);
        assert IsAhead(cw, out, ID(firstClient, decs0[0][0].clock));
      }
      SwitchClient(ids, content, bound, decs, cw, out);
      ReadersNext(decs, content, bound);
      FirstGiven(given, decs);
      WholeSnoc(given, out, cw, decs[0][0]);
      out, cw, decs := out + [cw], decs[0][0], Next(decs);
    } else {
      decs, cw, out := WriteSameClient(given, ids, content, bound, decs, cw, out);
    }
    decs, cw, out := WriteConsecutive(given, ids, content, bound, decs, cw, out, firstClient);
  }

  // ----- The whole merge -----

  /** What one of the updates holds. */
  predicate HeldBy(updates: seq<seq<Struct>>, id: ID) {
    exists u <- updates :: Holds(u, id)
  }

  lemma {:induction false} FilteredHolds(s: seq<Struct>, id: ID)
    ensures Holds(Filtered(s), id) <==> Holds(s, id)
  {
    if s != [] {
      FilteredHolds(s[1..], id);
      HoldsCons(s, id);
      if !s[0].Skip? {
        HoldsCons(Filtered(s), id);
        assert Filtered(s)[1..] == Filtered(s[1..]);
      }
    }
  }

  /** The structs of an update come one after the other, without overlap. */
  lemma {:induction false} UpdatePrecedes(s: seq<Struct>, content: Content, i: nat, j: nat)
    requires Update(s, content) && i < j < |s|
    ensures Precedes(s[i], s[j])
    decreases j
  {
    assert MeetsAt(s, j - 1) && From(s[j - 1], content);
    if i < j - 1 {
      UpdatePrecedes(s, content, i, j - 1);
    }
  }

  ghost predicate Bounded(s: seq<Struct>, bound: nat) {
    forall i :: 0 <= i < |s| ==> s[i].End() <= bound
  }

  lemma UpdateTail(s: seq<Struct>, content: Content)
    requires Update(s, content) && s != []
    ensures Update(s[1..], content)
  {
    forall i | 0 <= i < |s[1..]| - 1 ensures MeetsAt(s[1..], i) {
      assert MeetsAt(s, i + 1);
    }
  }

  lemma {:induction false} FilteredMembers(s: seq<Struct>)
    ensures forall t <- Filtered(s) :: t in s && !t.Skip?
  {
    if s != [] {
      FilteredMembers(s[1..]);
    }
  }

  /** Filtering an update leaves what a reader reads. */
  lemma {:induction false} FilteredReader(s: seq<Struct>, content: Content, bound: nat)
    requires Update(s, content) && Bounded(s, bound)
    ensures Reader(Filtered(s), content, bound)
    decreases |s|
  {
    if s != [] {
      UpdateTail(s, content);
      FilteredReader(s[1..], content, bound);
      var r := Filtered(s[1..]);
      if !s[0].Skip? {
        assert From(s[0], content);
        FilteredMembers(s[1..]);
        var t := Filtered(s);
        assert t == [s[0]] + r;
        forall i, j | 0 <= i < j < |t| ensures PrecedesAt(t, i, j) {
          if i > 0 {
            assert PrecedesAt(r, i - 1, j - 1);
          } else {
            assert t[j] in s[1..];
            var k :| 1 <= k < |s| && s[k] == t[j];
            UpdatePrecedes(s, content, 0, k);
          }
        }
        forall i | 0 <= i < |t| ensures ReadsAt(t, content, bound, i) {
          assert i > 0 ==> ReadsAt(r, content, bound, i - 1);
        }
      }
    }
  }

  lemma {:induction false} HasBound(updates: seq<seq<Struct>>) returns (bound: nat)
    ensures forall u <- updates :: Bounded(u, bound)
    decreases |updates|, 1
  {
    bound := 0;
    if updates != [] {
      var b := HasBound(updates[1..]);
      bound := BoundOf(updates[0], b);
      forall u | u in updates ensures Bounded(u, bound) {
        assert u == updates[0] || u in updates[1..];
      }
    }
  }

  lemma {:induction false} BoundOf(s: seq<Struct>, least: nat) returns (bound: nat)
    ensures Bounded(s, bound) && least <= bound
  {
    bound := least;
    if s != [] {
      var b := BoundOf(s[1..], least);
      bound := if b < s[0].End() then s[0].End() else b;
    }
  }

  /** A struct of one of the updates. */
  ghost function ReadFrom(updates: seq<seq<Struct>>): iset<Struct> {
    iset u, t | u in updates && t in u :: t
  }

  /** The merged update holds exactly the ids that the updates hold, with their units.  Of
      several updates it is made of their structs, or what is new of them, and of `Skip`s
      between two structs of a client. */
  method MergeUpdates(updates: seq<seq<Struct>>, ghost content: Content) returns (merged: seq<Struct>)
    requires forall u <- updates :: Update(u, content)
    ensures Update(merged, content)
    ensures forall id :: Holds(merged, id) <==> HeldBy(updates, id)
    ensures |updates| == 1 ==> merged == updates[0]
    ensures |updates| != 1 ==>
      Whole(ReadFrom(updates), merged) && (merged != [] ==> !merged[|merged| - 1].Skip?)
  {
    if |updates| == 1 {
      assert forall id :: HeldBy(updates, id) <==> Holds(updates[0], id);
      return updates[0];
    }
    var decs := seq(|updates|, i requires 0 <= i < |updates| => Filtered(updates[i]));
    ghost var bound := HasBound(updates);
    ghost var ids := iset id | HeldBy(updates, id);
    StartReaders(updates, decs, content, bound);
    ReadersGiven(updates, decs);
    merged := MergeReaders(ReadFrom(updates), ids, content, bound, decs);
  }

  lemma StartReaders(updates: seq<seq<Struct>>, decs: seq<seq<Struct>>, content: Content, bound: nat)
    requires forall u <- updates :: Update(u, content) && Bounded(u, bound)
    requires |decs| == |updates| && forall i :: 0 <= i < |decs| ==> decs[i] == Filtered(updates[i])
    ensures AllReaders(decs, content, bound) && forall id :: Left(decs, id) <==> HeldBy(updates, id)
  {
    forall d | d in decs ensures Reader(d, content, bound) {
      var i :| 0 <= i < |decs| && decs[i] == d;
      FilteredReader(updates[i], content, bound);
    }
    forall id ensures Left(decs, id) <==> HeldBy(updates, id) {
      if Left(decs, id) {
        var d :| d in decs && Holds(d, id);
        var i :| 0 <= i < |decs| && decs[i] == d;
        FilteredHolds(updates[i], id);
        assert updates[i] in updates && Holds(updates[i], id);
      }
      if HeldBy(updates, id) {
        var u :| u in updates && Holds(u, id);
        var i :| 0 <= i < |updates| && updates[i] == u;
        FilteredHolds(u, id);
        assert decs[i] in decs && Holds(decs[i], id);
      }
    }
  }

  lemma ReadersGiven(updates: seq<seq<Struct>>, decs: seq<seq<Struct>>)
    requires |decs| == |updates| && forall i :: 0 <= i < |decs| ==> decs[i] == Filtered(updates[i])
    ensures AllGiven(ReadFrom(updates), decs)
  {
    forall d, t | d in decs && t in d ensures t in ReadFrom(updates) {
      var i :| 0 <= i < |decs| && decs[i] == d;
      FilteredMembers(updates[i]);
      assert updates[i] in updates && t in updates[i];
    }
  }

  lemma SortedReaders(decs: seq<seq<Struct>>, content: Content, bound: nat)
    requires AllReaders(decs, content, bound)
    ensures AllReaders(SortReaders(decs), content, bound)
    ensures forall id :: Left(SortReaders(decs), id) <==> Left(decs, id)
  {
  }

  method MergeReaders(ghost given: iset<Struct>, ghost ids: iset<ID>, ghost content: Content, ghost bound: nat,
                      decs0: seq<seq<Struct>>)
    returns (out: seq<Struct>)
    requires AllReaders(decs0, content, bound) && forall id :: id in ids <==> Left(decs0, id)
    requires AllGiven(given, decs0)
    ensures Whole(given, out) && (out != [] ==> !out[|out| - 1].Skip?)
    ensures Update(out, content) && forall id :: Holds(out, id) <==> id in ids
  {
    out := [];
    SortInOrder(decs0);
    SortedReaders(decs0, content, bound);
    var decs := SortReaders(decs0);
    if |decs| == 0 {
      return;
    }
    ReadersNext(decs, content, bound);
    Start(ids, content, bound, decs);
    var cw := decs[0][0];
    FirstGiven(given, decs);
    assert Whole(given, [] + [cw]);
    decs := Next(decs);
    decs, cw, out := WriteConsecutive(given, ids, content, bound, decs, cw, out, cw.client);
    while true
      invariant Merging(ids, content, bound, decs, cw, out) && !cw.Skip? && Keeping(given, decs, cw, out)
      decreases Total(decs), bound - cw.End()
    {
      SortInOrder(decs);
      SortedReaders(decs, content, bound);
      decs := SortReaders(decs);
      if |decs| == 0 {
        break;
      }
      decs, cw, out := Round(given, ids, content, bound, decs, cw, out);
    }
    out := out + [cw];
  }

  lemma Start(ids: iset<ID>, content: Content, bound: nat, decs: seq<seq<Struct>>)
    requires AllReaders(decs, content, bound) && NoneEmpty(decs) && decs != [] && InOrder(decs)
    requires forall id :: id in ids <==> Left(decs, id)
    ensures Merging(ids, content, bound, Next(decs), decs[0][0], [])
  {
    var t := decs[0][0];
    ReadersNext(decs, content, bound);
    forall id ensures Left(decs, id) <==> Has(t, id) || Left(Next(decs), id) {
      LeftNext(decs, id);
    }
    forall id ensures Holds([] + [t], id) <==> Has(t, id) {
      HoldsSnoc([], t, id);
    }
    forall id | Left(Next(decs), id) ensures IsAhead(t, [], id) {
      LeastFirst(decs, content, bound, id);
    }
  }
}
