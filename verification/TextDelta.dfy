/** The operations of `YText` on whole texts, and the delta format. */
module TextDelta {
  import opened Common
  import opened RichText

  // ----- Cleanups of a whole text -----

  lemma SameSelf(l: seq<Elem>)
    ensures Cleaned(l, l) && SameMeaning(l, l)
  {
  }

  lemma SameTwice(l: seq<Elem>, t: seq<Elem>, u: seq<Elem>)
    requires SameMeaning(l, t) && SameMeaning(t, u) && Cleaned(l, t) && Cleaned(t, u)
    ensures SameMeaning(l, u) && Cleaned(l, u)
  {
    forall i | 0 <= i < |l| ensures CleanedAt(l, u, i) {
      assert CleanedAt(l, t, i) && CleanedAt(t, u, i);
    }
  }

  /** `cleanupYTextFormatting`: only deletes markers, and no character changes its attributes.
      The gap in front of the first character is cleaned up; all later ones begin with a
      character, so that nothing is found there. */
  method CleanupYTextFormatting(l: seq<Elem>) returns (t: seq<Elem>, res: nat)
    ensures Cleaned(l, t) && SameMeaning(l, t) && res == Changed(l, t, |l|)
    ensures var end := GapEnd(l, 0); if end < |l| then CleansedTo(l, t, 0, end, end, map[]) else t == l
  {
    hide SameMeaning, CleansedTo;
    t, res := l, 0;
    SameSelf(l);
    ChangedNone(l, l, 0, |l|);
    var start: nat, end: nat := 0, 0;
    var startAttributes, currentAttributes: Attrs := map[], map[];
    while end < |l|
      invariant start <= end <= |l| && Cleaned(l, t) && SameMeaning(l, t)
      invariant startAttributes == After(t[..start], map[]) && currentAttributes == After(t[..end], map[])
      invariant (start < |t| && t[start].Visible()) || Bare(t, start, end)
      invariant res == Changed(l, t, |l|) && FirstGap(l, t, start, end, startAttributes)
    {
      var e := t[end];
      if e.Visible() {
        if !t[start].Visible() {
          GapReaches(t, start, end);
        }
        var u, cleanups;
        u, currentAttributes, cleanups := CleanupFormattingGap(t, start, end, startAttributes, currentAttributes);
        assert u[end] == e by {
          GapStops(t, u, start, end);
        }
        SameTwice(l, t, u);
        FirstGapNext(l, t, u, start, end, startAttributes);
        t, res := u, res + cleanups;
        startAttributes, start := currentAttributes, end;
      } else if e.Marker() {
        currentAttributes := Set(currentAttributes, e.key, e.value);
      }
      assert t[..end + 1] == t[..end] + [t[end]];
      ReadSnoc(t[..end], t[end], map[]);
      end := end + 1;
    }
    assert end <= GapEnd(l, 0) || GapEnd(l, 0) < |l|;
  }

  /** The first gap is cleaned up once its end is reached. */
  ghost predicate FirstGap(l: seq<Elem>, t: seq<Elem>, start: nat, end: nat, a: Attrs) {
    if end <= GapEnd(l, 0) then t == l && start == 0 && a == map[]
    else start < |t| && t[start].Visible() && CleansedTo(l, t, 0, GapEnd(l, 0), GapEnd(l, 0), map[])
  }

  /** At a character. */
  lemma FirstGapNext(l: seq<Elem>, t: seq<Elem>, u: seq<Elem>, start: nat, end: nat, a: Attrs)
    requires FirstGap(l, t, start, end, a) && start <= end < |l| == |t| == |u| && t[end].Visible() && u[end] == t[end]
    requires CleansedTo(t, u, start, GapEnd(t, start), GapEnd(t, start), a)
    ensures FirstGap(l, u, end, end + 1, After(u[..end], map[]))
    ensures Changed(l, u, |l|) == Changed(l, t, |l|) + Changed(t, u, |t|)
  {
    if end <= GapEnd(l, 0) {
      ChangedNone(l, l, 0, |l|);
    } else {
      NothingCleansed(t, u, start, a);
    }
  }

  /** A gap that begins with a character is empty. */
  lemma NothingCleansed(t: seq<Elem>, u: seq<Elem>, start: nat, a: Attrs)
    requires start < |t| && t[start].Visible()
    requires CleansedTo(t, u, start, GapEnd(t, start), GapEnd(t, start), a)
    ensures u == t && Changed(t, u, |t|) == 0
  {
    assert forall n :: 0 <= n < |t| ==> u[n] == t[n];
    ChangedNone(t, u, 0, |t|);
  }

  lemma GapStops(t: seq<Elem>, u: seq<Elem>, start: nat, end: nat)
    requires start <= end < |t| && t[end].Visible() && Cleaned(t, u)
    ensures u[end] == t[end]
  {
    assert CleanedAt(t, u, end);
  }

  /** Where the gap that ends at `i` begins. */
  function GapStart(l: seq<Elem>, i: nat): (s: nat)
    requires i <= |l|
    ensures s <= i && Bare(l, s, i) && (s > 0 ==> l[s - 1].Visible())
  {
    if i == 0 || l[i - 1].Visible() then i else GapStart(l, i - 1)
  }

  /** A marker that another one of its key follows up to `end`. */
  ghost predicate OverwrittenAt(l: seq<Elem>, i: nat, end: nat) {
    i < end <= |l| && l[i].Marker() && exists j :: i < j < end && MarkerAt(l, j, l[i].key)
  }

  /** The list without the overwritten markers of the gap, from `i` on; `attrs` are the keys
      of the markers from there on. */
  ghost predicate Freed(l: seq<Elem>, t: seq<Elem>, i: nat, end: nat, attrs: set<Key>) {
    && |t| == |l| && i <= end <= |l| && Bare(l, i, end)
    && (forall n :: 0 <= n < |l| ==>
      t[n] == if i <= n < end && OverwrittenAt(l, n, end) then Unmarked(l[n]) else l[n])
    && (forall k <- attrs :: exists j :: i <= j < end && MarkerAt(t, j, k))
    && (forall j :: i <= j < end && l[j].Marker() ==> l[j].key in attrs)
  }

  /** A marker whose key was seen is deleted. */
  lemma FreedDelete(l: seq<Elem>, t: seq<Elem>, i: nat, end: nat, attrs: set<Key>)
    requires 0 < i && Freed(l, t, i, end, attrs) && l[i - 1].Marker() && l[i - 1].key in attrs
    ensures t[i - 1] == l[i - 1] && SameMeaning(t, Without1(t, i - 1))
    ensures Freed(l, Without1(t, i - 1), i - 1, end, attrs)
  {
    var e, u := l[i - 1], Without1(t, i - 1);
    var j :| i <= j < end && MarkerAt(t, j, e.key);
    assert MarkerAt(l, j, e.key);
    assert forall n :: i - 1 <= n < j ==> t[n].Visible() == l[n].Visible();
    DeleteOverwritten(t, i - 1, j, e.key);
    forall k | k in attrs ensures exists j :: i - 1 <= j < end && MarkerAt(u, j, k) {
      var m :| i <= m < end && MarkerAt(t, m, k);
      assert MarkerAt(u, m, k);
    }
  }

  /** Everything else is kept. */
  lemma FreedKeep(l: seq<Elem>, t: seq<Elem>, i: nat, end: nat, attrs: set<Key>, attrs': set<Key>)
    requires 0 < i && Freed(l, t, i, end, attrs) && !l[i - 1].Visible()
    requires l[i - 1].Marker() ==> l[i - 1].key !in attrs
    requires attrs' == if l[i - 1].Marker() then attrs + {l[i - 1].key} else attrs
    ensures Freed(l, t, i - 1, end, attrs')
  {
    if l[i - 1].Marker() {
      assert forall j :: i <= j < end && l[j].Marker() ==> l[j].key != l[i - 1].key;
      assert MarkerAt(t, i - 1, l[i - 1].key);
    }
    forall k | k in attrs' ensures exists j :: i - 1 <= j < end && MarkerAt(t, j, k) {
      if k in attrs {
        var j :| i <= j < end && MarkerAt(t, j, k);
      }
    }
  }

  /** `cleanupContextlessFormattingGap`: deletes exactly the markers of a gap that are
      overwritten in the same gap. */
  method CleanupContextlessFormattingGap(l: seq<Elem>, item0: nat) returns (t: seq<Elem>)
    requires item0 < |l|
    ensures Cleaned(l, t) && SameMeaning(l, t)
    ensures var end := GapEnd(l, item0 + 1);
      |t| == |l| && forall n :: 0 <= n < |l| ==>
        t[n] == if GapStart(l, end) <= n && OverwrittenAt(l, n, end) then Unmarked(l[n]) else l[n]
  {
    hide SameMeaning, Cleaned, Freed;
    t := l;
    SameSelf(l);
    var item: nat := item0;
    while item + 1 < |l| && !l[item + 1].Visible()
      invariant item < |l| && GapEnd(l, item + 1) == GapEnd(l, item0 + 1)
    {
      item := item + 1;
    }
    var attrs: set<Key> := {};
    var i: nat := item + 1;
    FreedStart(l, i);
    while i > 0 && !t[i - 1].Visible()
      invariant i <= item + 1 && |t| == |l| && Cleaned(l, t) && SameMeaning(l, t) && Freed(l, t, i, item + 1, attrs)
      invariant GapStart(l, i) == GapStart(l, item + 1)
    {
      FreedIs(l, t, i, item + 1, attrs);
      var e := t[i - 1];
      if e.Marker() && e.key in attrs {
        FreedDelete(l, t, i, item + 1, attrs);
        CleanedNext(l, t, i - 1);
        SameAgain(l, t, Without1(t, i - 1));
        t := Without1(t, i - 1);
      } else {
        FreedKeep(l, t, i, item + 1, attrs, if e.Marker() then attrs + {e.key} else attrs);
        if e.Marker() {
          attrs := attrs + {e.key};
        }
      }
      i := i - 1;
    }
    FreedIs(l, t, i, item + 1, attrs);
  }

  lemma FreedStart(l: seq<Elem>, end: nat)
    requires end <= |l|
    ensures Freed(l, l, end, end, {})
  {
  }

  lemma FreedIs(l: seq<Elem>, t: seq<Elem>, i: nat, end: nat, attrs: set<Key>)
    requires Freed(l, t, i, end, attrs)
    ensures |t| == |l| && i <= end <= |l| && (i > 0 ==> t[i - 1] == l[i - 1])
    ensures forall n :: 0 <= n < |l| ==> t[n] == if i <= n && OverwrittenAt(l, n, end) then Unmarked(l[n]) else l[n]
  {
  }

  lemma SameAgain(l: seq<Elem>, t: seq<Elem>, u: seq<Elem>)
    requires SameMeaning(l, t) && SameMeaning(t, u)
    ensures SameMeaning(l, u)
  {
  }

  // ----- Deltas -----

  datatype Op =
    | Insert(text: string, attributes: Changes)
    | Retain(length: nat, attributes: Changes)
    | Delete(length: nat)

  /** What an operation does to the characters left of the position and right of it. */
  function Left(op: Op, done: seq<Glyph>, rest: seq<Glyph>, last: Attrs): seq<Glyph> {
    match op
    case Insert(text, attributes) => done + Typed(text, Override(map[], attributes))
    case Retain(length, attributes) =>
      var n := Min(length, |rest|);
      done + Overridden(rest[..n], attributes) + Typed(Newlines(length - n), Override(last, attributes))
    case Delete(_) => done
  }

  function Right(op: Op, rest: seq<Glyph>): seq<Glyph> {
    match op
    case Insert(_, _) => rest
    case Retain(length, _) => rest[Min(length, |rest|)..]
    case Delete(length) => rest[Min(length, |rest|)..]
  }

  /** The text after a delta; `last` are the attributes in force at its end. */
  function Applied(delta: seq<Op>, done: seq<Glyph>, rest: seq<Glyph>, last: Attrs): seq<Glyph> {
    if delta == [] then done + rest
    else Applied(delta[1..], Left(delta[0], done, rest, last), Right(delta[0], rest), last)
  }

  lemma NothingTyped(done: seq<Glyph>, a: Attrs)
    ensures done + Typed("", a) == done
  {
  }

  lemma AppliedNext(delta: seq<Op>, i: nat, done: seq<Glyph>, rest: seq<Glyph>, last: Attrs)
    requires i < |delta|
    ensures Applied(delta[i..], done, rest, last) ==
      Applied(delta[i + 1..], Left(delta[i], done, rest, last), Right(delta[i], rest), last)
  {
    assert delta[i..][0] == delta[i] && delta[i..][1..] == delta[i + 1..];
  }

  /** The attributes of text inserted at `index`; `last` are those at the end of the list. */
  function InsertedWith(g: seq<Glyph>, index: nat, last: Attrs, attributes: Option<Changes>): Attrs {
    if attributes.Some? then Override(map[], attributes.value)
    else if index > |g| then last
    else if index == 0 then map[]
    else g[index - 1].attrs
  }

  /** The characters left and right of an index, and the attributes there. */
  ghost predicate Found(g: seq<Glyph>, last: Attrs, index: nat, l: seq<Glyph>, r: seq<Glyph>, a: Attrs) {
    l == g[..Min(index, |g|)] && r == g[Min(index, |g|)..] && a == InsertedWith(g, index, last, None)
  }

  lemma InsertedIs(g: seq<Glyph>, last: Attrs, index: nat, l: seq<Glyph>, r: seq<Glyph>, a: Attrs, text: string,
                   attributes: Option<Changes>)
    requires Found(g, last, index, l, r, a)
    ensures var n, given := Min(index, |g|), if attributes.Some? then attributes.value else AsChanges(a);
      l + Typed(text, Override(map[], given)) + r ==
      g[..n] + Typed(text, InsertedWith(g, index, last, attributes)) + g[n..]
  {
    AsChangesSame(a);
  }

  /** The text with a range formatted. */
  function WithRange(g: seq<Glyph>, index: nat, length: nat, attributes: Changes, last: Attrs): seq<Glyph> {
    var n := Min(index, |g|);
    var m := Min(length, |g| - n);
    g[..n] + Overridden(g[n..][..m], attributes) + g[n..][m..] + Typed(Newlines(length - m), Override(last, attributes))
  }

  lemma WithRangeIs(g: seq<Glyph>, l: seq<Glyph>, r: seq<Glyph>, index: nat, length: nat, attributes: Changes,
                    last: Attrs)
    requires l == g[..Min(index, |g|)] && r == g[Min(index, |g|)..]
    ensures var m := Min(length, |r|);
      l + Overridden(r[..m], attributes) + Typed(Newlines(length - m), Override(last, attributes)) + r[m..]
      == WithRange(g, index, length, attributes, last)
  {
    var m := Min(length, |r|);
    if m == length {
      assert Typed(Newlines(0), Override(last, attributes)) == [];
    } else {
      assert r[m..] == [];
    }
  }

  // ----- Single edits -----

  lemma NothingOverridden(g: seq<Glyph>)
    ensures Overridden(g, map[]) == g
  {
    forall i | 0 <= i < |g| ensures Overridden(g, map[])[i] == g[i] {
      SameAttrs(Override(g[i].attrs, map[]), g[i].attrs);
    }
  }

  /** A plain retain moves to an index. */
  lemma RetainMoves(op: Op, i: nat, g: seq<Glyph>, last: Attrs)
    requires i <= |g|
    ensures Applied([Retain(i, map[]), op], [], g, last) ==
      Left(op, g[..i], g[i..], last) + Right(op, g[i..])
  {
    var ops := [Retain(i, map[]), op];
    NothingOverridden(g[..i]);
    assert Typed(Newlines(0), Override(last, map[])) == [];
    assert Left(ops[0], [], g, last) == g[..i] + [] == g[..i] && Right(ops[0], g) == g[i..];
    assert ops[1..] == [op] && [op][1..] == [];
    assert Applied(ops, [], g, last) == Applied([op], g[..i], g[i..], last);
    assert Applied([op], g[..i], g[i..], last) == Applied([], Left(op, g[..i], g[i..], last), Right(op, g[i..]), last);
  }

  /** Deleting behind a plain retain removes the characters of the range. */
  lemma DeltaDeletes(g: seq<Glyph>, i: nat, n: nat, last: Attrs)
    requires i <= |g|
    ensures Applied([Retain(i, map[]), Delete(n)], [], g, last) == g[..i] + g[Min(i + n, |g|)..]
  {
    RetainMoves(Delete(n), i, g, last);
    assert g[i..][Min(n, |g| - i)..] == g[Min(i + n, |g|)..];
  }

  /** Retaining with attributes overrides them on the range, and pads it with newlines. */
  lemma DeltaFormats(g: seq<Glyph>, i: nat, n: nat, attributes: Changes, last: Attrs)
    requires i <= |g|
    ensures Applied([Retain(i, map[]), Retain(n, attributes)], [], g, last) == WithRange(g, i, n, attributes, last)
    ensures i + n <= |g| ==>
      WithRange(g, i, n, attributes, last) == g[..i] + Overridden(g[i..i + n], attributes) + g[i + n..]
  {
    RetainMoves(Retain(n, attributes), i, g, last);
    WithRangeIs(g, g[..i], g[i..], i, n, attributes, last);
    if i + n <= |g| {
      assert Typed(Newlines(0), Override(last, attributes)) == [];
      assert g[i..][..n] == g[i..i + n] && g[i..][n..] == g[i + n..];
    }
  }

  /** Inserting puts the text between the characters. */
  lemma DeltaInserts(g: seq<Glyph>, i: nat, text: string, attributes: Changes, last: Attrs)
    requires i <= |g|
    ensures Applied([Retain(i, map[]), Insert(text, attributes)], [], g, last) ==
      g[..i] + Typed(text, Override(map[], attributes)) + g[i..]
  {
    RetainMoves(Insert(text, attributes), i, g, last);
  }

  lemma NothingDeleted(g: seq<Glyph>, n: nat)
    requires n <= |g|
    ensures g == g[..n] + g[n..][0..]
  {
  }

  /** `YText`. */
  /** What is left of the position at `index`. */
  function Before(l: seq<Elem>, index: nat): seq<Elem> {
    l[..|l| - |Passing(l, index)|]
  }

  /** The list with `text` inserted at a position, attributes changed over `n` elements. */
  ghost predicate Edited(l: seq<Elem>, index: nat, attributes: Changes, n: nat, text: seq<Elem>, t: seq<Elem>) {
    exists left, right :: t == left + right &&
      Bracketed(Before(l, index), Passing(l, index), attributes, n, text, left, right)
  }

  ghost predicate FormattedList(l: seq<Elem>, index: nat, length: nat, attributes: Changes, t: seq<Elem>) {
    exists rest :: Edited(l, index, attributes, FormatRangeOf(Before(l, index), Passing(l, index), length, attributes),
                          Elems(Newlines(rest)), t)
  }

  /** The attributes of a text that is inserted: without any it takes those of its position,
      and with some the others are set to null. */
  function AttributesAt(l: seq<Elem>, index: nat, attributes: Option<Changes>): Changes {
    var a := After(Before(l, index), map[]);
    OnlyThese(if attributes.Some? then attributes.value else AsChanges(a), a)
  }

  /** The list with `length` characters deleted, and the gap there cleaned up. */
  ghost predicate DeletedList(l: seq<Elem>, index: nat, length: nat, t: seq<Elem>) {
    var u, start := Before(l, index) + Erased(Passing(l, index), length), |Before(l, index)|;
    CleansedTo(u, t, start, GapEnd(u, start), GapEnd(u, start), After(Before(l, index), map[]))
  }

  lemma BeforeIs(l: seq<Elem>, index: nat, left: seq<Elem>, right: seq<Elem>)
    requires left + right == l && right == Passing(l, index)
    ensures left == Before(l, index)
  {
  }

  class YText {
    var list: seq<Elem>

    constructor (list: seq<Elem>)
      ensures this.list == list
    {
      this.list := list;
    }

    /** The characters with their attributes. */
    ghost function Content(): seq<Glyph>
      reads this
    {
      Read(list, map[])
    }

    /** A position before the character at `index`. */
    method FindPosition(index: nat) returns (pos: Position)
      ensures fresh(pos) && pos.Valid() && pos.right == Passing(list, index)
      ensures Found(Content(), After(list, map[]), index, Read(pos.left, map[]),
        Read(pos.right, pos.currentAttributes), pos.currentAttributes)
      ensures After(pos.right, pos.currentAttributes) == After(list, map[]) && pos.left == Before(list, index)
    {
      pos := new Position(list);
      assert [] + list == list;
      pos.FindNextPosition(index);
      BeforeIs(list, index, pos.left, pos.right);
    }

    /** Stores the list of the position. */
    method Store(pos: Position)
      requires pos.Valid()
      modifies this
      ensures Content() == Read(pos.left, map[]) + Read(pos.right, pos.currentAttributes)
      ensures After(list, map[]) == After(pos.right, pos.currentAttributes) && list == pos.left + pos.right
    {
      ReadConcat(pos.left, pos.right, map[]);
      list := pos.left + pos.right;
    }

    /** Inserts text; without attributes it takes those of the character before it. */
    method InsertAt(index: nat, text: string, attributes0: Option<Changes>)
      modifies this
      ensures text == "" ==> list == old(list)
      ensures text != "" ==> var g, n := old(Content()), Min(index, |old(Content())|);
        Content() == g[..n] + Typed(text, InsertedWith(g, index, old(After(list, map[])), attributes0)) + g[n..]
      ensures text != "" ==>
        Edited(old(list), index, AttributesAt(old(list), index, attributes0), 0, Elems(text), list)
    {
      if |text| <= 0 {
        return;
      }
      var pos := FindPosition(index);
      var attributes := if attributes0.Some? then attributes0.value else AsChanges(pos.currentAttributes);
      InsertedIs(Content(), After(list, map[]), index, Read(pos.left, map[]), Read(pos.right, pos.currentAttributes),
        pos.currentAttributes, text, attributes0);
      pos.InsertText(text, attributes);
      Store(pos);
    }

    /** Changes the attributes of a range.  Past the end of the text, newlines are added,
        unless nothing at all stands right of the index. */
    method FormatAt(index: nat, length: nat, attributes: Changes)
      modifies this
      ensures length == 0 || Passing(old(list), index) == [] ==> list == old(list)
      ensures length > 0 && Passing(old(list), index) != [] ==>
        Content() == WithRange(old(Content()), index, length, attributes, old(After(list, map[])))
      ensures length > 0 && Passing(old(list), index) != [] ==>
        FormattedList(old(list), index, length, attributes, list)
    {
      if length == 0 {
        return;
      }
      var pos := FindPosition(index);
      if pos.right == [] {
        return;
      }
      ghost var g, last := Content(), After(list, map[]);
      ghost var l, r := Read(pos.left, map[]), Read(pos.right, pos.currentAttributes);
      pos.FormatText(length, attributes);
      WithRangeIs(g, l, r, index, length, attributes, last);
      Store(pos);
    }

    /** Deletes a range. */
    method DeleteAt(index: nat, length: nat)
      modifies this
      ensures var g := old(Content()); var n := Min(index, |g|);
        Content() == g[..n] + g[n..][Min(length, |g| - n)..]
      ensures if length == 0 then list == old(list) else DeletedList(old(list), index, length, list)
    {
      if length == 0 {
        NothingDeleted(Content(), Min(index, |Content()|));
        return;
      }
      var pos := FindPosition(index);
      pos.DeleteText(length);
      Store(pos);
    }

    /** One operation of a delta. */
    method ApplyOp(currPos: Position, op: Op)
      requires currPos.Valid()
      modifies currPos
      ensures currPos.Valid()
      ensures Read(currPos.left, map[]) == Left(op, old(Read(currPos.left, map[])),
                                                old(Read(currPos.right, currPos.currentAttributes)),
                                                old(After(currPos.right, currPos.currentAttributes)))
      ensures Read(currPos.right, currPos.currentAttributes) ==
        Right(op, old(Read(currPos.right, currPos.currentAttributes)))
      ensures After(currPos.right, currPos.currentAttributes) == old(After(currPos.right, currPos.currentAttributes))
    {
      match op {
        case Insert(text, attributes) =>
          if |text| > 0 {
            currPos.InsertText(text, attributes);
          } else {
            NothingTyped(Read(currPos.left, map[]), Override(map[], attributes));
          }
        case Retain(length, attributes) => currPos.FormatText(length, attributes);
        case Delete(length) => currPos.DeleteText(length);
      }
    }

    /** `applyDelta`. */
    method ApplyDelta(delta: seq<Op>)
      modifies this
      ensures Content() == Applied(delta, [], old(Content()), After(old(list), map[]))
      ensures After(list, map[]) == old(After(list, map[]))
    {
      ghost var whole, last := Applied(delta, [], Content(), After(list, map[])), After(list, map[]);
      var currPos := new Position(list);
      assert delta[0..] == delta;
      var i: nat := 0;
      while i < |delta|
        invariant i <= |delta| && currPos.Valid() && fresh(currPos)
        invariant whole == Applied(delta[i..], Read(currPos.left, map[]),
          Read(currPos.right, currPos.currentAttributes), last)
        invariant After(currPos.right, currPos.currentAttributes) == last
      {
        AppliedNext(delta, i, Read(currPos.left, map[]), Read(currPos.right, currPos.currentAttributes), last);
        ApplyOp(currPos, delta[i]);
        i := i + 1;
      }
      Store(currPos);
    }

    /** `toDelta`: runs of characters with their attributes.  A run ends exactly where a live
        marker stands. */
    method ToDelta() returns (ops: seq<Op>)
      ensures Runs(ops) && Expanded(ops) == Content() && forall i :: 0 <= i < |ops| ==> ops[i].text != ""
      ensures forall m, n :: 0 <= m < n < |Content()| ==> (SameRun(ops, m, n) <==> !MarkerBetween(list, m, n))
    {
      hide RunsTo;
      ops := [];
      var currentAttributes: Attrs := map[];
      var str := "";
      var n: nat := 0;
      RunsStart(list);
      while n < |list|
        invariant n <= |list| && Runs(ops) && currentAttributes == After(list[..n], map[])
        invariant Expanded(ops) + Typed(str, currentAttributes) == Read(list[..n], map[])
        invariant RunsTo(list, n, ops, str)
      {
        assert list[..n + 1] == list[..n] + [list[n]];
        ReadSnoc(list[..n], list[n], map[]);
        if list[n].Visible() {
          RunsCharacter(list, n, ops, str);
          assert Typed(str + [list[n].ch], currentAttributes) ==
            Typed(str, currentAttributes) + Glyphs(list[n], currentAttributes);
          str := str + [list[n].ch];
        } else if list[n].Marker() {
          RunsMarker(list, n, ops, str, currentAttributes);
          ops, str := PackStr(ops, str, currentAttributes);
          currentAttributes := Set(currentAttributes, list[n].key, list[n].value);
        } else {
          RunsOther(list, n, ops, str);
        }
        n := n + 1;
      }
      assert list[..n] == list;
      RunsEnd(list, ops, str, currentAttributes);
      ops, str := PackStr(ops, str, currentAttributes);
      ExpandedLength(ops);
    }
  }

  // ----- Where a run ends -----

  /** How many characters the operations insert. */
  function Inserted(ops: seq<Op>): nat
    requires Runs(ops)
  {
    if ops == [] then 0 else Inserted(ops[..|ops| - 1]) + |ops[|ops| - 1].text|
  }

  function Visibles(l: seq<Elem>, i: nat): nat
    requires i <= |l|
  {
    if i == 0 then 0 else Visibles(l, i - 1) + if l[i - 1].Visible() then 1 else 0
  }

  /** The characters `m` and `n` are inserted by the same operation. */
  predicate SameRun(ops: seq<Op>, m: nat, n: nat)
    requires Runs(ops)
  {
    exists k :: 0 <= k < |ops| && RunHas(ops, k, m) && RunHas(ops, k, n)
  }

  predicate RunHas(ops: seq<Op>, k: nat, n: nat)
    requires Runs(ops) && k < |ops|
  {
    Inserted(ops[..k]) <= n < Inserted(ops[..k + 1])
  }

  /** A live marker stands between the characters `m` and `n`. */
  predicate MarkerBetween(l: seq<Elem>, m: nat, n: nat) {
    exists i :: 0 <= i < |l| && MarkedIn(l, i, m, n)
  }

  predicate MarkedIn(l: seq<Elem>, i: nat, m: nat, n: nat)
    requires i < |l|
  {
    l[i].Marker() && m < Visibles(l, i) <= n
  }

  /** An operation ends behind `b` characters. */
  ghost predicate EndsAt(ops: seq<Op>, b: nat)
    requires Runs(ops)
  {
    exists k :: 0 <= k <= |ops| && Inserted(ops[..k]) == b
  }

  /** One of the first `n` elements is a live marker behind `b` characters. */
  ghost predicate MarkedAt(l: seq<Elem>, n: nat, b: nat)
    requires n <= |l|
  {
    exists i :: 0 <= i < n && l[i].Marker() && Visibles(l, i) == b
  }

  /** So far the operations end where markers stand, and `str` is not packed yet. */
  ghost predicate RunsTo(l: seq<Elem>, n: nat, ops: seq<Op>, str: string) {
    && n <= |l| && Runs(ops) && (forall i :: 0 <= i < |ops| ==> ops[i].text != "")
    && Inserted(ops) + |str| == Visibles(l, n)
    && forall b :: 0 < b <= Visibles(l, n) ==> (EndsAt(ops, b) <==> MarkedAt(l, n, b))
  }

  lemma {:induction false} VisiblesGrow(l: seq<Elem>, i: nat, j: nat)
    requires i <= j <= |l|
    ensures Visibles(l, i) <= Visibles(l, j)
  {
    if i < j {
      VisiblesGrow(l, i, j - 1);
    }
  }

  lemma {:induction false} InsertedGrows(ops: seq<Op>, k: nat)
    requires Runs(ops) && k <= |ops|
    ensures Inserted(ops[..k]) <= Inserted(ops)
    decreases |ops|
  {
    if k < |ops| {
      var n := |ops| - 1;
      InsertedGrows(ops[..n], k);
      assert ops[..n][..k] == ops[..k];
    } else {
      assert ops[..k] == ops;
    }
  }

  lemma InsertedBetween(ops: seq<Op>, j: nat, k: nat)
    requires Runs(ops) && j <= k <= |ops|
    ensures Inserted(ops[..j]) <= Inserted(ops[..k])
  {
    InsertedGrows(ops[..k], j);
    assert ops[..k][..j] == ops[..j];
  }

  lemma RunsStart(l: seq<Elem>)
    ensures RunsTo(l, 0, [], "")
  {
  }

  lemma RunsCharacter(l: seq<Elem>, n: nat, ops: seq<Op>, str: string)
    requires RunsTo(l, n, ops, str) && n < |l| && l[n].Visible()
    ensures RunsTo(l, n + 1, ops, str + [l[n].ch])
  {
    var v := Visibles(l, n);
    forall b | 0 < b <= v + 1 ensures EndsAt(ops, b) <==> MarkedAt(l, n + 1, b) {
      if b <= v {
        assert EndsAt(ops, b) <==> MarkedAt(l, n, b);
        if i :| 0 <= i < n + 1 && l[i].Marker() && Visibles(l, i) == b {
          assert i < n;
        }
      } else {
        forall k | 0 <= k <= |ops| ensures Inserted(ops[..k]) != b {
          InsertedGrows(ops, k);
        }
        forall i | 0 <= i < n + 1 ensures Visibles(l, i) != b {
          VisiblesGrow(l, i, n);
        }
      }
    }
  }

  lemma RunsOther(l: seq<Elem>, n: nat, ops: seq<Op>, str: string)
    requires RunsTo(l, n, ops, str) && n < |l| && !l[n].Visible() && !l[n].Marker()
    ensures RunsTo(l, n + 1, ops, str)
  {
    forall b | 0 < b <= Visibles(l, n) ensures EndsAt(ops, b) <==> MarkedAt(l, n + 1, b) {
      assert EndsAt(ops, b) <==> MarkedAt(l, n, b);
      if i :| 0 <= i < n + 1 && l[i].Marker() && Visibles(l, i) == b {
        assert i < n;
      }
    }
  }

  /** The ends of the operations after `packStr`. */
  lemma PackedEnds(ops: seq<Op>, str: string, a: Attrs, b: nat)
    requires Runs(ops)
    ensures Runs(Packed(ops, str, a)) && Inserted(Packed(ops, str, a)) == Inserted(ops) + |str|
    ensures EndsAt(Packed(ops, str, a), b) <==> EndsAt(ops, b) || b == Inserted(ops) + |str|
  {
    var packed := Packed(ops, str, a);
    assert packed[..|packed|] == packed;
    if str != "" {
      assert packed[..|ops|] == ops;
      assert forall k :: 0 <= k <= |ops| ==> packed[..k] == ops[..k];
    }
  }

  lemma RunsMarker(l: seq<Elem>, n: nat, ops: seq<Op>, str: string, a: Attrs)
    requires RunsTo(l, n, ops, str) && n < |l| && l[n].Marker()
    ensures RunsTo(l, n + 1, Packed(ops, str, a), "")
  {
    var v, packed := Visibles(l, n), Packed(ops, str, a);
    PackedEnds(ops, str, a, 0);
    forall b | 0 < b <= v ensures EndsAt(packed, b) <==> MarkedAt(l, n + 1, b) {
      PackedEnds(ops, str, a, b);
      assert EndsAt(ops, b) <==> MarkedAt(l, n, b);
      if i :| 0 <= i < n + 1 && l[i].Marker() && Visibles(l, i) == b {
        assert i < n || b == v;
      }
      if b == v {
        assert l[n].Marker() && Visibles(l, n) == b;
      }
    }
  }

  /** In the end two characters are in one run if no marker stands between them. */
  lemma RunsEnd(l: seq<Elem>, ops: seq<Op>, str: string, a: Attrs)
    requires RunsTo(l, |l|, ops, str)
    ensures var packed := Packed(ops, str, a);
      && Runs(packed) && (forall i :: 0 <= i < |packed| ==> packed[i].text != "")
      && Inserted(packed) == Visibles(l, |l|)
      && forall m, n :: 0 <= m < n < Visibles(l, |l|) ==> (SameRun(packed, m, n) <==> !MarkerBetween(l, m, n))
  {
    var packed, v := Packed(ops, str, a), Visibles(l, |l|);
    PackedEnds(ops, str, a, 0);
    forall m, n | 0 <= m < n < v ensures SameRun(packed, m, n) <==> !MarkerBetween(l, m, n) {
      RunsParted(packed, m, n);
      forall b | m < b <= n ensures EndsAt(packed, b) <==> MarkedAt(l, |l|, b) {
        PackedEnds(ops, str, a, b);
        assert EndsAt(ops, b) <==> MarkedAt(l, |l|, b);
      }
      if MarkerBetween(l, m, n) {
        var i :| 0 <= i < |l| && MarkedIn(l, i, m, n);
        assert MarkedAt(l, |l|, Visibles(l, i));
      }
      if b :| m < b <= n && MarkedAt(l, |l|, b) {
        var i :| 0 <= i < |l| && l[i].Marker() && Visibles(l, i) == b;
        assert MarkedIn(l, i, m, n);
      }
    }
  }

  /** Two characters are in one run if no operation ends between them. */
  lemma RunsParted(ops: seq<Op>, m: nat, n: nat)
    requires Runs(ops) && m < n < Inserted(ops)
    ensures SameRun(ops, m, n) <==> forall b :: m < b <= n ==> !EndsAt(ops, b)
  {
    var k := RunOf(ops, m);
    if SameRun(ops, m, n) {
      var i :| 0 <= i < |ops| && RunHas(ops, i, m) && RunHas(ops, i, n);
      forall b | m < b <= n ensures !EndsAt(ops, b) {
        forall j | 0 <= j <= |ops| ensures Inserted(ops[..j]) != b {
          if j <= i {
            InsertedBetween(ops, j, i);
          } else {
            InsertedBetween(ops, i + 1, j);
          }
        }
      }
    } else {
      assert !RunHas(ops, k, n);
      assert Inserted(ops[..k]) <= m;
      assert EndsAt(ops, Inserted(ops[..k + 1]));
    }
  }

  lemma {:induction false} RunOf(ops: seq<Op>, m: nat) returns (k: nat)
    requires Runs(ops) && m < Inserted(ops)
    ensures k < |ops| && RunHas(ops, k, m)
    decreases |ops|
  {
    var n := |ops| - 1;
    assert ops[..n + 1] == ops;
    if Inserted(ops[..n]) <= m {
      k := n;
    } else {
      k := RunOf(ops[..n], m);
      assert ops[..n][..k] == ops[..k] && ops[..n][..k + 1] == ops[..k + 1];
    }
  }

  lemma {:induction false} ExpandedLength(ops: seq<Op>)
    requires Runs(ops)
    ensures |Expanded(ops)| == Inserted(ops)
  {
    if ops != [] {
      ExpandedLength(ops[..|ops| - 1]);
    }
  }

  function AsChanges(a: Attrs): Changes {
    map k | k in a :: Some(a[k])
  }

  lemma AsChangesSame(a: Attrs)
    ensures Override(map[], AsChanges(a)) == a
  {
    SameAttrs(Override(map[], AsChanges(a)), a);
  }

  /** Only insertions. */
  predicate Runs(ops: seq<Op>) {
    forall i :: 0 <= i < |ops| ==> ops[i].Insert?
  }

  function Expanded(ops: seq<Op>): seq<Glyph>
    requires Runs(ops)
  {
    if ops == [] then []
    else
      var n := |ops| - 1;
      Expanded(ops[..n]) + Typed(ops[n].text, Override(map[], ops[n].attributes))
  }

  /** The text so far becomes an operation, if there is any. */
  function Packed(ops: seq<Op>, str: string, a: Attrs): seq<Op> {
    if str == "" then ops else ops + [Insert(str, AsChanges(a))]
  }

  method PackStr(ops0: seq<Op>, str0: string, currentAttributes: Attrs) returns (ops: seq<Op>, str: string)
    requires Runs(ops0)
    ensures ops == Packed(ops0, str0, currentAttributes)
    ensures Runs(ops) && str == "" && Expanded(ops) == Expanded(ops0) + Typed(str0, currentAttributes)
    ensures forall a :: Expanded(ops) + Typed(str, a) == Expanded(ops)
  {
    ops, str := ops0, "";
    if |str0| > 0 {
      ops := ops + [Insert(str0, AsChanges(currentAttributes))];
      AsChangesSame(currentAttributes);
      assert ops[..|ops| - 1] == ops0;
    } else {
      NothingTyped(Expanded(ops0), currentAttributes);
    }
  }

  /** Applying insertions to an empty text gives what they expand to. */
  lemma {:induction false} InsertRuns(ops: seq<Op>, rest: seq<Op>, last: Attrs)
    requires Runs(ops)
    ensures Applied(ops + rest, [], [], last) == Applied(rest, Expanded(ops), [], last)
    decreases |ops|
  {
    if ops == [] {
      assert ops + rest == rest;
    } else {
      var n := |ops| - 1;
      InsertRuns(ops[..n], [ops[n]] + rest, last);
      assert ops[..n] + ([ops[n]] + rest) == ops + rest;
      assert ([ops[n]] + rest)[1..] == rest;
    }
  }

  /** The delta of a text, applied to an empty one, reproduces it. */
  lemma DeltaReproduces(ops: seq<Op>, last: Attrs)
    requires Runs(ops)
    ensures Applied(ops, [], [], last) == Expanded(ops)
  {
    InsertRuns(ops, [], last);
    assert ops + [] == ops && Expanded(ops) + [] == Expanded(ops);
  }
}
