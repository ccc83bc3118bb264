/** Rich text: a list of characters with format markers in between. */
module RichText {
  // A marker sets an attribute, or removes it, for everything after it.  `Read` is what the
  // list means: its visible characters, each with its attributes.

  import opened Common

  type Key = string
  type Value = string
  type Attrs = map<Key, Value>

  /** Attributes to set, `None` to remove. */
  type Changes = map<Key, Option<Value>>

  datatype Elem =
    | Text(ch: char, deleted: bool)
    | Format(key: Key, value: Option<Value>, deleted: bool)
  {
    predicate Visible() {
      Text? && !deleted
    }

    predicate Marker() {
      Format? && !deleted
    }
  }

  datatype Glyph = Glyph(ch: char, attrs: Attrs)

  // ----- What a list means -----

  function Get(a: Attrs, k: Key): Option<Value> {
    if k in a then Some(a[k]) else None
  }

  /** `updateCurrentAttributes`. */
  function Set(a: Attrs, k: Key, v: Option<Value>): (r: Attrs)
    ensures forall j :: Get(r, j) == if j == k then v else Get(a, j)
  {
    if v.Some? then a[k := v.value] else map j | j in a && j != k :: a[j]
  }

  function Step(e: Elem, a: Attrs): Attrs {
    if e.Marker() then Set(a, e.key, e.value) else a
  }

  /** The attributes after a list. */
  function After(s: seq<Elem>, a: Attrs): Attrs {
    if s == [] then a else After(s[1..], Step(s[0], a))
  }

  function Glyphs(e: Elem, a: Attrs): seq<Glyph> {
    if e.Visible() then [Glyph(e.ch, a)] else []
  }

  function Read(s: seq<Elem>, a: Attrs): seq<Glyph> {
    if s == [] then [] else Glyphs(s[0], a) + Read(s[1..], Step(s[0], a))
  }

  lemma {:induction false} ReadConcat(s: seq<Elem>, t: seq<Elem>, a: Attrs)
    ensures After(s + t, a) == After(t, After(s, a))
    ensures Read(s + t, a) == Read(s, a) + Read(t, After(s, a))
  {
    if s == [] {
      assert s + t == t;
    } else {
      assert (s + t)[1..] == s[1..] + t;
      ReadConcat(s[1..], t, Step(s[0], a));
    }
  }

  lemma ReadSnoc(s: seq<Elem>, e: Elem, a: Attrs)
    ensures After(s + [e], a) == Step(e, After(s, a))
    ensures Read(s + [e], a) == Read(s, a) + Glyphs(e, After(s, a))
  {
    ReadConcat(s, [e], a);
    assert [e][1..] == [];
  }

  lemma SameAttrs(a: Attrs, b: Attrs)
    requires forall k :: Get(a, k) == Get(b, k)
    ensures a == b
  {
    forall k ensures k in a <==> k in b {
      assert Get(a, k) == Get(b, k);
    }
    forall k | k in a ensures a[k] == b[k] {
      assert Get(a, k) == Get(b, k);
    }
  }

  /** The attributes with the changes made. */
  function Override(a: Attrs, changes: Changes): (r: Attrs)
    ensures forall k :: Get(r, k) == if k in changes then changes[k] else Get(a, k)
  {
    map k | k in a.Keys + changes.Keys && (k in changes ==> changes[k].Some?) ::
      if k in changes then changes[k].value else a[k]
  }

  function Overridden(g: seq<Glyph>, changes: Changes): (r: seq<Glyph>)
    ensures |r| == |g|
  {
    seq(|g|, i requires 0 <= i < |g| => Glyph(g[i].ch, Override(g[i].attrs, changes)))
  }

  /** Characters that are typed with the same attributes. */
  function Typed(text: string, a: Attrs): (r: seq<Glyph>)
    ensures |r| == |text|
  {
    seq(|text|, i requires 0 <= i < |text| => Glyph(text[i], a))
  }

  function Elems(text: string): seq<Elem> {
    seq(|text|, i requires 0 <= i < |text| => Text(text[i], false))
  }

  lemma {:induction false} ReadElems(text: string, a: Attrs)
    ensures Read(Elems(text), a) == Typed(text, a) && After(Elems(text), a) == a
  {
    if text != [] {
      ReadElems(text[1..], a);
      assert Elems(text)[1..] == Elems(text[1..]);
      assert Typed(text, a) == [Glyph(text[0], a)] + Typed(text[1..], a);
    }
  }

  // ----- Negated attributes -----

  /** `c` are the attributes here, `a` those that were here before the change; `negated`
      records the old value wherever the two differ. */
  ghost predicate NegatedAt(a: Attrs, c: Attrs, negated: Changes, k: Key) {
    Get(a, k) == if k in negated then negated[k] else Get(c, k)
  }

  ghost predicate Negated(a: Attrs, c: Attrs, negated: Changes) {
    forall k :: NegatedAt(a, c, negated, k)
  }

  ghost predicate Requested(c: Attrs, attributes: Changes) {
    forall k <- attributes :: Get(c, k) == attributes[k]
  }

  /** Where the requested attributes are in force, they are the old ones overridden. */
  lemma RequestedOverrides(a: Attrs, c: Attrs, negated: Changes, attributes: Changes)
    requires Negated(a, c, negated) && Requested(c, attributes) && negated.Keys <= attributes.Keys
    ensures c == Override(a, attributes)
  {
    forall k ensures Get(c, k) == Get(Override(a, attributes), k) {
      assert NegatedAt(a, c, negated, k);
    }
    SameAttrs(c, Override(a, attributes));
  }

  lemma NoneNegated(a: Attrs, c: Attrs)
    requires Negated(a, c, map[])
    ensures a == c
  {
    forall k ensures Get(a, k) == Get(c, k) {
      assert NegatedAt(a, c, map[], k);
    }
    SameAttrs(a, c);
  }

  function Without(negated: Changes, k: Key): Changes {
    map j | j in negated && j != k :: negated[j]
  }

  /** The same marker is passed in both. */
  lemma NegatedStep(a: Attrs, c: Attrs, negated: Changes, k: Key, v: Option<Value>)
    requires Negated(a, c, negated) && (k in negated ==> negated[k] == v)
    ensures Negated(Set(a, k, v), Set(c, k, v), Without(negated, k))
    ensures Negated(Set(a, k, v), Set(c, k, v), negated)
  {
    forall j
      ensures NegatedAt(Set(a, k, v), Set(c, k, v), Without(negated, k), j)
      ensures NegatedAt(Set(a, k, v), Set(c, k, v), negated, j) {
      assert NegatedAt(a, c, negated, j);
    }
  }

  /** A marker that was there is deleted. */
  lemma NegatedDeleted(a: Attrs, c: Attrs, negated: Changes, k: Key, v: Option<Value>)
    requires Negated(a, c, negated)
    ensures Negated(Set(a, k, v), c, negated[k := v])
    ensures Get(c, k) == v ==> Negated(Set(a, k, v), c, Without(negated, k))
  {
    var recorded := negated[k := v];
    forall j ensures NegatedAt(Set(a, k, v), c, recorded, j) {
      assert NegatedAt(a, c, negated, j);
    }
    forall j | Get(c, k) == v ensures NegatedAt(Set(a, k, v), c, Without(negated, k), j) {
      assert NegatedAt(a, c, negated, j);
    }
  }

  /** A marker with the old value is inserted. */
  lemma NegatedInserted(a: Attrs, c: Attrs, negated: Changes, k: Key)
    requires Negated(a, c, negated) && k in negated
    ensures Negated(a, Set(c, k, negated[k]), Without(negated, k))
  {
    forall j ensures NegatedAt(a, Set(c, k, negated[k]), Without(negated, k), j) {
      assert NegatedAt(a, c, negated, j);
    }
  }

  /** A marker with a requested value is inserted. */
  lemma RequestInserted(a: Attrs, c: Attrs, negated: Changes, k: Key, v: Option<Value>)
    requires Negated(a, c, negated) && k !in negated
    ensures Negated(a, Set(c, k, v), negated[k := Get(c, k)])
  {
    var recorded := negated[k := Get(c, k)];
    forall j ensures NegatedAt(a, Set(c, k, v), recorded, j) {
      assert NegatedAt(a, c, negated, j);
    }
  }

  // ----- Which markers are needed -----

  /** `attributes[key] ?? null`. */
  function Wanted(attributes: Changes, key: Key): Option<Value> {
    if key in attributes then attributes[key] else None
  }

  /** Deleted, or a marker that sets what is wanted. */
  predicate Idle(e: Elem, attributes: Changes) {
    e.deleted || (e.Format? && Wanted(attributes, e.key) == e.value)
  }

  /** How many elements change nothing that is wanted. */
  function Skippable(s: seq<Elem>, attributes: Changes): (n: nat)
    ensures n <= |s| && (n < |s| ==> !Idle(s[n], attributes)) && forall i :: 0 <= i < n ==> Idle(s[i], attributes)
  {
    if s == [] || !Idle(s[0], attributes) then 0 else 1 + Skippable(s[1..], attributes)
  }

  lemma SkipNext(s: seq<Elem>, i: nat, attributes: Changes)
    requires i < |s| && Idle(s[i], attributes)
    ensures Skippable(s[i..], attributes) == 1 + Skippable(s[i + 1..], attributes)
  {
    assert s[i..][0] == s[i] && s[i..][1..] == s[i + 1..];
  }

  /** The changes that are not in force yet. */
  function Lacking(attributes: Changes, a: Attrs): Changes {
    map k | k in attributes && Get(a, k) != attributes[k] :: attributes[k]
  }

  /** One live marker for each of the changes, and nothing else. */
  ghost predicate MarksFor(s: seq<Elem>, changes: Changes) {
    && (forall i :: 0 <= i < |s| ==> MarkFor(s, i, changes))
    && (forall i, j :: 0 <= i < j < |s| ==> KeysDiffer(s, i, j))
    && (forall k <- changes :: exists i :: 0 <= i < |s| && MarkerAt(s, i, k))
  }

  ghost predicate MarkFor(s: seq<Elem>, i: nat, changes: Changes)
    requires i < |s|
  {
    s[i].Marker() && s[i].key in changes && s[i].value == changes[s[i].key]
  }

  ghost predicate KeysDiffer(s: seq<Elem>, i: nat, j: nat)
    requires i < j < |s|
  {
    s[i].Format? && s[j].Format? && s[i].key != s[j].key
  }

  /** How many elements are deleted, or set an old value that is negated. */
  function Restoring(s: seq<Elem>, negated: Changes): (n: nat)
    ensures n <= |s|
  {
    if s == [] then 0
    else if s[0].deleted then 1 + Restoring(s[1..], negated)
    else if s[0].Format? && s[0].key in negated && negated[s[0].key] == s[0].value then
      1 + Restoring(s[1..], Without(negated, s[0].key))
    else 0
  }

  /** What they do not restore. */
  function Unrestored(s: seq<Elem>, negated: Changes): Changes {
    if s == [] then negated
    else if s[0].deleted then Unrestored(s[1..], negated)
    else if s[0].Format? && s[0].key in negated && negated[s[0].key] == s[0].value then
      Unrestored(s[1..], Without(negated, s[0].key))
    else negated
  }

  lemma WithoutKeys(negated: Changes, k: Key)
    requires k in negated
    ensures Without(negated, k).Keys == negated.Keys - {k} && |Without(negated, k).Keys| < |negated.Keys|
  {
  }

  lemma MovedOn(l: seq<Elem>, s: seq<Elem>, i: nat)
    requires i < |s|
    ensures l + s[..i] + [s[i]] == l + s[..i + 1] && s[i..][0] == s[i] && s[i..][1..] == s[i + 1..]
  {
    assert s[..i + 1] == s[..i] + [s[i]];
    Associative(l, s[..i], [s[i]]);
  }

  lemma MarksMore(s: seq<Elem>, changes: Changes, k: Key, v: Option<Value>)
    requires MarksFor(s, changes) && k !in changes
    ensures MarksFor(s + [Format(k, v, false)], changes[k := v])
  {
    var t, more := s + [Format(k, v, false)], changes[k := v];
    forall i | 0 <= i < |t| ensures MarkFor(t, i, more) {
      assert i < |s| ==> MarkFor(s, i, changes);
    }
    forall i, j | 0 <= i < j < |t| ensures KeysDiffer(t, i, j) {
      assert MarkFor(s, i, changes);
      assert j < |s| ==> KeysDiffer(s, i, j);
    }
    forall c | c in more ensures exists i :: 0 <= i < |t| && MarkerAt(t, i, c) {
      if c in changes {
        var i :| 0 <= i < |s| && MarkerAt(s, i, c);
        assert MarkerAt(t, i, c);
      } else {
        assert MarkerAt(t, |s|, c);
      }
    }
  }

  lemma NoMarks()
    ensures MarksFor([], map[])
  {
  }

  /** The state of `insertAttributes`: the keys `todo` are still to come, `ins` was inserted. */
  ghost predicate Inserting(a: Attrs, c: Attrs, attributes: Changes, todo: set<Key>, negated: Changes, ins: seq<Elem>) {
    && Negated(a, c, negated) && todo <= attributes.Keys
    && (forall k <- attributes :: Get(c, k) == if k in todo then Get(a, k) else attributes[k])
    && (forall k :: k in negated <==> k in attributes && k !in todo && Get(a, k) != attributes[k])
    && (forall k <- negated :: negated[k] == Get(a, k))
    && MarksFor(ins, map k | k in negated && k in attributes :: attributes[k])
  }

  lemma InsertingStart(a: Attrs, attributes: Changes)
    ensures Inserting(a, a, attributes, attributes.Keys, map[], [])
  {
    NoMarks();
    var none: Changes := map[];
    assert (map k | k in none && k in attributes :: attributes[k]) == none;
    assert forall k :: NegatedAt(a, a, map[], k);
  }

  /** The attribute is in force already. */
  lemma InsertingSkip(a: Attrs, c: Attrs, attributes: Changes, todo: set<Key>, negated: Changes, ins: seq<Elem>, k: Key)
    requires Inserting(a, c, attributes, todo, negated, ins) && k in todo && Get(c, k) == attributes[k]
    ensures Inserting(a, c, attributes, todo - {k}, negated, ins)
  {
    hide Negated, MarksFor;
  }

  /** A marker is inserted. */
  lemma InsertingMark(a: Attrs, c: Attrs, attributes: Changes, todo: set<Key>, negated: Changes, ins: seq<Elem>, k: Key)
    requires Inserting(a, c, attributes, todo, negated, ins) && k in todo && Get(c, k) != attributes[k]
    ensures Inserting(a, Set(c, k, attributes[k]), attributes, todo - {k}, negated[k := Get(c, k)],
                      ins + [Format(k, attributes[k], false)])
  {
    hide Negated, MarksFor;
    var done := map j | j in negated && j in attributes :: attributes[j];
    RequestInserted(a, c, negated, k, attributes[k]);
    MarksMore(ins, done, k, attributes[k]);
    var negated' := negated[k := Get(c, k)];
    assert done[k := attributes[k]] == map j | j in negated' && j in attributes :: attributes[j];
  }

  lemma InsertingEnd(a: Attrs, c: Attrs, attributes: Changes, negated: Changes, ins: seq<Elem>)
    requires Inserting(a, c, attributes, {}, negated, ins)
    ensures Negated(a, c, negated) && Requested(c, attributes) && MarksFor(ins, Lacking(attributes, a))
    ensures negated == Negating(attributes, a)
  {
    assert Lacking(attributes, a) == map k | k in negated && k in attributes :: attributes[k];
  }

  /** The state of `insertNegatedAttributes`: `negated` is still to come, `ins` was inserted. */
  ghost predicate Resting(negated0: Changes, negated: Changes, ins: seq<Elem>) {
    && (forall k <- negated :: k in negated0 && negated[k] == negated0[k])
    && MarksFor(ins, Handled(negated0, negated))
  }

  function Handled(negated0: Changes, negated: Changes): Changes {
    map k | k in negated0.Keys - negated.Keys :: negated0[k]
  }

  lemma RestingStart(negated: Changes)
    ensures Resting(negated, negated, [])
  {
    NoMarks();
    assert negated.Keys - negated.Keys == {};
    assert Handled(negated, negated) == map[];
  }

  lemma RestingMark(negated0: Changes, negated: Changes, ins: seq<Elem>, k: Key)
    requires Resting(negated0, negated, ins) && k in negated
    ensures Resting(negated0, Without(negated, k), ins + [Format(k, negated[k], false)])
  {
    hide MarksFor;
    MarksMore(ins, Handled(negated0, negated), k, negated[k]);
    assert Handled(negated0, negated)[k := negated[k]] == Handled(negated0, Without(negated, k));
  }

  lemma RestingEnd(negated0: Changes, ins: seq<Elem>)
    requires Resting(negated0, map[], ins)
    ensures MarksFor(ins, negated0)
  {
    assert Handled(negated0, map[]) == negated0;
  }

  /** The given attributes, and none of the others that are in force. */
  function OnlyThese(attributes: Changes, a: Attrs): Changes {
    attributes + map k | k in a && k !in attributes :: None
  }

  /** A marker that was deleted. */
  function Unmarked(e: Elem): Elem {
    if e.Marker() then Format(e.key, e.value, true) else e
  }

  /** The markers of the given attributes are deleted. */
  function Unformatted(s: seq<Elem>, attributes: Changes): (r: seq<Elem>)
    ensures |r| == |s|
  {
    seq(|s|, i requires 0 <= i < |s| => if s[i].Format? && s[i].key in attributes then Unmarked(s[i]) else s[i])
  }

  /** What an edit does to the list: it moves past what is idle, opens exactly the attributes
      that are not in force yet, takes the markers of these attributes out of the `n` elements
      of its range, inserts `text`, moves past what restores old attributes, and restores
      exactly the others. */
  ghost predicate Bracketed(l0: seq<Elem>, r0: seq<Elem>, attributes: Changes, n: nat, text: seq<Elem>,
                            left: seq<Elem>, right: seq<Elem>) {
    var i := Skippable(r0, attributes);
    exists ins, rest :: BracketedBy(l0 + r0[..i], r0[i..], attributes, n, text, ins, rest, left, right)
  }

  ghost predicate BracketedBy(l1: seq<Elem>, s: seq<Elem>, attributes: Changes, n: nat, text: seq<Elem>,
                              ins: seq<Elem>, rest: seq<Elem>, left: seq<Elem>, right: seq<Elem>) {
    n <= |s| &&
    var a := After(l1, map[]);
    var negated, r := NegatedOver(s[..n], attributes, Negating(attributes, a)), s[n..];
    var m := Restoring(r, negated);
    && MarksFor(ins, Lacking(attributes, a)) && MarksFor(rest, Unrestored(r, negated))
    && left == l1 + ins + Unformatted(s[..n], attributes) + text + r[..m] + rest && right == r[m..]
  }

  /** The range of `formatText`. */
  function FormatRangeOf(l0: seq<Elem>, r0: seq<Elem>, length: nat, attributes: Changes): nat {
    var i := Skippable(r0, attributes);
    RangeLength(r0[i..], length, attributes, Negating(attributes, After(l0 + r0[..i], map[])))
  }

  /** What is negated behind an element of the range. */
  function NegatedBy(e: Elem, attributes: Changes, negated: Changes): Changes {
    if e.Marker() && e.key in attributes then
      if attributes[e.key] == e.value then Without(negated, e.key) else negated[e.key := e.value]
    else negated
  }

  function NegatedOver(s: seq<Elem>, attributes: Changes, negated: Changes): Changes {
    if s == [] then negated
    else NegatedBy(s[|s| - 1], attributes, NegatedOver(s[..|s| - 1], attributes, negated))
  }

  /** The range: `length` characters, and behind them markers and deleted elements as long
      as something is negated and no marker changes a requested attribute. */
  function RangeLength(s: seq<Elem>, length: nat, attributes: Changes, negated: Changes): (n: nat)
    ensures n <= |s|
  {
    if s == [] || !InRange(s[0], length, attributes, negated) then 0
    else
      1 + RangeLength(s[1..], if s[0].Visible() && length > 0 then length - 1 else length, attributes,
                      NegatedBy(s[0], attributes, negated))
  }

  predicate InRange(e: Elem, length: nat, attributes: Changes, negated: Changes) {
    length > 0 ||
    (negated != map[] && !e.Visible() && !(e.Marker() && e.key in attributes && attributes[e.key] != e.value))
  }

  lemma RangeNext(l0: seq<Elem>, s: seq<Elem>, i: nat, attributes: Changes, negated0: Changes, length: nat)
    requires i < |s|
    ensures var e, negated := s[i], NegatedOver(s[..i], attributes, negated0);
      RangeLength(s[i..], length, attributes, negated) ==
      if !InRange(e, length, attributes, negated) then 0
      else
        1 + RangeLength(s[i + 1..], if e.Visible() && length > 0 then length - 1 else length, attributes,
                        NegatedBy(e, attributes, negated))
    ensures NegatedOver(s[..i + 1], attributes, negated0) ==
      NegatedBy(s[i], attributes, NegatedOver(s[..i], attributes, negated0))
    ensures l0 + Unformatted(s[..i + 1], attributes) ==
      l0 + Unformatted(s[..i], attributes) + [if s[i].Format? && s[i].key in attributes then Unmarked(s[i]) else s[i]]
  {
    assert s[i..][0] == s[i] && s[i..][1..] == s[i + 1..];
    assert s[..i + 1][..i] == s[..i];
  }

  /** The values that the opened attributes replace. */
  function Negating(attributes: Changes, a: Attrs): Changes {
    map k | k in Lacking(attributes, a) :: Get(a, k)
  }

  /** The same for an edit without a range; `l` is the list before the text. */
  lemma BracketedText(l0: seq<Elem>, r0: seq<Elem>, attributes: Changes, text: seq<Elem>, l1: seq<Elem>, s: seq<Elem>,
                      b: Attrs, l: seq<Elem>, left: seq<Elem>, right: seq<Elem>)
    requires var i := Skippable(r0, attributes); l1 == l0 + r0[..i] && s == r0[i..] && b == After(l1, map[])
    requires |l1| <= |l| && l[..|l1|] == l1 && MarksFor(l[|l1|..], Lacking(attributes, b))
    requires var negated := Negating(attributes, b);
      var m := Restoring(s, negated); var l3 := l + text + s[..m];
      && right == s[m..] && |l3| <= |left| && left[..|l3|] == l3 && MarksFor(left[|l3|..], Unrestored(s, negated))
    ensures Bracketed(l0, r0, attributes, 0, text, left, right)
  {
    hide MarksFor, Bracketed, Skippable, Lacking, Negating, Restoring, Unrestored, After;
    var ins := l[|l1|..];
    NoRange(s, attributes);
    assert l + text == l1 + ins + Unformatted(s[..0], attributes) + text;
    BracketedAll(l0, r0, attributes, 0, text, l1, s, b, ins, l + text, left, right);
  }

  lemma OnlyTheseIs(attributes: Changes, a: Attrs)
    ensures var all := OnlyThese(attributes, a);
      && attributes.Keys <= all.Keys && (forall k <- attributes :: all[k] == attributes[k])
      && (forall k <- all :: k !in attributes ==> all[k] == None) && (forall k <- a :: k in all)
  {
  }

  // ----- Editing at a position -----

  /** What is right of a position that passes `count` characters. */
  function Passing(s: seq<Elem>, count: nat): (r: seq<Elem>)
    ensures |r| <= |s|
  {
    if s == [] || count == 0 then s else Passing(s[1..], if s[0].Visible() then count - 1 else count)
  }

  /** A character without its content. */
  function Erase(e: Elem): Elem {
    if e.Visible() then Text(e.ch, true) else e
  }

  /** The list with its first `count` characters deleted. */
  function Erased(s: seq<Elem>, count: nat): seq<Elem> {
    if s == [] || count == 0 then s else [Erase(s[0])] + Erased(s[1..], if s[0].Visible() then count - 1 else count)
  }

  /** Nothing is passed or erased at the end, or when nothing is left to do. */
  lemma NothingLeft(s: seq<Elem>, count: nat, a: Attrs)
    ensures s == [] ==> Read(s, a) == [] && After(s, a) == a
    ensures s == [] || count == 0 ==> Passing(s, count) == s && Erased(s, count) == s
  {
  }

  lemma BareStart(l: seq<Elem>)
    ensures Bare(l, |l|, |l|)
  {
  }

  lemma BareNext(l: seq<Elem>, start: nat, e: Elem)
    requires start <= |l| && Bare(l, start, |l|)
    ensures Bare(l + [Erase(e)], start, |l| + 1)
  {
  }

  /** One element further. */
  lemma ErasedNext(left: seq<Elem>, s: seq<Elem>, count: nat)
    requires s != [] && count > 0
    ensures left + Erased(s, count) ==
      left + [Erase(s[0])] + Erased(s[1..], if s[0].Visible() then count - 1 else count)
  {
    Associative(left, [Erase(s[0])], Erased(s[1..], if s[0].Visible() then count - 1 else count));
  }

  lemma PassingNext(s: seq<Elem>, count: nat)
    requires s != [] && count > 0
    ensures Passing(s, count) == Passing(s[1..], if s[0].Visible() then count - 1 else count)
  {
  }

  /** `ItemTextListPosition`: the list, divided at a position, with the visible length and
      the attributes left of it. */
  class Position {
    var left: seq<Elem>
    var right: seq<Elem>
    var index: nat
    var currentAttributes: Attrs

    ghost predicate Valid()
      reads this
    {
      currentAttributes == After(left, map[]) && index == |Read(left, map[])|
    }

    /** The start of a list. */
    constructor (list: seq<Elem>)
      ensures Valid() && left == [] && right == list
    {
      left, right, index, currentAttributes := [], list, 0, map[];
    }

    method Forward()
      requires Valid() && right != []
      modifies this
      ensures Valid() && left == old(left) + [old(right)[0]] && right == old(right)[1..]
      ensures currentAttributes == Step(old(right)[0], old(currentAttributes))
      ensures Read(left, map[]) == Read(old(left), map[]) + Glyphs(old(right)[0], old(currentAttributes))
    {
      ReadSnoc(left, right[0], map[]);
      if right[0].Format? {
        if !right[0].deleted {
          currentAttributes := Set(currentAttributes, right[0].key, right[0].value);
        }
      } else if !right[0].deleted {
        index := index + 1;
      }
      left, right := left + [right[0]], right[1..];
    }

    /** Inserts an element and moves past it. */
    method Insert(e: Elem)
      requires Valid() && e.Format?
      modifies this
      ensures Valid() && right == old(right) && index == old(index) && left == old(left) + [e]
      ensures currentAttributes == Step(e, old(currentAttributes)) && Read(left, map[]) == Read(old(left), map[])
    {
      right := [e] + right;
      Forward();
    }

    /** Inserts a run of characters and moves past it. */
    method InsertRun(text: string)
      requires Valid()
      modifies this
      ensures Valid() && right == old(right) && index == old(index) + |text|
      ensures currentAttributes == old(currentAttributes) && left == old(left) + Elems(text)
      ensures Read(left, map[]) == Read(old(left), map[]) + Typed(text, old(currentAttributes))
    {
      ReadConcat(left, Elems(text), map[]);
      ReadElems(text, currentAttributes);
      left, index := left + Elems(text), index + |text|;
    }

    /** Deletes the element to the right and moves past it. */
    method DeleteRight()
      requires Valid() && right != []
      modifies this
      ensures Valid() && right == old(right)[1..] && index == old(index) && currentAttributes == old(currentAttributes)
      ensures left == old(left) + [old(right)[0].(deleted := true)] && Read(left, map[]) == Read(old(left), map[])
    {
      right := right[0 := right[0].(deleted := true)];
      Forward();
    }

    /** Moves past deleted elements and markers that change nothing that is requested. */
    method MinimizeAttributeChanges(attributes: Changes)
      requires Valid()
      modifies this
      ensures Valid() && index == old(index) && Read(left, map[]) == Read(old(left), map[])
      ensures Read(right, currentAttributes) == Read(old(right), old(currentAttributes))
      ensures After(right, currentAttributes) == After(old(right), old(currentAttributes))
      ensures forall k :: k !in attributes && k in currentAttributes ==> k in old(currentAttributes)
      ensures var n := Skippable(old(right), attributes);
        left == old(left) + old(right)[..n] && right == old(right)[n..]
    {
      ghost var s, i := right, 0;
      assert s[..0] == [] && s[0..] == s;
      while right != [] && (right[0].deleted ||
        (right[0].Format? && Wanted(attributes, right[0].key) == right[0].value))
        invariant Valid() && index == old(index) && Read(left, map[]) == Read(old(left), map[])
        invariant Read(right, currentAttributes) == Read(old(right), old(currentAttributes))
        invariant After(right, currentAttributes) == After(old(right), old(currentAttributes))
        invariant forall k :: k !in attributes && k in currentAttributes ==> k in old(currentAttributes)
        invariant i <= |s| && left == old(left) + s[..i] && right == s[i..]
        invariant Skippable(s, attributes) == i + Skippable(right, attributes)
        decreases |right|
      {
        SkipNext(s, i, attributes);
        MovedOn(old(left), s, i);
        Forward();
        i := i + 1;
      }
    }

    /** Inserts a marker for each requested attribute that is not in force; returns what
        the markers override. */
    method InsertAttributes(attributes: Changes) returns (negated: Changes)
      requires Valid()
      modifies this
      ensures Valid() && right == old(right) && index == old(index) && Read(left, map[]) == Read(old(left), map[])
      ensures Negated(old(currentAttributes), currentAttributes, negated) && Requested(currentAttributes, attributes)
      ensures var lacking := Lacking(attributes, old(currentAttributes));
        && |old(left)| <= |left| && left[..|old(left)|] == old(left) && MarksFor(left[|old(left)|..], lacking)
        && negated == Negating(attributes, old(currentAttributes))
    {
      hide Inserting, MarksFor;
      ghost var a, l0 := currentAttributes, left;
      negated := map[];
      var todo := attributes.Keys;
      InsertingStart(a, attributes);
      assert left[|l0|..] == [];
      while todo != {}
        invariant Valid() && right == old(right) && index == old(index) && Read(left, map[]) == Read(old(left), map[])
        invariant |l0| <= |left| && left[..|l0|] == l0 && todo <= attributes.Keys
        invariant Inserting(a, currentAttributes, attributes, todo, negated, left[|l0|..])
      {
        var key :| key in todo;
        var currentVal := Get(currentAttributes, key);
        if currentVal == attributes[key] {
          InsertingSkip(a, currentAttributes, attributes, todo, negated, left[|l0|..], key);
        } else {
          InsertingMark(a, currentAttributes, attributes, todo, negated, left[|l0|..], key);
          negated := negated[key := currentVal];
          ghost var l := left;
          Insert(Format(key, attributes[key], false));
          assert left[|l0|..] == l[|l0|..] + [Format(key, attributes[key], false)];
        }
        todo := todo - {key};
      }
      InsertingEnd(a, currentAttributes, attributes, negated, left[|l0|..]);
    }

    /** Restores the attributes `a` that were in force here before the change, with a marker
        for each that nothing else restores. */
    method InsertNegatedAttributes(negated0: Changes, ghost a: Attrs)
      requires Valid() && Negated(a, currentAttributes, negated0)
      modifies this
      ensures Valid() && index == old(index) && Read(left, map[]) == Read(old(left), map[])
      ensures Read(right, currentAttributes) == Read(old(right), a)
      ensures After(right, currentAttributes) == After(old(right), a)
      ensures var n := Restoring(old(right), negated0); var l := old(left) + old(right)[..n];
        && right == old(right)[n..] && |l| <= |left| && left[..|l|] == l
        && MarksFor(left[|l|..], Unrestored(old(right), negated0))
    {
      hide MarksFor;
      var negated;
      ghost var b;
      negated, b := PassRestoring(negated0, a);
      ghost var s, c := right, currentAttributes;
      InsertRest(negated, b);
    }

    /** Moves past what restores an old value itself. */
    method PassRestoring(negated0: Changes, ghost a: Attrs) returns (negated: Changes, ghost b: Attrs)
      requires Valid() && Negated(a, currentAttributes, negated0)
      modifies this
      ensures Valid() && index == old(index) && Read(left, map[]) == Read(old(left), map[])
      ensures Negated(b, currentAttributes, negated)
      ensures Read(right, b) == Read(old(right), a) && After(right, b) == After(old(right), a)
      ensures var n := Restoring(old(right), negated0);
        left == old(left) + old(right)[..n] && right == old(right)[n..] && negated == Unrestored(old(right), negated0)
    {
      hide Negated;
      ghost var s, i := right, 0;
      assert s[..0] == [] && s[0..] == s;
      negated, b := negated0, a;
      while right != [] && (right[0].deleted ||
                            (right[0].Format? && right[0].key in negated && negated[right[0].key] == right[0].value))
        invariant Valid() && index == old(index) && Read(left, map[]) == Read(old(left), map[])
        invariant Negated(b, currentAttributes, negated)
        invariant Read(right, b) == Read(old(right), a) && After(right, b) == After(old(right), a)
        invariant i <= |s| && left == old(left) + s[..i] && right == s[i..]
        invariant Restoring(s, negated0) == i + Restoring(right, negated)
        invariant Unrestored(s, negated0) == Unrestored(right, negated)
        decreases |right|
      {
        MovedOn(old(left), s, i);
        if !right[0].deleted {
          NegatedStep(b, currentAttributes, negated, right[0].key, right[0].value);
          negated := Without(negated, right[0].key);
        }
        b := Step(right[0], b);
        Forward();
        i := i + 1;
      }
    }

    /** Inserts a marker for each old value. */
    method InsertRest(negated0: Changes, ghost b: Attrs)
      requires Valid() && Negated(b, currentAttributes, negated0)
      modifies this
      ensures Valid() && index == old(index) && Read(left, map[]) == Read(old(left), map[]) && right == old(right)
      ensures currentAttributes == b
      ensures |old(left)| <= |left| && left[..|old(left)|] == old(left) && MarksFor(left[|old(left)|..], negated0)
    {
      hide Negated, MarksFor, Resting;
      var negated := negated0;
      ghost var l0 := left;
      RestingStart(negated);
      assert left[|l0|..] == [];
      while negated != map[]
        invariant Valid() && index == old(index) && Read(left, map[]) == Read(old(left), map[]) && right == old(right)
        invariant |l0| <= |left| && left[..|l0|] == l0
        invariant Negated(b, currentAttributes, negated) && Resting(negated0, negated, left[|l0|..])
        decreases |negated.Keys|
      {
        var key :| key in negated;
        NegatedInserted(b, currentAttributes, negated, key);
        RestingMark(negated0, negated, left[|l0|..], key);
        WithoutKeys(negated, key);
        ghost var l := left;
        Insert(Format(key, negated[key], false));
        assert left[|l0|..] == l[|l0|..] + [Format(key, negated[key], false)];
        negated := Without(negated, key);
      }
      RestingEnd(negated0, left[|l0|..]);
      NoneNegated(b, currentAttributes);
    }

    /** Moves past a marker; deletes it if its attribute is requested. */
    method FormatMarker(attributes: Changes, negated0: Changes, ghost g: seq<Glyph>, ghost l0: seq<Glyph>,
                        ghost last: Attrs, ghost n: nat, ghost b0: Attrs)
      returns (negated: Changes, ghost b: Attrs)
      requires Valid()
      requires Formatted(g, l0, last, attributes, n, Read(left, map[]), right, b0, currentAttributes, negated0)
      requires right != [] && right[0].Marker()
      modifies this
      ensures Valid() && index == old(index) && right == old(right)[1..]
      ensures Formatted(g, l0, last, attributes, n, Read(left, map[]), right, b, currentAttributes, negated)
      ensures left == old(left) + [if old(right)[0].key in attributes then Unmarked(old(right)[0]) else old(right)[0]]
      ensures negated == NegatedBy(old(right)[0], attributes, negated0)
    {
      var key, value := right[0].key, right[0].value;
      b := Step(right[0], b0);
      negated := negated0;
      if key in attributes {
        NegatedDeleted(b0, currentAttributes, negated, key, value);
        negated := if attributes[key] == value then Without(negated, key) else negated[key := value];
        DeleteRight();
      } else {
        NegatedStep(b0, currentAttributes, negated, key, value);
        Forward();
      }
    }

    /** Moves past a character, or past something deleted. */
    method FormatOther(attributes: Changes, ghost negated: Changes, ghost g: seq<Glyph>, ghost l0: seq<Glyph>,
                       ghost last: Attrs, ghost length: nat, rest0: nat, ghost b: Attrs)
      returns (rest: nat)
      requires Valid() && rest0 <= length && right != [] && !right[0].Marker() && (rest0 > 0 || right[0].deleted)
      requires Formatted(g, l0, last, attributes, length - rest0, Read(left, map[]), right, b, currentAttributes,
        negated)
      modifies this
      ensures Valid() && rest <= rest0 && index == old(index) + (rest0 - rest) && right == old(right)[1..]
      ensures left == old(left) + [old(right)[0]] && rest == if old(right)[0].Visible() then rest0 - 1 else rest0
      ensures Formatted(g, l0, last, attributes, length - rest, Read(left, map[]), right, b, currentAttributes, negated)
    {
      rest := rest0;
      if !right[0].deleted {
        PassCharacter(g, l0, last, attributes, length - rest, Read(left, map[]), right, b, currentAttributes, negated);
        rest := rest - 1;
      }
      Forward();
    }

    method FormatNext(attributes: Changes, negated0: Changes, ghost g: seq<Glyph>, ghost l0: seq<Glyph>,
                      ghost last: Attrs, ghost length: nat, rest0: nat, ghost b0: Attrs)
      returns (rest: nat, negated: Changes, ghost b: Attrs)
      requires Valid() && rest0 <= length && right != [] && (rest0 > 0 || right[0].deleted || right[0].Format?)
      requires Formatted(g, l0, last, attributes, length - rest0, Read(left, map[]), right, b0, currentAttributes,
        negated0)
      modifies this
      ensures Valid() && rest <= rest0 && index == old(index) + (rest0 - rest) && right == old(right)[1..]
      ensures var e := old(right)[0];
        && left == old(left) + [if e.Format? && e.key in attributes then Unmarked(e) else e]
        && rest == (if e.Visible() && rest0 > 0 then rest0 - 1 else rest0)
        && negated == NegatedBy(e, attributes, negated0)
      ensures Formatted(g, l0, last, attributes, length - rest, Read(left, map[]), right, b, currentAttributes, negated)
    {
      rest, negated, b := rest0, negated0, b0;
      if right[0].Marker() {
        negated, b := FormatMarker(attributes, negated, g, l0, last, length - rest, b);
      } else {
        rest := FormatOther(attributes, negated, g, l0, last, length, rest, b);
      }
    }

    /** Deletes the markers of requested attributes among the next `length` characters, and
        after them while something is negated. */
    method FormatRange(length: nat, attributes: Changes, negated0: Changes, ghost g: seq<Glyph>, ghost l0: seq<Glyph>,
                       ghost last: Attrs, ghost b0: Attrs)
      returns (rest: nat, negated: Changes, ghost b: Attrs)
      requires Valid()
      requires Formatted(g, l0, last, attributes, 0, Read(left, map[]), right, b0, currentAttributes, negated0)
      modifies this
      ensures Valid() && rest <= length && index == old(index) + (length - rest) && (rest > 0 ==> right == [])
      ensures var n := RangeLength(old(right), length, attributes, negated0); var s := old(right)[..n];
        && left == old(left) + Unformatted(s, attributes) && right == old(right)[n..]
        && negated == NegatedOver(s, attributes, negated0)
      ensures Formatted(g, l0, last, attributes, length - rest, Read(left, map[]), right, b, currentAttributes, negated)
    {
      hide Formatted, Read, After, NegatedBy, NegatedOver, RangeLength, Unformatted;
      rest, negated, b := length, negated0, b0;
      ghost var s, i := right, 0;
      NoRange(s, attributes);
      while right != [] && (rest > 0 || (negated != map[] && (right[0].deleted || right[0].Format?)))
        invariant Valid() && rest <= length && index == old(index) + (length - rest)
        invariant Formatted(g, l0, last, attributes, length - rest, Read(left, map[]), right, b, currentAttributes,
          negated)
        invariant i <= |s| && left == old(left) + Unformatted(s[..i], attributes) && right == s[i..]
        invariant negated == NegatedOver(s[..i], attributes, negated0)
        invariant RangeLength(s, length, attributes, negated0) == i + RangeLength(right, rest, attributes, negated)
        decreases |right|
      {
        RangeNext(old(left), s, i, attributes, negated0, rest);
        if rest == 0 && right[0].Marker() && right[0].key in attributes && attributes[right[0].key] != right[0].value {
          break;
        }
        rest, negated, b := FormatNext(attributes, negated, g, l0, last, length, rest, b);
        i := i + 1;
      }
      RangeEnds(right, rest, attributes, negated);
    }

    /** Overrides the requested attributes of the next `length` characters.  No other
        character changes; past the end of the text, newlines are added. */
    method FormatText(length: nat, attributes: Changes)
      requires Valid()
      modifies this
      ensures Valid() && index == old(index) + length
      ensures var g := Read(old(right), old(currentAttributes)); var n := Min(length, |g|);
        && Read(left, map[]) == FormattedGlyphs(Read(old(left), map[]), g, length, attributes,
                                                After(old(right), old(currentAttributes)))
        && Read(right, currentAttributes) == g[n..]
      ensures After(right, currentAttributes) == After(old(right), old(currentAttributes))
      ensures exists rest ::
        Bracketed(old(left), old(right), attributes, FormatRangeOf(old(left), old(right), length, attributes),
                  Elems(Newlines(rest)), left, right)
    {
      hide *;
      ghost var l0, r0 := left, right;
      var negated, rest;
      ghost var b, ins;
      negated, rest, b, ins := FormatTo(length, attributes);
      ghost var l3, r3 := left, right;
      InsertNegatedAttributes(negated, b);
      FormatDone(l0, r0, length, attributes, rest, ins, negated, l3, r3, left, right);
    }

    /** The range of it, up to the position behind it. */
    method FormatTo(length: nat, attributes: Changes)
      returns (negated: Changes, rest: nat, ghost b: Attrs, ghost ins: seq<Elem>)
      requires Valid()
      modifies this
      ensures Valid() && index == old(index) + length && Negated(b, currentAttributes, negated)
      ensures var g := Read(old(right), old(currentAttributes)); var n := Min(length, |g|);
        && Read(left, map[]) == FormattedGlyphs(Read(old(left), map[]), g, length, attributes,
                                                After(old(right), old(currentAttributes)))
        && Read(right, b) == g[n..] && After(right, b) == After(old(right), old(currentAttributes))
      ensures FormattedTo(old(left), old(right), length, attributes, rest, ins, negated, left, right)
    {
      hide *;
      ghost var g, l0, last := Read(right, currentAttributes), Read(left, map[]), After(right, currentAttributes);
      ghost var left0, r0 := left, right;
      MinimizeAttributeChanges(attributes);
      ghost var l1, s, a := left, right, currentAttributes;
      b := currentAttributes;
      negated := InsertAttributes(attributes);
      ghost var l2 := left;
      ins := left[|l1|..];
      NegatingKeys(attributes, a);
      FormattedStart(g, l0, last, attributes, Read(left, map[]), right, b, currentAttributes, negated);
      rest, negated, b := FormatRange(length, attributes, negated, g, l0, last, b);
      ghost var l3 := left;
      FormattedAll(g, l0, last, attributes, length, rest, Read(left, map[]), right, b, currentAttributes, negated);
      FormattedIs(g, l0, last, attributes, length - rest, Read(left, map[]), right, b, currentAttributes, negated);
      AddNewlines(rest);
      FormatToList(left0, r0, length, attributes, rest, l1, s, a, l2, l3, left, right, negated);
    }

    method AddNewlines(rest: nat)
      requires Valid()
      modifies this
      ensures Valid() && right == old(right) && index == old(index) + rest
      ensures currentAttributes == old(currentAttributes) && left == old(left) + Elems(Newlines(rest))
      ensures Read(left, map[]) == Read(old(left), map[]) + Typed(Newlines(rest), old(currentAttributes))
    {
      if rest > 0 {
        InsertRun(Newlines(rest));
      } else {
        assert Newlines(0) == "" && Elems(Newlines(0)) == [] && left + [] == left;
        assert Read(left, map[]) + Typed(Newlines(0), currentAttributes) == Read(left, map[]);
      }
    }

    /** Inserts text with exactly the given attributes; no other character changes, and no
        marker is inserted that is not needed. */
    method InsertText(text: string, attributes0: Changes)
      requires Valid()
      modifies this
      ensures Valid() && index == old(index) + |text|
      ensures Read(left, map[]) == Read(old(left), map[]) + Typed(text, Override(map[], attributes0))
      ensures Read(right, currentAttributes) == Read(old(right), old(currentAttributes))
      ensures After(right, currentAttributes) == After(old(right), old(currentAttributes))
      ensures var attributes := OnlyThese(attributes0, old(currentAttributes));
        Bracketed(old(left), old(right), attributes, 0, Elems(text), left, right)
    {
      hide *;
      var attributes := OnlyThese(attributes0, currentAttributes);
      ghost var r0 := right;
      MinimizeAttributeChanges(attributes);
      ghost var b, l1, r1 := currentAttributes, left, right;
      var negated := InsertAttributes(attributes);
      ghost var l := left;
      NegatingKeys(attributes, b);
      RequestedOverrides(b, currentAttributes, negated, attributes);
      OnlyTheseIs(attributes0, old(currentAttributes));
      ExactlyRequested(b, attributes0, attributes);
      InsertRun(text);
      InsertNegatedAttributes(negated, b);
      BracketedText(old(left), r0, attributes, Elems(text), l1, r1, b, l, left, right);
    }

    /** Moves past `count` characters, or to the end. */
    method FindNextPosition(count0: nat)
      requires Valid()
      modifies this
      ensures Valid() && left + right == old(left + right) && right == Passing(old(right), count0)
      ensures var g := Read(old(right), old(currentAttributes)); var n := Min(count0, |g|);
        && Read(left, map[]) == Read(old(left), map[]) + g[..n] && Read(right, currentAttributes) == g[n..]
        && (count0 <= |g| ==> currentAttributes == if n == 0 then old(currentAttributes) else g[n - 1].attrs)
        && (count0 > |g| ==> right == [])
      ensures After(right, currentAttributes) == After(old(right), old(currentAttributes))
    {
      hide Passed, Read, After, Passing;
      ghost var g, l0, last := Read(right, currentAttributes), Read(left, map[]), After(right, currentAttributes);
      ghost var n: nat := 0;
      PassedStart(l0, right, currentAttributes);
      ghost var all, target := left + right, Passing(right, count0);
      var count := count0;
      while right != [] && count > 0
        invariant Valid() && left + right == all && n + count == count0 && n <= |g|
        invariant Passed(g, l0, last, n, Read(left, map[]), right, currentAttributes)
        invariant count == 0 && n > 0 ==> currentAttributes == g[n - 1].attrs
        invariant count0 == 0 ==> currentAttributes == old(currentAttributes)
        invariant Passing(right, count) == target
        decreases |right|
      {
        count, n := PassOne(count, g, l0, last, n);
        PassedEnd(g, l0, last, n, Read(left, map[]), right, currentAttributes);
      }
      PassedEnd(g, l0, last, n, Read(left, map[]), right, currentAttributes);
      NothingLeft(right, count, currentAttributes);
    }

    /** One step of `findNextPosition`. */
    method PassOne(count0: nat, ghost g: seq<Glyph>, ghost l0: seq<Glyph>, ghost last: Attrs, ghost n0: nat)
      returns (count: nat, ghost n: nat)
      requires Valid() && right != [] && count0 > 0
      requires Passed(g, l0, last, n0, Read(left, map[]), right, currentAttributes)
      modifies this
      ensures Valid() && left + right == old(left + right) && |right| < |old(right)| && n + count == n0 + count0
      ensures Passed(g, l0, last, n, Read(left, map[]), right, currentAttributes)
      ensures count == 0 ==> n > 0 && currentAttributes == g[n - 1].attrs
      ensures Passing(right, count) == Passing(old(right), count0)
    {
      PassingNext(right, count0);
      assert left + right == (left + [right[0]]) + right[1..];
      PassNext(g, l0, last, n0, Read(left, map[]), right, currentAttributes);
      count, n := if right[0].Visible() then count0 - 1 else count0, if right[0].Visible() then n0 + 1 else n0;
      Forward();
    }

    /** Deletes the next `length` characters; no other character changes.  Of the markers those
        that became superfluous are deleted, and no others. */
    method DeleteText(length0: nat)
      requires Valid()
      modifies this
      ensures Valid() && index == old(index) && Read(left, map[]) == Read(old(left), map[])
      ensures var g := Read(old(right), old(currentAttributes));
        Read(right, currentAttributes) == g[Min(length0, |g|)..]
      ensures After(right, currentAttributes) == After(old(right), old(currentAttributes))
      ensures var l, start := old(left) + Erased(old(right), length0), |old(left)|;
        CleansedTo(l, left + right, start, GapEnd(l, start), GapEnd(l, start), old(currentAttributes))
    {
      hide CleansedTo, Bare;
      var start, startAttrs, atEnd := |left|, currentAttributes, right == [];
      ghost var erased := left + Erased(right, length0);
      DeleteCharacters(length0);
      if !atEnd {
        CleanupAfter(start, startAttrs);
      } else {
        CleansedStart(erased, start, start, startAttrs);
      }
    }

    /** The loop of `deleteText`. */
    method DeleteCharacters(length0: nat)
      requires Valid()
      modifies this
      ensures Valid() && index == old(index) && Read(left, map[]) == Read(old(left), map[])
      ensures var g := Read(old(right), old(currentAttributes));
        Read(right, currentAttributes) == g[Min(length0, |g|)..]
      ensures After(right, currentAttributes) == After(old(right), old(currentAttributes))
      ensures |old(left)| <= |left| && left[..|old(left)|] == old(left) && Bare(left, |old(left)|, |left|)
      ensures left + right == old(left) + Erased(old(right), length0)
      ensures old(right) == [] ==> left == old(left) && right == []
    {
      hide Read, After, Erased, Bare;
      var length := length0;
      ghost var g, last := Read(right, currentAttributes), After(right, currentAttributes);
      ghost var n: nat := 0;
      ghost var erased, start := left + Erased(right, length), |left|;
      BareStart(left);
      while length > 0 && right != []
        invariant Valid() && index == old(index) && n + length == length0 && n <= |g|
        invariant left + Erased(right, length) == erased && (old(right) == [] ==> left == old(left) && right == [])
        invariant start <= |left| && left[..start] == old(left) && Bare(left, start, |left|)
        invariant Read(left, map[]) == Read(old(left), map[])
        invariant Read(right, currentAttributes) == g[n..] && After(right, currentAttributes) == last
        decreases |right|
      {
        BareNext(left, start, right[0]);
        length, n := DeleteNext(length, g, n);
      }
      NothingLeft(right, length, currentAttributes);
    }

    /** One step of it. */
    method DeleteNext(length0: nat, ghost g: seq<Glyph>, ghost n0: nat) returns (length: nat, ghost n: nat)
      requires Valid() && right != [] && length0 > 0 && n0 <= |g| && Read(right, currentAttributes) == g[n0..]
      modifies this
      ensures Valid() && index == old(index) && Read(left, map[]) == Read(old(left), map[])
      ensures right == old(right)[1..] && left == old(left) + [Erase(old(right)[0])]
      ensures left + Erased(right, length) == old(left) + Erased(old(right), length0)
      ensures n <= |g| && n + length == n0 + length0 && Read(right, currentAttributes) == g[n..]
      ensures After(right, currentAttributes) == After(old(right), old(currentAttributes))
    {
      ErasedNext(left, right, length0);
      length, n := length0, n0;
      if right[0].Visible() {
        NextGlyph(g, n, right, currentAttributes);
        length, n := length - 1, n + 1;
        DeleteRight();
      } else {
        Forward();
      }
    }

    /** Cleans up the gap from `start` on, which contains the position. */
    method CleanupAfter(start: nat, startAttrs: Attrs)
      requires Valid() && start <= |left| && Bare(left, start, |left|) && startAttrs == After(left[..start], map[])
      modifies this
      ensures Valid() && index == old(index) && Read(left, map[]) == Read(old(left), map[])
      ensures Read(right, currentAttributes) == Read(old(right), old(currentAttributes))
      ensures After(right, currentAttributes) == After(old(right), old(currentAttributes))
      ensures var l := old(left + right);
        |left| == |old(left)| && CleansedTo(l, left + right, start, GapEnd(l, start), GapEnd(l, start), startAttrs)
    {
      hide CleansedTo, Read, After, Changed, GapEnd;
      var l, curr := left + right, |left|;
      assert l[..curr] == left && l[curr..] == right && l[..start] == left[..start];
      GapReaches(l, start, curr);
      var t, attrs, cleanups := CleanupFormattingGap(l, start, curr, startAttrs, currentAttributes);
      CleanedLeft(l, t, start, curr);
      ReadConcat(left, right, map[]);
      ReadConcat(t[..curr], t[curr..], map[]);
      assert t == t[..curr] + t[curr..];
      Cancel(Read(left, map[]), Read(right, currentAttributes), Read(t[curr..], attrs));
      left, right, currentAttributes := t[..curr], t[curr..], attrs;
    }
  }

  /** The list when the range has been formatted. */
  ghost predicate FormattedTo(l0: seq<Elem>, r0: seq<Elem>, length: nat, attributes: Changes, rest: nat,
                              ins: seq<Elem>, negated: Changes, left: seq<Elem>, right: seq<Elem>) {
    var i := Skippable(r0, attributes);
    var s, a, n := r0[i..], After(l0 + r0[..i], map[]), FormatRangeOf(l0, r0, length, attributes);
    && MarksFor(ins, Lacking(attributes, a)) && right == s[n..]
    && left == l0 + r0[..i] + ins + Unformatted(s[..n], attributes) + Elems(Newlines(rest))
    && negated == NegatedOver(s[..n], attributes, Negating(attributes, a))
  }

  lemma FormatToList(l0: seq<Elem>, r0: seq<Elem>, length: nat, attributes: Changes, rest: nat, l1: seq<Elem>,
                     s: seq<Elem>, a: Attrs, l2: seq<Elem>, l3: seq<Elem>, left: seq<Elem>, right: seq<Elem>,
                     negated: Changes)
    requires var i := Skippable(r0, attributes); l1 == l0 + r0[..i] && s == r0[i..] && a == After(l1, map[])
    requires |l1| <= |l2| && l2[..|l1|] == l1 && MarksFor(l2[|l1|..], Lacking(attributes, a))
    requires var n := RangeLength(s, length, attributes, Negating(attributes, a));
      && l3 == l2 + Unformatted(s[..n], attributes) && right == s[n..]
      && negated == NegatedOver(s[..n], attributes, Negating(attributes, a))
    requires left == l3 + Elems(Newlines(rest))
    ensures FormattedTo(l0, r0, length, attributes, rest, l2[|l1|..], negated, left, right)
  {
    hide MarksFor;
    assert l2 == l1 + l2[|l1|..];
  }

  lemma NegatingKeys(attributes: Changes, a: Attrs)
    ensures Negating(attributes, a).Keys <= attributes.Keys
  {
  }

  lemma FormatDone(l0: seq<Elem>, r0: seq<Elem>, length: nat, attributes: Changes, rest: nat, ins: seq<Elem>,
                   negated: Changes, l3: seq<Elem>, r3: seq<Elem>, left: seq<Elem>, right: seq<Elem>)
    requires FormattedTo(l0, r0, length, attributes, rest, ins, negated, l3, r3)
    requires var m := Restoring(r3, negated); var l := l3 + r3[..m];
      && right == r3[m..] && |l| <= |left| && left[..|l|] == l && MarksFor(left[|l|..], Unrestored(r3, negated))
    ensures Bracketed(l0, r0, attributes, FormatRangeOf(l0, r0, length, attributes), Elems(Newlines(rest)), left, right)
  {
    hide MarksFor;
    var i := Skippable(r0, attributes);
    BracketedAll(l0, r0, attributes, FormatRangeOf(l0, r0, length, attributes), Elems(Newlines(rest)), l0 + r0[..i],
      r0[i..], After(l0 + r0[..i], map[]), ins, l3, left, right);
  }

  /** The characters left of the position after `formatText`. */
  function FormattedGlyphs(l: seq<Glyph>, g: seq<Glyph>, length: nat, attributes: Changes, last: Attrs): seq<Glyph> {
    var n := Min(length, |g|);
    l + Overridden(g[..n], attributes) + Typed(Newlines(length - n), Override(last, attributes))
  }

  lemma RangeEnds(s: seq<Elem>, length: nat, attributes: Changes, negated: Changes)
    requires s == [] || !InRange(s[0], length, attributes, negated)
    ensures RangeLength(s, length, attributes, negated) == 0
  {
  }

  lemma NoRange(s: seq<Elem>, attributes: Changes)
    ensures s[0..] == s && Unformatted(s[..0], attributes) == []
    ensures forall negated :: NegatedOver(s[..0], attributes, negated) == negated
  {
  }

  lemma BracketedAll(l0: seq<Elem>, r0: seq<Elem>, attributes: Changes, n: nat, text: seq<Elem>, l1: seq<Elem>,
                     s: seq<Elem>, b: Attrs, ins: seq<Elem>, l2: seq<Elem>, left: seq<Elem>, right: seq<Elem>)
    requires var i := Skippable(r0, attributes); l1 == l0 + r0[..i] && s == r0[i..] && b == After(l1, map[])
    requires n <= |s| && MarksFor(ins, Lacking(attributes, b))
    requires l2 == l1 + ins + Unformatted(s[..n], attributes) + text
    requires var negated := NegatedOver(s[..n], attributes, Negating(attributes, b));
      var m := Restoring(s[n..], negated); var l := l2 + s[n..][..m];
      && right == s[n..][m..] && |l| <= |left| && left[..|l|] == l
      && MarksFor(left[|l|..], Unrestored(s[n..], negated))
    ensures Bracketed(l0, r0, attributes, n, text, left, right)
  {
    hide MarksFor;
    var m := Restoring(s[n..], NegatedOver(s[..n], attributes, Negating(attributes, b)));
    var rest := left[|l2 + s[n..][..m]|..];
    assert left == l2 + s[n..][..m] + rest;
    assert BracketedBy(l1, s, attributes, n, text, ins, rest, left, right);
  }

  lemma NextGlyph(g: seq<Glyph>, n: nat, right: seq<Elem>, a: Attrs)
    requires n <= |g| && right != [] && Read(right, a) == g[n..] && right[0].Visible()
    ensures n < |g| && g[n] == Glyph(right[0].ch, a) && Read(right[1..], a) == g[n + 1..]
    ensures g[..n + 1] == g[..n] + Glyphs(right[0], a)
  {
    assert g[n] == g[n..][0] && g[n + 1..] == g[n..][1..];
  }

  /** `n` characters of `g` were passed. */
  ghost predicate Passed(g: seq<Glyph>, l0: seq<Glyph>, last: Attrs, n: nat, l: seq<Glyph>, right: seq<Elem>,
                         a: Attrs) {
    n <= |g| && l == l0 + g[..n] && Read(right, a) == g[n..] && After(right, a) == last
  }

  lemma PassedStart(l: seq<Glyph>, right: seq<Elem>, a: Attrs)
    ensures Passed(Read(right, a), l, After(right, a), 0, l, right, a)
  {
    assert l + Read(right, a)[..0] == l;
  }

  lemma PassedEnd(g: seq<Glyph>, l0: seq<Glyph>, last: Attrs, n: nat, l: seq<Glyph>, right: seq<Elem>, a: Attrs)
    requires Passed(g, l0, last, n, l, right, a)
    ensures n <= |g| && l == l0 + g[..n] && Read(right, a) == g[n..] && After(right, a) == last
    ensures right == [] ==> n == |g|
  {
  }

  lemma PassNext(g: seq<Glyph>, l0: seq<Glyph>, last: Attrs, n: nat, l: seq<Glyph>, right: seq<Elem>, a: Attrs)
    requires Passed(g, l0, last, n, l, right, a) && right != []
    ensures Passed(g, l0, last, if right[0].Visible() then n + 1 else n, l + Glyphs(right[0], a), right[1..],
      Step(right[0], a))
    ensures right[0].Visible() ==> g[n].attrs == a
  {
    if right[0].Visible() {
      NextGlyph(g, n, right, a);
    }
  }

  lemma Cancel(a: seq<Glyph>, x: seq<Glyph>, y: seq<Glyph>)
    requires a + x == a + y
    ensures x == y
  {
    assert x == (a + x)[|a|..] && y == (a + y)[|a|..];
  }

  lemma {:induction false} GapReaches(l: seq<Elem>, i: nat, j: nat)
    requires i <= j && Bare(l, i, j)
    ensures j <= GapEnd(l, i)
    decreases j - i
  {
    if i < j {
      assert !l[i].Visible();
      GapReaches(l, i + 1, j);
    }
  }

  lemma {:induction false} BareReads(s: seq<Elem>, a: Attrs)
    requires Bare(s, 0, |s|)
    ensures Read(s, a) == []
  {
    if s != [] {
      assert !s[0].Visible();
      forall n | 0 <= n < |s[1..]| ensures !s[1..][n].Visible() {
        assert !s[n + 1].Visible();
      }
      BareReads(s[1..], Step(s[0], a));
    }
  }

  /** Cleaning up a gap does not move characters over a position in it. */
  lemma CleanedLeft(l: seq<Elem>, t: seq<Elem>, start: nat, curr: nat)
    requires start <= curr <= |l| && Cleaned(l, t) && t[..start] == l[..start] && Bare(l, start, curr)
    ensures Read(t[..curr], map[]) == Read(l[..curr], map[])
  {
    assert t[..curr] == t[..start] + t[start..curr] && l[..curr] == l[..start] + l[start..curr];
    ReadConcat(t[..start], t[start..curr], map[]);
    ReadConcat(l[..start], l[start..curr], map[]);
    forall n | 0 <= n < curr - start ensures !t[start..curr][n].Visible() && !l[start..curr][n].Visible() {
      assert CleanedAt(l, t, start + n) && !l[start + n].Visible();
    }
    BareReads(t[start..curr], After(t[..start], map[]));
    BareReads(l[start..curr], After(l[..start], map[]));
  }

  function Newlines(n: nat): (s: string)
    ensures |s| == n
  {
    seq(n, _ => '\n')
  }

  /** `n` characters of `g` were passed and overridden. */
  ghost predicate Formatted(g: seq<Glyph>, l0: seq<Glyph>, last: Attrs, attributes: Changes, n: nat, l: seq<Glyph>,
                            right: seq<Elem>, a: Attrs, c: Attrs, negated: Changes) {
    && n <= |g| && l == l0 + Overridden(g[..n], attributes) && Read(right, a) == g[n..] && After(right, a) == last
    && Negated(a, c, negated) && Requested(c, attributes) && negated.Keys <= attributes.Keys
  }

  lemma FormattedStart(g: seq<Glyph>, l: seq<Glyph>, last: Attrs, attributes: Changes, l1: seq<Glyph>,
                       right: seq<Elem>, a: Attrs, c: Attrs, negated: Changes)
    requires l1 == l && Read(right, a) == g && After(right, a) == last
    requires Negated(a, c, negated) && Requested(c, attributes) && negated.Keys <= attributes.Keys
    ensures Formatted(g, l, last, attributes, 0, l1, right, a, c, negated)
  {
    assert l + Overridden(g[..0], attributes) == l && g[0..] == g;
  }

  lemma FormattedIs(g: seq<Glyph>, l0: seq<Glyph>, last: Attrs, attributes: Changes, n: nat, l: seq<Glyph>,
                    right: seq<Elem>, a: Attrs, c: Attrs, negated: Changes)
    requires Formatted(g, l0, last, attributes, n, l, right, a, c, negated)
    ensures Negated(a, c, negated) && After(right, a) == last && negated.Keys <= attributes.Keys
  {
  }

  lemma PassCharacter(g: seq<Glyph>, l0: seq<Glyph>, last: Attrs, attributes: Changes, n: nat, l: seq<Glyph>,
                      right: seq<Elem>, a: Attrs, c: Attrs, negated: Changes)
    requires Formatted(g, l0, last, attributes, n, l, right, a, c, negated) && right != [] && right[0].Visible()
    ensures Formatted(g, l0, last, attributes, n + 1, l + Glyphs(right[0], c), right[1..], a, c, negated)
  {
    RequestedOverrides(a, c, negated, attributes);
    assert g[n] == g[n..][0] == Glyph(right[0].ch, a);
    assert g[n + 1..] == g[n..][1..];
    assert Overridden(g[..n + 1], attributes) == Overridden(g[..n], attributes) + [Glyph(right[0].ch, c)];
  }

  lemma FormattedAll(g: seq<Glyph>, l0: seq<Glyph>, last: Attrs, attributes: Changes, length: nat, rest: nat,
                     l: seq<Glyph>, right: seq<Elem>, a: Attrs, c: Attrs, negated: Changes)
    requires rest <= length && (rest > 0 ==> right == [])
    requires Formatted(g, l0, last, attributes, length - rest, l, right, a, c, negated)
    ensures l + Typed(Newlines(rest), c) == FormattedGlyphs(l0, g, length, attributes, last)
    ensures Read(right, a) == g[Min(length, |g|)..]
  {
    RequestedOverrides(a, c, negated, attributes);
    var n := Min(length, |g|);
    if rest > 0 {
      assert g[length - rest..] == [];
      assert n == |g| == length - rest && a == last;
    } else {
      assert n == length;
      assert Typed(Newlines(0), c) == [] && Typed(Newlines(0), Override(last, attributes)) == [];
    }
  }

  /** With all other attributes removed, what is in force is what is requested. */
  lemma ExactlyRequested(b: Attrs, requested: Changes, attributes: Changes)
    requires requested.Keys <= attributes.Keys && (forall k <- requested :: attributes[k] == requested[k])
    requires forall k <- attributes :: k !in requested ==> attributes[k] == None
    requires forall k <- b :: k in attributes
    ensures Override(b, attributes) == Override(map[], requested)
  {
    SameAttrs(Override(b, attributes), Override(map[], requested));
  }

  // ----- Deleting markers that change nothing -----

  predicate MarkerAt(l: seq<Elem>, i: nat, k: Key) {
    i < |l| && l[i].Marker() && l[i].key == k
  }

  /** No visible character at positions from `i` up to `j`. */
  predicate Bare(l: seq<Elem>, i: nat, j: nat) {
    j <= |l| && forall n :: i <= n < j ==> !l[n].Visible()
  }

  /** The list without the marker at `i`. */
  function Without1(l: seq<Elem>, i: nat): seq<Elem>
    requires i < |l|
  {
    l[i := l[i].(deleted := true)]
  }

  ghost predicate SameMeaning(l: seq<Elem>, t: seq<Elem>) {
    Read(t, map[]) == Read(l, map[]) && After(t, map[]) == After(l, map[])
  }

  /** Two attribute maps that differ in one key only agree after a marker of that key. */
  lemma {:induction false} Overwritten(s: seq<Elem>, a: Attrs, b: Attrs, k: Key, j: nat)
    requires MarkerAt(s, j, k) && Bare(s, 0, j) && forall i :: i != k ==> Get(a, i) == Get(b, i)
    ensures After(s, a) == After(s, b) && Read(s, a) == Read(s, b)
    decreases |s|
  {
    var a', b' := Step(s[0], a), Step(s[0], b);
    if j == 0 {
      SameAttrs(a', b');
    } else {
      assert !s[0].Visible();
      forall n | 0 <= n < j - 1 ensures !s[1..][n].Visible() {
        assert !s[n + 1].Visible();
      }
      Overwritten(s[1..], a', b', k, j - 1);
    }
  }

  lemma Parted(l: seq<Elem>, i: nat)
    requires i < |l|
    ensures var a := After(l[..i], map[]);
      && After(l, map[]) == After(l[i + 1..], Step(l[i], a))
      && Read(l, map[]) == Read(l[..i], map[]) + (Glyphs(l[i], a) + Read(l[i + 1..], Step(l[i], a)))
  {
    assert l == l[..i] + l[i..];
    ReadConcat(l[..i], l[i..], map[]);
    assert l[i..][1..] == l[i + 1..];
  }

  /** A marker is not needed when another one of its key follows in the same gap. */
  lemma DeleteOverwritten(l: seq<Elem>, i: nat, j: nat, k: Key)
    requires i < j && MarkerAt(l, i, k) && MarkerAt(l, j, k) && Bare(l, i, j)
    ensures SameMeaning(l, Without1(l, i))
  {
    var t, a := Without1(l, i), After(l[..i], map[]);
    Parted(l, i);
    Parted(t, i);
    assert t[..i] == l[..i] && t[i + 1..] == l[i + 1..];
    var z := l[i + 1..];
    forall n | 0 <= n < j - i - 1 ensures !z[n].Visible() {
      assert !l[i + 1 + n].Visible();
    }
    Overwritten(z, a, Set(a, k, l[i].value), k, j - i - 1);
  }

  /** A marker is not needed when the attribute has its value already. */
  lemma DeleteRedundant(l: seq<Elem>, i: nat, k: Key)
    requires MarkerAt(l, i, k) && Get(After(l[..i], map[]), k) == l[i].value
    ensures SameMeaning(l, Without1(l, i))
  {
    var t, a := Without1(l, i), After(l[..i], map[]);
    Parted(l, i);
    Parted(t, i);
    assert t[..i] == l[..i] && t[i + 1..] == l[i + 1..];
    SameAttrs(a, Set(a, k, l[i].value));
  }

  /** Only markers were deleted. */
  ghost predicate Cleaned(l: seq<Elem>, t: seq<Elem>) {
    |t| == |l| && forall i :: 0 <= i < |l| ==> CleanedAt(l, t, i)
  }

  ghost predicate CleanedAt(l: seq<Elem>, t: seq<Elem>, i: nat)
    requires i < |l| == |t|
  {
    t[i] == l[i] || (l[i].Marker() && t[i] == l[i].(deleted := true))
  }

  /** Where the gap that begins at `i` ends. */
  function GapEnd(l: seq<Elem>, i: nat): (e: nat)
    requires i <= |l|
    ensures i <= e <= |l| && Bare(l, i, e) && (e < |l| ==> l[e].Visible())
    decreases |l| - i
  {
    if i == |l| || l[i].Visible() then i else GapEnd(l, i + 1)
  }

  /** The last marker of each key in a gap. */
  ghost predicate LastMarkers(l: seq<Elem>, start: nat, end: nat, endFormats: map<Key, nat>) {
    && end <= |l|
    && (forall k <- endFormats :: start <= endFormats[k] < end && MarkerAt(l, endFormats[k], k))
    && (forall i :: start <= i < end && l[i].Marker() ==> l[i].key in endFormats && i <= endFormats[l[i].key])
  }

  method FindGap(l: seq<Elem>, start: nat) returns (end: nat, endFormats: map<Key, nat>)
    requires start <= |l|
    ensures end == GapEnd(l, start) && LastMarkers(l, start, end, endFormats)
  {
    end, endFormats := start, map[];
    while end < |l| && (!l[end].Text? || l[end].deleted)
      invariant start <= end <= |l| && GapEnd(l, end) == GapEnd(l, start)
      invariant LastMarkers(l, start, end, endFormats)
    {
      if l[end].Marker() {
        endFormats := endFormats[l[end].key := end];
      }
      end := end + 1;
    }
  }

  /** A marker of a gap that another one of its key follows there, or that sets what was in
      force where the gap begins. */
  ghost predicate Superfluous(l: seq<Elem>, i: nat, end: nat, a: Attrs) {
    && i < end <= |l| && l[i].Marker()
    && ((exists j :: i < j < end && MarkerAt(l, j, l[i].key)) || Get(a, l[i].key) == l[i].value)
  }

  /** The list without the superfluous markers from `start` up to `i`. */
  ghost predicate CleansedTo(l: seq<Elem>, t: seq<Elem>, start: nat, i: nat, end: nat, a: Attrs) {
    |t| == |l| && forall n :: 0 <= n < |l| ==>
      t[n] == if start <= n < i && Superfluous(l, n, end, a) then Unmarked(l[n]) else l[n]
  }

  /** How many of the first `n` elements differ. */
  function Changed(l: seq<Elem>, t: seq<Elem>, n: nat): nat
    requires n <= |l| == |t|
  {
    if n == 0 then 0 else Changed(l, t, n - 1) + if t[n - 1] == l[n - 1] then 0 else 1
  }

  lemma {:induction false} ChangedSame(l: seq<Elem>, t: seq<Elem>, u: seq<Elem>, n: nat)
    requires n <= |l| == |t| == |u| && t[..n] == u[..n]
    ensures Changed(l, t, n) == Changed(l, u, n)
  {
    if n > 0 {
      assert t[n - 1] == t[..n][n - 1] == u[..n][n - 1] == u[n - 1];
      assert t[..n - 1] == t[..n][..n - 1] == u[..n][..n - 1] == u[..n - 1];
      ChangedSame(l, t, u, n - 1);
    }
  }

  lemma {:induction false} ChangedNone(l: seq<Elem>, t: seq<Elem>, m: nat, n: nat)
    requires m <= n <= |l| == |t| && forall i :: m <= i < n ==> t[i] == l[i]
    ensures Changed(l, t, n) == Changed(l, t, m)
  {
    if m < n {
      ChangedNone(l, t, m, n - 1);
    }
  }

  /** The test of the loop. */
  lemma LastIsNeeded(l: seq<Elem>, start: nat, i: nat, end: nat, endFormats: map<Key, nat>, a: Attrs)
    requires LastMarkers(l, start, end, endFormats) && start <= i < end
    ensures Superfluous(l, i, end, a) <==>
      l[i].Marker() && (endFormats[l[i].key] != i || Get(a, l[i].key) == l[i].value)
  {
    if l[i].Marker() {
      var k := l[i].key;
      if endFormats[k] != i {
        assert MarkerAt(l, endFormats[k], k);
      }
      assert forall j :: i < j < end && MarkerAt(l, j, k) ==> l[j].Marker() && j <= endFormats[k];
    }
  }

  /** One more element of the gap. */
  lemma CleansedNext(l: seq<Elem>, t: seq<Elem>, start: nat, i: nat, end: nat, a: Attrs)
    requires CleansedTo(l, t, start, i, end, a) && start <= i < end <= |l|
    ensures var u := if Superfluous(l, i, end, a) then Without1(t, i) else t;
      && CleansedTo(l, u, start, i + 1, end, a)
      && Changed(l, u, i + 1) == Changed(l, t, i) + if Superfluous(l, i, end, a) then 1 else 0
  {
    var u := if Superfluous(l, i, end, a) then Without1(t, i) else t;
    assert u[..i] == t[..i];
    ChangedSame(l, t, u, i);
  }

  lemma CleansedStart(l: seq<Elem>, start: nat, end: nat, a: Attrs)
    requires start <= |l|
    ensures CleansedTo(l, l, start, start, end, a) && Changed(l, l, start) == 0
  {
    ChangedNone(l, l, 0, start);
  }

  lemma CleansedEnd(l: seq<Elem>, t: seq<Elem>, start: nat, end: nat, a: Attrs)
    requires CleansedTo(l, t, start, end, end, a) && start <= end <= |l|
    ensures Changed(l, t, |l|) == Changed(l, t, end)
  {
    ChangedNone(l, t, end, |l|);
  }

  /** What is known of the attributes at `curr` while the gap is cleaned up to `i`. */
  ghost predicate CurrAt(l: seq<Elem>, i: nat, curr: nat, n: Attrs, c: Attrs, cur: Attrs, k: Key) {
    Get(cur, k) == Get(n, k) || (Get(cur, k) == Get(c, k) && exists j :: i <= j < curr && MarkerAt(l, j, k))
  }

  /** The list `t` cleaned up to `i`. */
  ghost predicate CleanTo(l: seq<Elem>, t: seq<Elem>, start: nat, i: nat, endFormats: map<Key, nat>) {
    && start <= i <= |l| && Cleaned(l, t) && t[i..] == l[i..] && t[..start] == l[..start] && SameMeaning(l, t)
    && forall k <- endFormats :: i <= endFormats[k] ==> Get(After(t[..i], map[]), k) == Get(After(l[..start], map[]), k)
  }

  lemma CleanKeep(l: seq<Elem>, t: seq<Elem>, start: nat, i: nat, end: nat, endFormats: map<Key, nat>)
    requires CleanTo(l, t, start, i, endFormats) && LastMarkers(l, start, end, endFormats) && i < end
    requires l[i].Marker() ==> endFormats[l[i].key] == i
    ensures CleanTo(l, t, start, i + 1, endFormats)
    ensures After(t[..i + 1], map[]) == Step(l[i], After(t[..i], map[]))
  {
    assert t[i] == t[i..][0] == l[i..][0] == l[i];
    assert t[..i + 1] == t[..i] + [l[i]];
    assert t[i + 1..] == t[i..][1..] == l[i + 1..];
    ReadSnoc(t[..i], l[i], map[]);
  }

  lemma SameTail(l: seq<Elem>, t: seq<Elem>, i: nat, n: nat)
    requires |l| == |t| && i <= n < |l| && t[i..] == l[i..]
    ensures t[n] == l[n]
  {
    assert t[n] == t[i..][n - i] && l[n] == l[i..][n - i];
  }

  lemma CleanDeleteMeaning(l: seq<Elem>, t: seq<Elem>, start: nat, i: nat, end: nat, endFormats: map<Key, nat>)
    requires CleanTo(l, t, start, i, endFormats) && LastMarkers(l, start, end, endFormats) && i < end
    requires Bare(l, start, end)
    requires l[i].Marker() && (endFormats[l[i].key] != i || Get(After(l[..start], map[]), l[i].key) == l[i].value)
    ensures t[i] == l[i] && SameMeaning(t, Without1(t, i))
  {
    var k := l[i].key;
    SameTail(l, t, i, i);
    var j := endFormats[k];
    if j != i {
      SameTail(l, t, i, j);
      forall n | i <= n < j ensures !t[n].Visible() {
        SameTail(l, t, i, n);
      }
      DeleteOverwritten(t, i, j, k);
    } else {
      DeleteRedundant(t, i, k);
    }
  }

  lemma CleanedNext(l: seq<Elem>, t: seq<Elem>, i: nat)
    requires Cleaned(l, t) && i < |l| && t[i].Marker()
    ensures Cleaned(l, Without1(t, i))
  {
    forall n | 0 <= n < |l| ensures CleanedAt(l, Without1(t, i), n) {
      assert CleanedAt(l, t, n);
    }
  }

  lemma CleanDelete(l: seq<Elem>, t: seq<Elem>, start: nat, i: nat, end: nat, endFormats: map<Key, nat>)
    requires CleanTo(l, t, start, i, endFormats) && LastMarkers(l, start, end, endFormats) && i < end
    requires Bare(l, start, end)
    requires l[i].Marker() && (endFormats[l[i].key] != i || Get(After(l[..start], map[]), l[i].key) == l[i].value)
    ensures CleanTo(l, Without1(t, i), start, i + 1, endFormats)
    ensures After(Without1(t, i)[..i + 1], map[]) == After(t[..i], map[])
  {
    var u := Without1(t, i);
    CleanDeleteMeaning(l, t, start, i, end, endFormats);
    CleanedNext(l, t, i);
    assert u[..i + 1] == t[..i] + [u[i]];
    assert u[i + 1..] == t[i..][1..] == l[i + 1..];
    assert u[..start] == t[..start];
    ReadSnoc(t[..i], u[i], map[]);
  }

  /** Without a marker of its key an attribute stays the same. */
  lemma {:induction false} NoMarker(s: seq<Elem>, a: Attrs, k: Key)
    requires forall j :: 0 <= j < |s| ==> !MarkerAt(s, j, k)
    ensures Get(After(s, a), k) == Get(a, k)
  {
    if s != [] {
      assert !MarkerAt(s, 0, k);
      forall j | 0 <= j < |s[1..]| ensures !MarkerAt(s[1..], j, k) {
        assert !MarkerAt(s, j + 1, k);
      }
      NoMarker(s[1..], Step(s[0], a), k);
    }
  }

  /** The last marker before `curr` decides the attribute there. */
  lemma LastDecides(l: seq<Elem>, i: nat, curr: nat, k: Key)
    requires i < curr <= |l| && MarkerAt(l, i, k) && forall j :: i < j < curr ==> !MarkerAt(l, j, k)
    ensures Get(After(l[..curr], map[]), k) == l[i].value
  {
    var z := l[i + 1..curr];
    assert l[..curr] == l[..i + 1] + z && l[..i + 1] == l[..i] + [l[i]];
    ReadConcat(l[..i + 1], z, map[]);
    ReadSnoc(l[..i], l[i], map[]);
    forall j | 0 <= j < |z| ensures !MarkerAt(z, j, k) {
      assert !MarkerAt(l, i + 1 + j, k);
    }
    NoMarker(z, After(l[..i + 1], map[]), k);
  }

  ghost predicate CurrTo(l: seq<Elem>, i: nat, curr: nat, n: Attrs, cur: Attrs) {
    curr <= |l| && forall k :: CurrAt(l, i, curr, n, After(l[..curr], map[]), cur, k)
  }

  lemma CurrStart(l: seq<Elem>, start: nat, curr: nat, n: Attrs, cur: Attrs)
    requires start <= curr <= |l| && n == After(l[..start], map[]) && cur == After(l[..curr], map[])
    ensures CurrTo(l, start, curr, n, cur)
  {
    var z := l[start..curr];
    assert l[..curr] == l[..start] + z;
    ReadConcat(l[..start], z, map[]);
    forall k ensures CurrAt(l, start, curr, n, After(l[..curr], map[]), cur, k) {
      if forall j :: start <= j < curr ==> !MarkerAt(l, j, k) {
        forall j | 0 <= j < |z| ensures !MarkerAt(z, j, k) {
          assert !MarkerAt(l, start + j, k);
        }
        NoMarker(z, n, k);
      }
    }
  }

  /** A marker is kept. */
  lemma CurrKeep(l: seq<Elem>, i: nat, curr: nat, n: Attrs, cur: Attrs)
    requires CurrTo(l, i, curr, n, cur) && i < curr
    ensures CurrTo(l, i + 1, curr, Step(l[i], n), Step(l[i], cur))
  {
    var c, n', cur', i' := After(l[..curr], map[]), Step(l[i], n), Step(l[i], cur), i + 1;
    forall k ensures CurrAt(l, i', curr, n', c, cur', k) {
      assert CurrAt(l, i, curr, n, c, cur, k);
      if !MarkerAt(l, i, k) && Get(cur, k) != Get(n, k) {
        var j :| i <= j < curr && MarkerAt(l, j, k);
        assert i + 1 <= j;
      }
    }
  }

  /** A marker is deleted before `curr` is reached; `s` is the value at the start of the gap. */
  lemma CurrDelete(l: seq<Elem>, i: nat, curr: nat, n: Attrs, cur: Attrs, s: Option<Value>)
    requires CurrTo(l, i, curr, n, cur) && i < curr && l[i].Marker() && Get(n, l[i].key) == s
    ensures var k, v := l[i].key, l[i].value;
      CurrTo(l, i + 1, curr, n, if Get(cur, k) == v && s != v then Set(cur, k, s) else cur)
  {
    var k0, v := l[i].key, l[i].value;
    var cur' := if Get(cur, k0) == v && s != v then Set(cur, k0, s) else cur;
    var c, i' := After(l[..curr], map[]), i + 1;
    forall k ensures CurrAt(l, i', curr, n, c, cur', k) {
      assert CurrAt(l, i, curr, n, c, cur, k);
      if k != k0 {
        if Get(cur, k) != Get(n, k) {
          var j :| i <= j < curr && MarkerAt(l, j, k);
          assert i' <= j;
        }
      } else if forall j :: i' <= j < curr ==> !MarkerAt(l, j, k) {
        LastDecides(l, i, curr, k);
      }
    }
  }

  /** The state of the cleanup: `n` are the attributes after what is clean, `cur` those at
      `curr`. */
  ghost predicate Cleaning(l: seq<Elem>, t: seq<Elem>, start: nat, i: nat, curr: nat, endFormats: map<Key, nat>,
                           n: Attrs, cur: Attrs) {
    && CleanTo(l, t, start, i, endFormats) && n == After(t[..i], map[])
    && curr <= |l| && (if i <= curr then CurrTo(l, i, curr, n, cur) else cur == After(t[..curr], map[]))
  }

  lemma StepDelete(l: seq<Elem>, t: seq<Elem>, start: nat, i: nat, end: nat, curr: nat, endFormats: map<Key, nat>,
                   n: Attrs, cur: Attrs)
    requires Cleaning(l, t, start, i, curr, endFormats, n, cur)
    requires LastMarkers(l, start, end, endFormats) && i < end && Bare(l, start, end) && l[i].Marker()
    requires endFormats[l[i].key] != i || Get(After(l[..start], map[]), l[i].key) == l[i].value
    ensures var k, v, s := l[i].key, l[i].value, Get(After(l[..start], map[]), l[i].key);
      Cleaning(l, Without1(t, i), start, i + 1, curr, endFormats, n,
               if i < curr && Get(cur, k) == v && s != v then Set(cur, k, s) else cur)
  {
    CleanDelete(l, t, start, i, end, endFormats);
    if i < curr {
      CurrDelete(l, i, curr, n, cur, Get(After(l[..start], map[]), l[i].key));
    } else {
      if i == curr {
        CurrReached(l, t, i, n, cur);
      }
      assert Without1(t, i)[..curr] == t[..curr];
    }
  }

  lemma StepKeep(l: seq<Elem>, t: seq<Elem>, start: nat, i: nat, end: nat, curr: nat, endFormats: map<Key, nat>,
                 n: Attrs, cur: Attrs)
    requires Cleaning(l, t, start, i, curr, endFormats, n, cur)
    requires LastMarkers(l, start, end, endFormats) && i < end && (l[i].Marker() ==> endFormats[l[i].key] == i)
    ensures Cleaning(l, t, start, i + 1, curr, endFormats, Step(l[i], n), if i < curr then Step(l[i], cur) else cur)
  {
    CleanKeep(l, t, start, i, end, endFormats);
    if i < curr {
      CurrKeep(l, i, curr, n, cur);
    } else if i == curr {
      CurrReached(l, t, i, n, cur);
    }
  }

  lemma NextUnchanged(l: seq<Elem>, t: seq<Elem>, start: nat, i: nat, endFormats: map<Key, nat>)
    requires CleanTo(l, t, start, i, endFormats) && i < |l|
    ensures i < |t| && t[i] == l[i]
  {
    assert t[i..][0] == l[i..][0];
  }

  lemma CleaningStart(l: seq<Elem>, start: nat, curr: nat, endFormats: map<Key, nat>, n: Attrs, cur: Attrs)
    requires start <= curr <= |l| && n == After(l[..start], map[]) && cur == After(l[..curr], map[])
    ensures Cleaning(l, l, start, start, curr, endFormats, n, cur)
  {
    CurrStart(l, start, curr, n, cur);
  }

  lemma CleaningIs(l: seq<Elem>, t: seq<Elem>, start: nat, i: nat, curr: nat, endFormats: map<Key, nat>, n: Attrs,
                   cur: Attrs)
    requires Cleaning(l, t, start, i, curr, endFormats, n, cur)
    ensures Cleaned(l, t) && SameMeaning(l, t) && |t| == |l| && t[..start] == l[..start] && t[i..] == l[i..]
    ensures i < |l| ==> t[i] == l[i]
    ensures curr <= i ==> cur == After(t[..curr], map[])
  {
    if i < |l| {
      NextUnchanged(l, t, start, i, endFormats);
    }
    if i == curr {
      CurrReached(l, t, i, n, cur);
    }
  }

  /** `cleanupFormattingGap`: deletes markers of the gap that begins at `start`.  No
      character changes its attributes, and the attributes at `curr` are kept up to date. */
  method CleanupFormattingGap(l: seq<Elem>, start: nat, curr: nat, startAttributes: Attrs, currAttributes0: Attrs)
    returns (t: seq<Elem>, currAttributes: Attrs, cleanups: nat)
    requires start <= curr <= |l| && startAttributes == After(l[..start], map[])
    requires curr <= GapEnd(l, start) || GapEnd(l, start) == start
    requires currAttributes0 == After(l[..curr], map[])
    ensures Cleaned(l, t) && SameMeaning(l, t) && t[..start] == l[..start]
    ensures t[GapEnd(l, start)..] == l[GapEnd(l, start)..]
    ensures CleansedTo(l, t, start, GapEnd(l, start), GapEnd(l, start), startAttributes)
    ensures cleanups == Changed(l, t, |l|)
    ensures currAttributes == After(t[..curr], map[])
  {
    hide Cleaning, Cleaned, SameMeaning, CleansedTo, Superfluous;
    var end, endFormats := FindGap(l, start);
    t, currAttributes, cleanups := l, currAttributes0, 0;
    var i := start;
    ghost var n := startAttributes;
    CleaningStart(l, start, curr, endFormats, n, currAttributes);
    CleansedStart(l, start, end, startAttributes);
    while i < end
      invariant i == start ==> t == l && currAttributes == currAttributes0
      invariant |t| == |l| && CleansedTo(l, t, start, i, end, startAttributes)
      invariant i <= |l| && cleanups == Changed(l, t, i)
      invariant start <= i <= end && Cleaning(l, t, start, i, curr, endFormats, n, currAttributes)
    {
      CleaningIs(l, t, start, i, curr, endFormats, n, currAttributes);
      LastIsNeeded(l, start, i, end, endFormats, startAttributes);
      CleansedNext(l, t, start, i, end, startAttributes);
      var e, reachedCurr := t[i], i >= curr;
      if e.Marker() && (endFormats[e.key] != i || Get(startAttributes, e.key) == e.value) {
        StepDelete(l, t, start, i, end, curr, endFormats, n, currAttributes);
        t, cleanups := Without1(t, i), cleanups + 1;
        if !reachedCurr && Get(currAttributes, e.key) == e.value && Get(startAttributes, e.key) != e.value {
          currAttributes := Set(currAttributes, e.key, Get(startAttributes, e.key));
        }
      } else {
        StepKeep(l, t, start, i, end, curr, endFormats, n, currAttributes);
        n := Step(e, n);
        if !reachedCurr && e.Marker() {
          currAttributes := Set(currAttributes, e.key, e.value);
        }
      }
      i := i + 1;
    }
    CleaningIs(l, t, start, i, curr, endFormats, n, currAttributes);
    CleansedEnd(l, t, start, end, startAttributes);
  }

  lemma CurrReached(l: seq<Elem>, t: seq<Elem>, curr: nat, n: Attrs, cur: Attrs)
    requires CurrTo(l, curr, curr, n, cur) && curr <= |t| && n == After(t[..curr], map[])
    ensures cur == After(t[..curr], map[])
  {
    forall k ensures Get(cur, k) == Get(n, k) {
      assert CurrAt(l, curr, curr, n, After(l[..curr], map[]), cur, k);
    }
    SameAttrs(cur, n);
  }
}
