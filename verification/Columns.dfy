/** The run-length columns of the V2 update format, read and written. */
module Columns {
  import opened Common
  import opened Varint

  // ----- Runs -----

  /** `count` times the same value. */
  datatype Run = Run(x: int, count: nat)

  function Repeat(x: int, count: nat): (s: seq<int>)
    ensures |s| == count
  {
    seq(count, _ => x)
  }

  function Expand(runs: seq<Run>): seq<int> {
    if runs == [] then [] else Repeat(runs[0].x, runs[0].count) + Expand(runs[1..])
  }

  lemma {:induction false} ExpandConcat(a: seq<Run>, b: seq<Run>)
    ensures Expand(a + b) == Expand(a) + Expand(b)
  {
    if a == [] {
      assert a + b == b;
    } else {
      assert (a + b)[1..] == a[1..] + b;
      ExpandConcat(a[1..], b);
    }
  }

  lemma ExpandSnoc(runs: seq<Run>, r: Run)
    ensures Expand(runs + [r]) == Expand(runs) + Repeat(r.x, r.count)
  {
    ExpandConcat(runs, [r]);
    assert [r][1..] == [];
    assert Expand([r]) == Repeat(r.x, r.count);
  }

  /** How the two columns of numbers write a run. */
  datatype Kind = Values | Diffs

  function AsSigned(e: int): Signed {
    if e < 0 then Signed(true, 0 - e) else Signed(false, e)
  }

  function AsInt(x: Signed): int {
    if x.negative then 0 - x.magnitude else x.magnitude
  }

  /** A sign or the lowest bit says whether a count follows. */
  function Head(kind: Kind, r: Run): Signed
    requires kind.Values? ==> r.x >= 0
  {
    match kind
    case Values => Signed(r.count != 1, r.x)
    case Diffs => AsSigned(r.x * 2 + if r.count == 1 then 0 else 1)
  }

  function Count(r: Run): seq<byte> {
    if r.count > 1 then VarUint(r.count - 2) else []
  }

  /** Values that are read back exactly. */
  predicate Encodable(kind: Kind, x: int) {
    match kind
    case Values => 0 <= x <= MAX_SAFE_INTEGER
    case Diffs => 0 - MAX_SAFE_INTEGER <= x * 2 < MAX_SAFE_INTEGER
  }

  predicate Good(kind: Kind, runs: seq<Run>) {
    forall r <- runs :: Encodable(kind, r.x) && r.count > 0
  }

  function Chunk(kind: Kind, r: Run): seq<byte>
    requires Encodable(kind, r.x)
  {
    VarInt(Head(kind, r)) + Count(r)
  }

  function Chunks(kind: Kind, runs: seq<Run>): seq<byte>
    requires Good(kind, runs)
  {
    if runs == [] then [] else Chunk(kind, runs[0]) + Chunks(kind, runs[1..])
  }

  lemma {:induction false} ChunksSnoc(kind: Kind, runs: seq<Run>, r: Run)
    requires Good(kind, runs) && Good(kind, [r])
    ensures Good(kind, runs + [r]) && Chunks(kind, runs + [r]) == Chunks(kind, runs) + Chunk(kind, r)
  {
    if runs == [] {
      assert runs + [r] == [r] && [r][1..] == [];
    } else {
      assert (runs + [r])[1..] == runs[1..] + [r];
      ChunksSnoc(kind, runs[1..], r);
      Associative(Chunk(kind, runs[0]), Chunks(kind, runs[1..]), Chunk(kind, r));
    }
  }

  /** Equal neighbours are in the same run. */
  predicate Maximal(runs: seq<Run>) {
    forall i :: 0 < i < |runs| ==> runs[i].x != runs[i - 1].x
  }

  lemma MaximalSnoc(runs: seq<Run>, r: Run)
    requires Maximal(runs) && (runs != [] ==> runs[|runs| - 1].x != r.x)
    ensures Maximal(runs + [r])
  {
    forall i | 0 < i < |runs + [r]| ensures (runs + [r])[i].x != (runs + [r])[i - 1].x {
      assert (runs + [r])[i - 1] == runs[i - 1];
    }
  }

  lemma MaximalTail(runs: seq<Run>)
    requires Maximal(runs) && runs != []
    ensures Maximal(runs[1..])
  {
    forall i | 0 < i < |runs| - 1 ensures runs[1..][i].x != runs[1..][i - 1].x {
      assert runs[i + 1].x != runs[i].x;
    }
  }

  lemma MaximalGrow(runs: seq<Run>, x: int, n: nat, m: nat)
    requires Maximal(runs + [Run(x, n)])
    ensures Maximal(runs + [Run(x, m)])
  {
    var t := runs + [Run(x, n)];
    forall i | 0 < i <= |runs| ensures (runs + [Run(x, m)])[i].x != (runs + [Run(x, m)])[i - 1].x {
      assert t[i].x != t[i - 1].x;
    }
  }

  lemma Begins(runs: seq<Run>, x: int)
    ensures Expand(runs + [Run(x, 1)]) == Expand(runs) + [x]
  {
    ExpandSnoc(runs, Run(x, 1));
  }

  lemma GoodOne(kind: Kind, r: Run)
    requires Encodable(kind, r.x) && r.count > 0
    ensures Good(kind, [r])
  {
  }

  /** How long the first run is can be seen from the values. */
  lemma FirstRun(runs: seq<Run>, k: nat)
    requires (forall r <- runs :: r.count > 0) && Maximal(runs) && runs != [] && k < |Expand(runs)|
    requires k <= runs[0].count
    ensures k < runs[0].count <==> Expand(runs)[k] == runs[0].x
  {
    if k == runs[0].count {
      var rest := runs[1..];
      assert Expand(runs) == Repeat(runs[0].x, k) + Expand(rest) && rest != [] && rest[0] == runs[1];
      assert Expand(rest)[0] == rest[0].x;
    }
  }

  /** The values have one way only to be in runs. */
  lemma {:induction false} RunsUnique(a: seq<Run>, b: seq<Run>)
    requires (forall r <- a :: r.count > 0) && (forall r <- b :: r.count > 0) && Maximal(a) && Maximal(b)
    requires Expand(a) == Expand(b)
    ensures a == b
  {
    if a != [] && b != [] {
      var n := a[0].count;
      var m := b[0].count;
      FirstRun(a, 0);
      FirstRun(b, 0);
      assert |Expand(a)| >= n && |Expand(b)| >= m;
      if n < m {
        FirstRun(a, n);
        FirstRun(b, n);
      } else if m < n {
        FirstRun(a, m);
        FirstRun(b, m);
      }
      assert Expand(a)[n..] == Expand(a[1..]) && Expand(b)[m..] == Expand(b[1..]);
      RunsUnique(a[1..], b[1..]);
      assert a == [a[0]] + a[1..] && b == [b[0]] + b[1..];
    }
  }

  /** The bytes stand for the values, in as few runs as possible. */
  ghost predicate Encodes(kind: Kind, bytes: seq<byte>, values: seq<int>) {
    exists runs :: Good(kind, runs) && Maximal(runs) && bytes == Chunks(kind, runs) && values == Expand(runs)
  }

  /** The values determine the bytes. */
  lemma EncodedOnce(kind: Kind, a: seq<byte>, b: seq<byte>, values: seq<int>)
    requires Encodes(kind, a, values) && Encodes(kind, b, values)
    ensures a == b
  {
    var r: seq<Run> :| Good(kind, r) && Maximal(r) && a == Chunks(kind, r) && values == Expand(r);
    var s: seq<Run> :| Good(kind, s) && Maximal(s) && b == Chunks(kind, s) && values == Expand(s);
    RunsUnique(r, s);
  }

  /** 1, twice 2, and three times 128: a count is written two less, behind a negative number. */
  lemma ValueBytes()
    ensures Chunks(Values, [Run(1, 1), Run(2, 2), Run(128, 3)]) == [1, 66, 0, 192, 2, 1]
  {
    var r1, r2, r3 := Run(1, 1), Run(2, 2), Run(128, 3);
    assert [r1, r2, r3][1..] == [r2, r3] && [r2, r3][1..] == [r3] && [r3][1..] == [];
    assert Chunk(Values, r1) == [1] && Chunk(Values, r2) == [66, 0] && Chunk(Values, r3) == [192, 2, 1];
  }

  /** The differences of 1, 2, 3 and 2: the last bit says that a count follows. */
  lemma DiffBytes()
    ensures Chunks(Diffs, [Run(1, 3), Run(-1, 1)]) == [3, 1, 66]
    ensures Sums([1, 1, 1, -1], 0) == [1, 2, 3, 2]
  {
    var r1, r2 := Run(1, 3), Run(-1, 1);
    assert [r1, r2][1..] == [r2] && [r2][1..] == [];
    assert Chunk(Diffs, r1) == [3, 1] && Chunk(Diffs, r2) == [66];
  }

  // ----- Writing -----

  /** What the encoders of both kinds share: the runs that were written, and one that may
      still grow. */
  class RunEncoder {
    ghost const kind: Kind
    const encoder: Encoder
    var x: int
    var count: nat
    ghost var runs: seq<Run>
    ghost var written: seq<int>

    ghost predicate Valid()
      reads this, encoder, encoder.cbuf
    {
      && encoder.Valid() && Good(kind, runs) && Encodable(kind, x)
      && encoder.Contents() == Chunks(kind, runs)
      && written == Expand(runs) + Repeat(x, count)
      && (count == 0 ==> runs == [] && x == 0) && Maximal(runs) && (runs != [] ==> runs[|runs| - 1].x != x)
    }

    constructor (ghost kind: Kind)
      ensures Valid() && fresh(encoder) && fresh(encoder.cbuf) && written == [] && this.kind == kind && x == 0
      ensures count == 0
    {
      this.kind := kind;
      encoder := new Encoder();
      x, count, runs, written := 0, 0, [], [];
    }

    /** Starts another run. */
    method Start(v: int, head: Signed)
      requires Valid() && Encodable(kind, v) && v != x && (count > 0 ==> head == Head(kind, Run(x, count)))
      modifies this, encoder, encoder.cbuf
      ensures Valid() && (encoder.cbuf == old(encoder.cbuf) || fresh(encoder.cbuf)) && written == old(written) + [v]
      ensures x == v
    {
      Flush(head);
      x, count, written := v, 1, written + [v];
      assert written == Expand(runs) + Repeat(x, count);
    }

    /** The same value again. */
    method Again()
      requires Valid()
      modifies this`count, this`written
      ensures Valid() && written == old(written) + [x]
    {
      assert Repeat(x, count + 1) == Repeat(x, count) + [x];
      count, written := count + 1, written + [x];
    }

    /** The head of a run, and its count if it is more than 1. */
    method WriteHead(head: Signed)
      requires encoder.Valid()
      modifies encoder, encoder.cbuf
      ensures encoder.Valid() && (encoder.cbuf == old(encoder.cbuf) || fresh(encoder.cbuf))
      ensures encoder.Contents() == old(encoder.Contents()) + (VarInt(head) + Count(Run(x, count)))
    {
      ghost var c, a, b := encoder.Contents(), VarInt(head), Count(Run(x, count));
      encoder.WriteVarInt(head);
      if count > 1 {
        encoder.WriteVarUint(count - 2);
      }
      Associative(c, a, b);
      assert c + a + [] == c + a;
    }

    /** Writes the current run. */
    method Flush(head: Signed)
      requires Valid() && (count > 0 ==> head == Head(kind, Run(x, count)))
      modifies this`runs, this`count, encoder, encoder.cbuf
      ensures encoder.Valid() && (encoder.cbuf == old(encoder.cbuf) || fresh(encoder.cbuf))
      ensures Good(kind, runs) && encoder.Contents() == Chunks(kind, runs) && Expand(runs) == written
      ensures Maximal(runs) && (runs != [] ==> runs[|runs| - 1].x == x)
    {
    hide Good, Chunks, Expand, Maximal;
      if count > 0 {
        ghost var r := Run(x, count);
        GoodOne(kind, r);
        ChunksSnoc(kind, runs, r);
        ExpandSnoc(runs, r);
        MaximalSnoc(runs, r);
        WriteHead(head);
        runs := runs + [r];
      }
      count := 0;
    }

    method ToUint8Array(head: Signed) returns (r: array<byte>)
      requires Valid() && (count > 0 ==> head == Head(kind, Run(x, count)))
      modifies this`runs, this`count, encoder, encoder.cbuf
      ensures Encodes(kind, r[..], old(written))
    {
      Flush(head);
      r := encoder.ToUint8Array();
    }
  }

  /** A column of non-negative integers. */
  class UintOptRleEncoder {
    const runs: RunEncoder

    ghost predicate Valid()
      reads this, runs, runs.encoder, runs.encoder.cbuf
    {
      runs.Valid() && runs.kind == Values
    }

    ghost function Written(): seq<int>
      reads this, runs
    {
      runs.written
    }

    constructor ()
      ensures Valid() && fresh(runs) && fresh(runs.encoder) && fresh(runs.encoder.cbuf) && Written() == []
    {
      runs := new RunEncoder(Values);
    }

    /** The sign of the run: negative, even for 0, when a count follows. */
    function Sign(): Signed
      requires runs.x >= 0
      reads this, runs
    {
      if runs.count == 1 then Signed(false, runs.x) else Signed(true, runs.x)
    }

    method Write(v: nat)
      requires Valid() && v <= MAX_SAFE_INTEGER
      modifies runs, runs.encoder, runs.encoder.cbuf
      ensures Valid() && (runs.encoder.cbuf == old(runs.encoder.cbuf) || fresh(runs.encoder.cbuf))
      ensures Written() == old(Written()) + [v]
    {
      if runs.x == v {
        runs.Again();
      } else {
        runs.Start(v, Sign());
      }
    }

    method ToUint8Array() returns (r: array<byte>)
      requires Valid()
      modifies runs, runs.encoder, runs.encoder.cbuf
      ensures Encodes(Values, r[..], old(Written()))
    {
      r := runs.ToUint8Array(Sign());
    }
  }

  /** The values whose differences, from 0 on, are given. */
  function Sums(diffs: seq<int>, s: int): (r: seq<int>)
    ensures |r| == |diffs|
  {
    if diffs == [] then [] else [s + diffs[0]] + Sums(diffs[1..], s + diffs[0])
  }

  function Total(diffs: seq<int>, s: int): int {
    if diffs == [] then s else Total(diffs[1..], s + diffs[0])
  }

  lemma {:induction false} SumsSnoc(diffs: seq<int>, s: int, d: int)
    ensures Sums(diffs + [d], s) == Sums(diffs, s) + [Total(diffs, s) + d]
    ensures Total(diffs + [d], s) == Total(diffs, s) + d
  {
    if diffs == [] {
      assert diffs + [d] == [d] && [d][1..] == [];
    } else {
      assert (diffs + [d])[1..] == diffs[1..] + [d];
      SumsSnoc(diffs[1..], s + diffs[0], d);
    }
  }

  /** A column of integers, as differences. */
  class IntDiffOptRleEncoder {
    const runs: RunEncoder
    var s: int

    ghost predicate Valid()
      reads this, runs, runs.encoder, runs.encoder.cbuf
    {
      runs.Valid() && runs.kind == Diffs && s == Total(runs.written, 0)
    }

    ghost function Written(): seq<int>
      reads this, runs
    {
      Sums(runs.written, 0)
    }

    constructor ()
      ensures Valid() && fresh(runs) && fresh(runs.encoder) && fresh(runs.encoder.cbuf) && Written() == [] && s == 0
    {
      runs := new RunEncoder(Diffs);
      s := 0;
    }

    function EncodedDiff(): Signed
      reads this, runs
    {
      AsSigned(runs.x * 2 + if runs.count == 1 then 0 else 1)
    }

    method Write(v: int)
      requires Valid() && Encodable(Diffs, v - s)
      modifies this, runs, runs.encoder, runs.encoder.cbuf
      ensures Valid() && (runs.encoder.cbuf == old(runs.encoder.cbuf) || fresh(runs.encoder.cbuf))
      ensures Written() == old(Written()) + [v] && s == v
    {
      hide Good, Chunks, Expand, Sums;
      SumsSnoc(runs.written, 0, v - s);
      if runs.x == v - s {
        s := v;
        runs.Again();
      } else {
        runs.Start(v - s, EncodedDiff());
        s := v;
      }
    }

    method ToUint8Array() returns (r: array<byte>)
      requires Valid()
      modifies runs, runs.encoder, runs.encoder.cbuf
      ensures exists diffs :: Encodes(Diffs, r[..], diffs) && Sums(diffs, 0) == old(Written())
    {
      ghost var diffs := runs.written;
      r := runs.ToUint8Array(EncodedDiff());
      assert Encodes(Diffs, r[..], diffs);
    }
  }

  // ----- Reading -----

  /** A decoder: the bytes left, the value of the current run, and how often it comes again. */
  datatype State = State(left: seq<byte>, x: int, count: nat)

  function HeadValue(kind: Kind, head: Signed): int {
    match kind
    case Values => head.magnitude
    case Diffs => AsInt(head) / 2
  }

  predicate CountFollows(kind: Kind, head: Signed) {
    match kind
    case Values => head.negative
    case Diffs => AsInt(head) % 2 == 1
  }

  /** `read` where a new run begins. */
  function NextRun(kind: Kind, left: seq<byte>): Result<State> {
    var head := DecodeVarInt(left);
    if head.Err? then Err(head.error)
    else
      var x, rest := HeadValue(kind, head.value.0), Drop(left, head.value.1);
      if CountFollows(kind, head.value.0) then
        var count := DecodeVarUint(rest, 0, 1);
        if count.Err? then Err(count.error) else Ok(State(Drop(rest, count.value.1), x, count.value.0 + 2))
      else Ok(State(rest, x, 1))
  }

  /** `read`: the state afterwards; its `x` is the value that was read. */
  function Next(kind: Kind, st: State): Result<State> {
    if st.count > 0 then Ok(st.(count := st.count - 1))
    else
      var r := NextRun(kind, st.left);
      if r.Err? then r else Ok(r.value.(count := r.value.count - 1))
  }

  /** The values still to come. */
  ghost predicate Yields(kind: Kind, st: State, values: seq<int>) {
    exists runs :: Good(kind, runs) && st.left == Chunks(kind, runs) && values == Repeat(st.x, st.count) + Expand(runs)
  }

  /** The head of a run says what it was made of. */
  lemma HeadRead(kind: Kind, r: Run)
    requires Encodable(kind, r.x) && r.count > 0
    ensures HeadValue(kind, Head(kind, r)) == r.x && (CountFollows(kind, Head(kind, r)) <==> r.count > 1)
    ensures Head(kind, r).magnitude <= MAX_SAFE_INTEGER
  {
    if kind.Diffs? {
      var e := r.x * 2 + if r.count == 1 then 0 else 1;
      assert AsInt(Head(kind, r)) == e;
    }
  }

  lemma RunRead(kind: Kind, r: Run, rest: seq<byte>)
    requires Encodable(kind, r.x) && 0 < r.count <= MAX_SAFE_INTEGER
    ensures NextRun(kind, Chunk(kind, r) + rest) == Ok(State(rest, r.x, r.count))
  {
    hide Head, HeadValue, CountFollows, VarInt, VarUint, DecodeVarInt, DecodeVarUint;
    var head, left := Head(kind, r), Chunk(kind, r) + rest;
    HeadRead(kind, r);
    assert left == VarInt(head) + (Count(r) + rest);
    VarIntRead(head, Count(r) + rest);
    assert Drop(left, |VarInt(head)|) == Count(r) + rest;
    if r.count > 1 {
      VarUintRead(r.count - 2, rest, 0, 1);
      assert Drop(Count(r) + rest, |Count(r)|) == rest;
    } else {
      assert Count(r) + rest == rest;
    }
  }

  /** Where a new run begins, reading gives its value. */
  lemma NextRunRead(kind: Kind, st: State, runs: seq<Run>)
    requires Good(kind, runs) && runs != [] && runs[0].count <= MAX_SAFE_INTEGER
    requires st.count == 0 && st.left == Chunks(kind, runs)
    ensures Next(kind, st) == Ok(State(Chunks(kind, runs[1..]), runs[0].x, runs[0].count - 1))
  {
    RunRead(kind, runs[0], Chunks(kind, runs[1..]));
  }

  lemma NextRunYields(kind: Kind, st: State, runs: seq<Run>, values: seq<int>)
    requires Good(kind, runs) && st.left == Chunks(kind, runs) && values == Expand(runs)
    requires st.count == 0 && 0 < |values| <= MAX_SAFE_INTEGER
    ensures var r := Next(kind, st); r.Ok? && r.value.x == values[0] && Yields(kind, r.value, values[1..])
  {
    var r, rest := runs[0], runs[1..];
    assert values == Repeat(r.x, r.count) + Expand(rest);
    RepeatTail(r.x, r.count, Expand(rest));
    NextRunRead(kind, st, runs);
  }

  /** Reading gives the next value, and the others after it. */
  lemma NextYields(kind: Kind, st: State, values: seq<int>)
    requires Yields(kind, st, values) && 0 < |values| <= MAX_SAFE_INTEGER
    ensures var r := Next(kind, st); r.Ok? && r.value.x == values[0] && Yields(kind, r.value, values[1..])
  {
    var runs: seq<Run> :| Good(kind, runs) && st.left == Chunks(kind, runs) &&
      values == Repeat(st.x, st.count) + Expand(runs);
    if st.count > 0 {
      RepeatTail(st.x, st.count, Expand(runs));
    } else {
      NextRunYields(kind, st, runs, values);
    }
  }

  lemma RepeatTail(x: int, count: nat, rest: seq<int>)
    requires count > 0
    ensures (Repeat(x, count) + rest)[0] == x && (Repeat(x, count) + rest)[1..] == Repeat(x, count - 1) + rest
  {
  }

  /** `n` times `read`. */
  function ReadAll(kind: Kind, st: State, n: nat): Result<seq<int>>
    decreases n
  {
    if n == 0 then Ok([])
    else
      var r := Next(kind, st);
      if r.Err? then Err(r.error)
      else
        var rest := ReadAll(kind, r.value, n - 1);
        if rest.Err? then rest else Ok([r.value.x] + rest.value)
  }

  lemma {:induction false} ReadsValues(kind: Kind, st: State, values: seq<int>)
    requires Yields(kind, st, values) && |values| <= MAX_SAFE_INTEGER
    ensures ReadAll(kind, st, |values|) == Ok(values)
    decreases |values|
  {
    if values != [] {
      NextYields(kind, st, values);
      var r := Next(kind, st).value;
      ReadsValues(kind, r, values[1..]);
      assert values == [values[0]] + values[1..];
    }
  }

  /** Reading the column gives the values that were written. */
  lemma ColumnRoundTrip(kind: Kind, bytes: seq<byte>, values: seq<int>)
    requires Encodes(kind, bytes, values) && |values| <= MAX_SAFE_INTEGER
    ensures ReadAll(kind, State(bytes, 0, 0), |values|) == Ok(values)
  {
    var runs: seq<Run> :| Good(kind, runs) && bytes == Chunks(kind, runs) && values == Expand(runs);
    assert values == Repeat(0, 0) + Expand(runs);
    assert Yields(kind, State(bytes, 0, 0), values);
    ReadsValues(kind, State(bytes, 0, 0), values);
  }

  /** The head of the next run, and its count. */
  method ReadRun(kind: Kind, decoder: Decoder) returns (r: Result<(int, nat)>)
    modifies decoder
    ensures var st := NextRun(kind, old(decoder.Left()));
      if st.Ok? then r == Ok((st.value.x, st.value.count)) && decoder.Left() == st.value.left else r == Err(st.error)
  {
    var head := decoder.ReadVarInt();
    if head.Err? {
      return Err(head.error);
    }
    var x := HeadValue(kind, head.value);
    if !CountFollows(kind, head.value) {
      return Ok((x, 1));
    }
    var count := decoder.ReadVarUint();
    return if count.Err? then Err(count.error) else Ok((x, count.value + 2));
  }

  class UintOptRleDecoder {
    const decoder: Decoder
    var s: int
    var count: nat

    constructor (arr: seq<byte>)
      ensures fresh(decoder) && Reads() == State(arr, 0, 0)
    {
      decoder := new Decoder(arr);
      s, count := 0, 0;
    }

    ghost function Reads(): State
      reads this, decoder
    {
      State(decoder.Left(), s, count)
    }

    method Read() returns (r: Result<int>)
      modifies this, decoder
      ensures var st := Next(Values, old(Reads()));
        if st.Ok? then r == Ok(st.value.x) && Reads() == st.value else r == Err(st.error)
    {
      if count == 0 {
        var run := ReadRun(Values, decoder);
        if run.Err? {
          return Err(run.error);
        }
        s, count := run.value.0, run.value.1;
      }
      count := count - 1;
      return Ok(s);
    }
  }

  class IntDiffOptRleDecoder {
    const decoder: Decoder
    var s: int
    var count: nat
    var diff: int

    constructor (arr: seq<byte>)
      ensures fresh(decoder) && Reads() == State(arr, 0, 0) && s == 0
    {
      decoder := new Decoder(arr);
      s, count, diff := 0, 0, 0;
    }

    ghost function Reads(): State
      reads this, decoder
    {
      State(decoder.Left(), diff, count)
    }

    /** Adds the next difference. */
    method Read() returns (r: Result<int>)
      modifies this, decoder
      ensures var st := Next(Diffs, old(Reads()));
        if st.Ok? then r == Ok(s) && s == old(s) + st.value.x && Reads() == st.value else r == Err(st.error)
    {
      if count == 0 {
        var run := ReadRun(Diffs, decoder);
        if run.Err? {
          return Err(run.error);
        }
        diff, count := run.value.0, run.value.1;
      }
      s := s + diff;
      count := count - 1;
      return Ok(s);
    }
  }

  /** `n` times `read` of a column of differences, beginning at `s`. */
  function ReadSums(st: State, s: int, n: nat): Result<seq<int>>
    decreases n
  {
    if n == 0 then Ok([])
    else
      var r := Next(Diffs, st);
      if r.Err? then Err(r.error)
      else
        var v := s + r.value.x;
        var rest := ReadSums(r.value, v, n - 1);
        if rest.Err? then rest else Ok([v] + rest.value)
  }

  lemma {:induction false} SumsRead(st: State, s: int, n: nat)
    ensures var r := ReadAll(Diffs, st, n);
      ReadSums(st, s, n) == if r.Err? then Err(r.error) else Ok(Sums(r.value, s))
    decreases n
  {
    if n > 0 && Next(Diffs, st).Ok? {
      var next := Next(Diffs, st).value;
      SumsRead(next, s + next.x, n - 1);
      var r := ReadAll(Diffs, next, n - 1);
      if r.Ok? {
        assert ([next.x] + r.value)[1..] == r.value;
      }
    }
  }

  /** Reading a column of differences gives the values that were written. */
  lemma DiffRoundTrip(bytes: seq<byte>, diffs: seq<int>)
    requires Encodes(Diffs, bytes, diffs) && |diffs| <= MAX_SAFE_INTEGER
    ensures ReadSums(State(bytes, 0, 0), 0, |diffs|) == Ok(Sums(diffs, 0))
  {
    ColumnRoundTrip(Diffs, bytes, diffs);
    SumsRead(State(bytes, 0, 0), 0, |diffs|);
  }

  // ----- Bytes in runs -----

  /** `RleEncoder`: each value and then how often it comes again, but for the last run. */
  predicate GoodBytes(runs: seq<Run>) {
    forall r <- runs :: 0 <= r.x < 256 && r.count > 0
  }

  function RleChunks(runs: seq<Run>): seq<byte>
    requires GoodBytes(runs)
  {
    if runs == [] then [] else [runs[0].x] + VarUint(runs[0].count - 1) + RleChunks(runs[1..])
  }

  lemma {:induction false} RleChunksSnoc(runs: seq<Run>, r: Run)
    requires GoodBytes(runs) && GoodBytes([r])
    ensures GoodBytes(runs + [r]) && RleChunks(runs + [r]) == RleChunks(runs) + [r.x] + VarUint(r.count - 1)
  {
    if runs == [] {
      assert runs + [r] == [r] && [r][1..] == [];
    } else {
      assert (runs + [r])[1..] == runs[1..] + [r];
      RleChunksSnoc(runs[1..], r);
    }
  }

  /** The runs are in the bytes, the last one without its count. */
  ghost predicate InBytes(bytes: seq<byte>, runs: seq<Run>, last: seq<Run>) {
    && GoodBytes(runs) && GoodBytes(last) && |last| <= 1 && (last == [] ==> runs == []) && Maximal(runs + last)
    && bytes == RleChunks(runs) + (if last == [] then [] else [last[0].x])
  }

  /** The bytes stand for the values, in as few runs as possible. */
  ghost predicate EncodesBytes(bytes: seq<byte>, values: seq<int>) {
    exists runs, last :: InBytes(bytes, runs, last) && values == Expand(runs + last)
  }

  lemma LastOnly(r: seq<Run>, u: seq<Run>, s: seq<Run>, v: seq<Run>)
    requires r + u == s + v && |u| <= 1 && |v| <= 1 && (u == [] ==> r == []) && (v == [] ==> s == [])
    ensures r == s && u == v
  {
    if u != [] {
      assert v != [];
      assert u == [(r + u)[|r + u| - 1]] && r == (r + u)[..|r + u| - 1];
      assert v == [(s + v)[|s + v| - 1]] && s == (s + v)[..|s + v| - 1];
    }
  }

  /** The values determine the bytes. */
  lemma BytesEncodedOnce(a: seq<byte>, b: seq<byte>, values: seq<int>)
    requires EncodesBytes(a, values) && EncodesBytes(b, values)
    ensures a == b
  {
    var r: seq<Run>, u: seq<Run> :| InBytes(a, r, u) && values == Expand(r + u);
    var s: seq<Run>, v: seq<Run> :| InBytes(b, s, v) && values == Expand(s + v);
    hide RleChunks, Expand, Maximal;
    RunsUnique(r + u, s + v);
    LastOnly(r, u, s, v);
  }

  class RleEncoder {
    const encoder: Encoder
    var s: Option<byte>
    var count: nat
    ghost var runs: seq<Run>
    ghost var written: seq<int>

    ghost function Last(): seq<Run>
      reads this
    {
      if s.Some? then [Run(s.value, count)] else []
    }

    ghost predicate Valid()
      reads this, encoder, encoder.cbuf
    {
      && encoder.Valid() && GoodBytes(runs) && GoodBytes(Last()) && (s.None? ==> runs == [] && count == 0)
      && encoder.Contents() == RleChunks(runs) + (if s.Some? then [s.value] else [])
      && written == Expand(runs + Last()) && Maximal(runs + Last())
    }

    constructor ()
      ensures Valid() && fresh(encoder) && fresh(encoder.cbuf) && written == []
    {
      encoder := new Encoder();
      s, count, runs, written := None, 0, [], [];
    }

    method Write(v: byte)
      requires Valid()
      modifies this, encoder, encoder.cbuf
      ensures Valid() && (encoder.cbuf == old(encoder.cbuf) || fresh(encoder.cbuf)) && written == old(written) + [v]
    {
      hide Maximal, Expand, RleChunks;
      ghost var r, c := runs + Last(), encoder.Contents();
      if s == Some(v) {
        MaximalGrow(runs, v, count, count + 1);
        ExpandSnoc(runs, Run(v, count));
        count := count + 1;
        ExpandSnoc(runs, Run(v, count));
        assert Repeat(v, count) == Repeat(v, count - 1) + [v];
      } else {
        if count > 0 {
          RleChunksSnoc(runs, Run(s.value, count));
          encoder.WriteVarUint(count - 1);
        }
        assert encoder.Contents() == RleChunks(r);
        encoder.Write(v);
        MaximalSnoc(r, Run(v, 1));
        Begins(r, v);
        count, s, runs := 1, Some(v), r;
      }
      written := written + [v];
    }

    method ToUint8Array() returns (r: array<byte>)
      requires Valid()
      ensures EncodesBytes(r[..], written)
    {
      r := encoder.ToUint8Array();
      assert InBytes(r[..], runs, Last());
    }
  }

  /** The decoder of bytes; a negative count means that the value comes for ever. */
  datatype ByteState = ByteState(left: seq<byte>, x: byte, count: int)

  function NextByte(st: ByteState): Result<ByteState> {
    if st.count != 0 then Ok(st.(count := st.count - 1))
    else if st.left == [] then Err(UnexpectedEndOfArray)
    else if |st.left| == 1 then Ok(ByteState([], st.left[0], -2))
    else
      var count := DecodeVarUint(st.left[1..], 0, 1);
      if count.Err? then Err(count.error)
      else Ok(ByteState(Drop(st.left[1..], count.value.1), st.left[0], count.value.0))
  }

  /** The values still to come. */
  ghost predicate YieldsBytes(st: ByteState, values: seq<int>) {
    if st.count < 0 then values == Repeat(st.x, |values|)
    else exists runs, last :: InBytes(st.left, runs, last) && values == Repeat(st.x, st.count) + Expand(runs + last)
  }

  /** Reading gives the next value; the run without a count is the last one. */
  lemma NextYieldsBytes(st: ByteState, values: seq<int>)
    requires YieldsBytes(st, values) && 0 < |values| <= MAX_SAFE_INTEGER
    ensures var r := NextByte(st); r.Ok? && r.value.x == values[0] && YieldsBytes(r.value, values[1..])
  {
    hide RleChunks, DecodeVarUint, Expand, Maximal;
    if st.count >= 0 {
      var runs: seq<Run>, last: seq<Run> :| InBytes(st.left, runs, last) &&
        values == Repeat(st.x, st.count) + Expand(runs + last);
      if st.count > 0 {
        RepeatTail(st.x, st.count, Expand(runs + last));
      } else if runs == [] {
        LastByteRun(st, last, values);
      } else {
        NextByteRun(st, runs, last, values);
      }
    }
  }

  /** The last run comes for ever. */
  lemma LastByteRun(st: ByteState, last: seq<Run>, values: seq<int>)
    requires st.count == 0 && InBytes(st.left, [], last) && values == Expand([] + last) && values != []
    ensures NextByte(st) == Ok(ByteState([], values[0], -2)) && values[1..] == Repeat(values[0], |values| - 1)
  {
    assert [] + last == last && Expand(last) == Repeat(last[0].x, last[0].count) + [];
    RepeatTail(last[0].x, last[0].count, []);
  }

  lemma NextByteRun(st: ByteState, runs: seq<Run>, last: seq<Run>, values: seq<int>)
    requires st.count == 0 && InBytes(st.left, runs, last) && runs != [] && values == Expand(runs + last)
    requires |values| <= MAX_SAFE_INTEGER
    ensures var r := NextByte(st);
      r.Ok? && r.value.x == values[0] && r.value.count == runs[0].count - 1 && InBytes(r.value.left, runs[1..], last)
      && values[1..] == Repeat(r.value.x, r.value.count) + Expand(runs[1..] + last)
  {
    assert (runs + last)[1..] == runs[1..] + last;
    MaximalTail(runs + last);
    RepeatTail(runs[0].x, runs[0].count, Expand(runs[1..] + last));
    ByteRunRead(st, runs[0], RleChunks(runs[1..]) + [last[0].x]);
  }

  lemma ByteRunRead(st: ByteState, r: Run, rest: seq<byte>)
    requires st.count == 0 && 0 <= r.x < 256 && 0 < r.count <= MAX_SAFE_INTEGER && rest != []
    requires st.left == [r.x] + VarUint(r.count - 1) + rest
    ensures NextByte(st) == Ok(ByteState(rest, r.x, r.count - 1))
  {
    assert st.left[1..] == VarUint(r.count - 1) + rest;
    VarUintRead(r.count - 1, rest, 0, 1);
    assert Drop(VarUint(r.count - 1) + rest, |VarUint(r.count - 1)|) == rest;
  }

  function ReadBytes(st: ByteState, n: nat): Result<seq<int>>
    decreases n
  {
    if n == 0 then Ok([])
    else
      var r := NextByte(st);
      if r.Err? then Err(r.error)
      else
        var rest := ReadBytes(r.value, n - 1);
        if rest.Err? then rest else Ok([r.value.x] + rest.value)
  }

  lemma {:induction false} ReadsBytes(st: ByteState, values: seq<int>)
    requires YieldsBytes(st, values) && |values| <= MAX_SAFE_INTEGER
    ensures ReadBytes(st, |values|) == Ok(values)
    decreases |values|
  {
    if values != [] {
      NextYieldsBytes(st, values);
      ReadsBytes(NextByte(st).value, values[1..]);
      ReadBytesNext(st, values[0], values[1..]);
      assert values == [values[0]] + values[1..];
    }
  }

  lemma ReadBytesNext(st: ByteState, v: int, rest: seq<int>)
    requires NextByte(st).Ok? && NextByte(st).value.x == v && ReadBytes(NextByte(st).value, |rest|) == Ok(rest)
    ensures ReadBytes(st, |rest| + 1) == Ok([v] + rest)
  {
  }

  /** Reading the column gives the bytes that were written. */
  lemma ByteRoundTrip(bytes: seq<byte>, values: seq<int>, x: byte)
    requires EncodesBytes(bytes, values) && |values| <= MAX_SAFE_INTEGER
    ensures ReadBytes(ByteState(bytes, x, 0), |values|) == Ok(values)
  {
    var runs: seq<Run>, last: seq<Run> :| InBytes(bytes, runs, last) && values == Expand(runs + last);
    assert values == Repeat(x, 0) + Expand(runs + last);
    ReadsBytes(ByteState(bytes, x, 0), values);
  }

  class RleDecoder {
    const decoder: Decoder
    var s: byte
    var count: int

    constructor (arr: seq<byte>)
      ensures fresh(decoder) && Reads() == ByteState(arr, 0, 0)
    {
      decoder := new Decoder(arr);
      s, count := 0, 0;
    }

    ghost function Reads(): ByteState
      reads this, decoder
    {
      ByteState(decoder.Left(), s, count)
    }

    method Read() returns (r: Result<int>)
      modifies this, decoder
      ensures var st := NextByte(old(Reads()));
        if st.Ok? then r == Ok(st.value.x) && Reads() == st.value else r == Err(st.error)
    {
      if count == 0 {
        if decoder.pos >= |decoder.arr| {
          return Err(UnexpectedEndOfArray);
        }
        s := decoder.arr[decoder.pos];
        assert decoder.Left()[0] == s && decoder.Left()[1..] == decoder.arr[decoder.pos + 1..];
        decoder.pos := decoder.pos + 1;
        if decoder.pos != |decoder.arr| {
          var n := decoder.ReadVarUint();
          if n.Err? {
            return Err(n.error);
          }
          count := n.value + 1;
        } else {
          count := -1;
        }
      }
      count := count - 1;
      return Ok(s);
    }
  }
}
