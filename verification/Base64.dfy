/** Base 64 as in section 4 of RFC 4648, encoded and decoded. */
module Base64 {
  import opened Common
  import opened Varint

  const UPPER := "ABCDEFGHIJKLMNOPQRSTUVWXYZ"
  const LOWER := "abcdefghijklmnopqrstuvwxyz"
  const OTHER := "0123456789+/"
  const B64 := UPPER + LOWER + OTHER

  type Sextet = x: int | 0 <= x < 64 witness 0

  // ----- The alphabet -----

  /** `indexOf`, from position `i` on. */
  function IndexFrom(c: char, i: nat): (r: int)
    requires i <= |B64|
    ensures r == -1 || i <= r < |B64|
    decreases |B64| - i
  {
    if i == |B64| then -1 else if B64[i] == c then i else IndexFrom(c, i + 1)
  }

  function IndexOf(c: char): (r: int)
    ensures r == -1 || 0 <= r < 64
  {
    IndexFrom(c, 0)
  }

  /** The codes of the letters. */
  function CodeOf(x: Sextet): int {
    if x < 26 then x + 65 else if x < 52 then x + 71 else if x < 62 then x - 4 else if x == 62 then 43 else 47
  }

  lemma LetterAt(x: Sextet)
    ensures |B64| == 64 && B64[x] as int == CodeOf(x)
  {
    if x < 26 {
      assert B64[x] == UPPER[x];
    } else if x < 52 {
      assert B64[x] == LOWER[x - 26];
    } else {
      assert B64[x] == OTHER[x - 52];
    }
  }

  lemma LettersDiffer(x: Sextet, y: Sextet)
    requires x != y
    ensures B64[x] != B64[y]
  {
    LetterAt(x);
    LetterAt(y);
  }

  lemma {:induction false} IndexOfLetter(x: Sextet, i: nat)
    requires i <= x
    ensures IndexFrom(B64[x], i) == x
    decreases x - i
  {
    if i < x {
      LettersDiffer(i, x);
      IndexOfLetter(x, i + 1);
    }
  }

  lemma IndexOfB64(x: Sextet)
    ensures IndexOf(B64[x]) == x && B64[x] != '='
  {
    IndexOfLetter(x, 0);
    LetterAt(x);
  }

  // ----- The format -----

  datatype Symbol = Code(x: Sextet) | Pad

  function Char(y: Symbol): char {
    if y.Pad? then '=' else B64[y.x]
  }

  function Spelled(ys: seq<Symbol>): string {
    seq(|ys|, i requires 0 <= i < |ys| => Char(ys[i]))
  }

  /** The six-bit groups of three bytes. */
  function Quad(b0: byte, b1: byte, b2: byte): (Sextet, Sextet, Sextet, Sextet) {
    (b0 / 4, b0 % 4 * 16 + b1 / 16, b1 % 16 * 4 + b2 / 64, b2 % 64)
  }

  function Rest(u: seq<byte>, i: nat): seq<byte> {
    if i <= |u| then u[i..] else []
  }

  /** Four symbols for the first three bytes; missing bytes count as 0 and are padded. */
  function Group(u: seq<byte>): (g: seq<Symbol>)
    requires u != []
    ensures |g| == 4
  {
    var q := Quad(u[0], if |u| > 1 then u[1] else 0, if |u| > 2 then u[2] else 0);
    [Code(q.0), Code(q.1), if |u| > 1 then Code(q.2) else Pad, if |u| > 2 then Code(q.3) else Pad]
  }

  function Symbols(u: seq<byte>): seq<Symbol>
    decreases |u|
  {
    if u == [] then [] else Group(u) + Symbols(Rest(u, 3))
  }

  function Encoded(u: seq<byte>): string {
    Spelled(Symbols(u))
  }

  lemma Thirds(n: nat)
    ensures 4 * ((n + 2) / 3) == if n == 0 then 0 else if n < 3 then 4 else 4 + 4 * ((n - 3 + 2) / 3)
  {
  }

  /** Four letters for every three bytes, the last group padded. */
  lemma {:induction false} EncodedLength(u: seq<byte>)
    ensures |Encoded(u)| == 4 * ((|u| + 2) / 3)
    decreases |u|
  {
    Thirds(|u|);
    if u != [] {
      EncodedLength(Rest(u, 3));
    }
  }

  lemma SpelledConcat(a: seq<Symbol>, b: seq<Symbol>)
    ensures Spelled(a + b) == Spelled(a) + Spelled(b)
  {
  }

  /** `u8ToB64`. */
  method U8ToB64(u8: seq<byte>) returns (out: string)
    ensures out == Encoded(u8)
  {
    out := "";
    var i: nat := 0;
    while i < |u8|
      invariant out + Spelled(Symbols(Rest(u8, i))) == Encoded(u8)
      decreases |u8| - i
    {
      ghost var rest := u8[i..];
      assert Rest(rest, 3) == Rest(u8, i + 3);
      SpelledConcat(Group(rest), Symbols(Rest(rest, 3)));
      Associative(out, Spelled(Group(rest)), Spelled(Symbols(Rest(u8, i + 3))));
      out := AddGroup(out, u8, i);
      i := i + 3;
    }
  }

  /** The letters of up to three bytes. */
  method AddGroup(out0: string, u8: seq<byte>, i: nat) returns (out: string)
    requires i < |u8|
    ensures out == out0 + Spelled(Group(u8[i..]))
  {
    var b0, b1, b2: byte := u8[i], if i + 1 < |u8| then u8[i + 1] else 0, if i + 2 < |u8| then u8[i + 2] else 0;
    var q := Quad(b0, b1, b2);
    out := out0 + [B64[q.0]];
    out := out + [B64[q.1]];
    out := out + [if i + 1 < |u8| then B64[q.2] else '='];
    out := out + [if i + 2 < |u8| then B64[q.3] else '='];
    assert Spelled(Group(u8[i..])) ==
      [B64[q.0], B64[q.1], if i + 1 < |u8| then B64[q.2] else '=', if i + 2 < |u8| then B64[q.3] else '='];
  }

  // ----- Decoding -----

  /** The string without trailing `=`. */
  function Clean(s: string): string {
    if s != "" && s[|s| - 1] == '=' then Clean(s[..|s| - 1]) else s
  }

  /** The six-bit groups of the first three bytes, without the padding. */
  function SextetGroup(u: seq<byte>): (q: seq<Sextet>)
    requires u != []
    ensures |q| == if |u| < 3 then |u| + 1 else 4
  {
    var q := Quad(u[0], if |u| > 1 then u[1] else 0, if |u| > 2 then u[2] else 0);
    [q.0, q.1] + (if |u| > 1 then [q.2] else []) + (if |u| > 2 then [q.3] else [])
  }

  function Sextets(u: seq<byte>): seq<Sextet>
    decreases |u|
  {
    if u == [] then [] else SextetGroup(u) + Sextets(Rest(u, 3))
  }

  function Codes(q: seq<Sextet>): seq<Symbol> {
    seq(|q|, i requires 0 <= i < |q| => Code(q[i]))
  }

  function Pads(n: nat): seq<Symbol> {
    seq(n, _ => Pad)
  }

  predicate Spells(s: string, q: seq<Sextet>) {
    s == Spelled(Codes(q))
  }

  lemma GroupCodes(u: seq<byte>)
    requires u != []
    ensures Group(u) == Codes(SextetGroup(u)) + Pads(4 - |SextetGroup(u)|)
  {
  }

  lemma CodesConcat(a: seq<Sextet>, b: seq<Sextet>, n: nat)
    ensures Codes(a) + (Codes(b) + Pads(n)) == Codes(a + b) + Pads(n)
  {
  }

  /** The symbols are the codes of the groups and then the padding. */
  lemma {:induction false} SymbolCodes(u: seq<byte>) returns (pad: nat)
    ensures Symbols(u) == Codes(Sextets(u)) + Pads(pad)
    decreases |u|
  {
    pad := 0;
    if u != [] {
      GroupCodes(u);
      pad := SymbolCodes(Rest(u, 3));
      if |u| < 3 {
        pad := 4 - |SextetGroup(u)|;
        assert Sextets(u) == SextetGroup(u) && Symbols(u) == Group(u);
      } else {
        assert Group(u) == Codes(SextetGroup(u));
        CodesConcat(SextetGroup(u), Sextets(Rest(u, 3)), pad);
      }
    }
  }

  lemma {:induction false} CleanSpelled(q: seq<Sextet>, pad: nat)
    ensures Clean(Spelled(Codes(q) + Pads(pad))) == Spelled(Codes(q))
    decreases pad
  {
    var s := Spelled(Codes(q) + Pads(pad));
    if pad > 0 {
      assert s[..|s| - 1] == Spelled(Codes(q) + Pads(pad - 1));
      CleanSpelled(q, pad - 1);
    } else {
      assert s == Spelled(Codes(q));
      if s != "" {
        IndexOfB64(q[|q| - 1]);
      }
    }
  }

  /** 32-bit two's complement, as bitwise operators compute it. */
  function Wrap(x: int): int {
    (x + 0x8000_0000) % 0x1_0000_0000 - 0x8000_0000
  }

  /** The byte that ends in the sextet at `i`. */
  function ByteAt(q: seq<Sextet>, i: nat): byte
    requires 0 < i < |q| && i % 4 != 0
  {
    var a: int, b: int := q[i - 1], q[i];
    if i % 4 == 1 then a * 4 + b / 16 else if i % 4 == 2 then a % 16 * 16 + b / 4 else a % 4 * 64 + b
  }

  /** How many bits are left over after `n` sextets, and what they are. */
  function LeftBits(n: nat): nat {
    if n % 4 == 0 then 0 else if n % 4 == 1 then 6 else if n % 4 == 2 then 4 else 2
  }

  lemma DivMod(w: int, d: nat, a: int, b: int)
    requires d == 1 || d == 4 || d == 16 || d == 64 || d == 256
    requires w == d * a + b && 0 <= b < d
    ensures w / d == a && w % d == b
  {
    if d == 1 {
    } else if d == 4 {
    } else if d == 16 {
    } else if d == 64 {
    } else {
    }
  }

  /** Shifting in one more sextet: the accumulator overflows, but its low bits are right. */
  lemma Accumulate(acc: int, x: int)
    requires 0 <= x < 64
    ensures var w := Wrap(acc * 64 + x);
      && w % 64 == x
      && w / 16 % 256 == acc % 64 * 4 + x / 16 && w % 16 == x % 16
      && w / 4 % 256 == acc % 16 * 16 + x / 4 && w % 4 == x % 4
      && w % 256 == acc % 4 * 64 + x
  {
    var y := acc * 64 + x;
    var k := (y + 0x8000_0000) / 0x1_0000_0000;
    var w := Wrap(y);
    assert w == y - k * 0x1_0000_0000;
    AccumulateLow(acc, x, w, k);
  }

  lemma AccumulateLow(acc: int, x: int, w: int, k: int)
    requires 0 <= x < 64 && w == acc * 64 + x - k * 0x1_0000_0000
    ensures w % 64 == x
    ensures w / 16 % 256 == acc % 64 * 4 + x / 16 && w % 16 == x % 16
    ensures w / 4 % 256 == acc % 16 * 16 + x / 4 && w % 4 == x % 4
    ensures w % 256 == acc % 4 * 64 + x
  {
    DivMod(w, 64, acc - k * 0x400_0000, x);
    LowBits(w, acc / 64 - k * 0x10_0000, 4096, acc % 64, x, 16);
    LowBits(w, acc / 16 - k * 0x40_0000, 1024, acc % 16, x, 4);
    LowBits(w, acc / 4 - k * 0x100_0000, 256, acc % 4, x, 1);
  }

  lemma LowBits(w: int, h: int, m: nat, r: int, x: int, d: nat)
    requires (m == 4096 && d == 16) || (m == 1024 && d == 4) || (m == 256 && d == 1)
    requires w == m * h + 64 * r + x && 0 <= x < 64 && 0 <= r && 64 * r < m
    ensures w / d % 256 == r * (64 / d) + x / d && w % d == x % d
  {
    var low := r * (64 / d) + x / d;
    DivMod(w, d, 256 * h + low, x % d);
    DivMod(256 * h + low, 256, h, low);
  }

  /** What is known of the accumulator after `i` sextets. */
  predicate AccIs(acc: int, q: seq<Sextet>, i: nat)
    requires i <= |q|
  {
    && (i % 4 == 1 ==> acc % 64 == q[i - 1])
    && (i % 4 == 2 ==> acc % 16 == q[i - 1] % 16)
    && (i % 4 == 3 ==> acc % 4 == q[i - 1] % 4)
  }

  /** How many bytes `n` sextets make. */
  function Bytes(n: nat): nat {
    n * 3 / 4
  }

  lemma NextSextet(acc: int, q: seq<Sextet>, i: nat)
    requires i < |q| && AccIs(acc, q, i)
    ensures var w := Shift(acc, q[i]);
      AccIs(w, q, i + 1) && (i % 4 != 0 ==> Shifted(w, LeftBits(i + 1)) == ByteAt(q, i))
  {
    Counts(i);
    Accumulate(acc, q[i]);
  }

  /** The bytes that a sequence of groups stands for. */
  function Decoded(q: seq<Sextet>, n: nat): (u: seq<byte>)
    requires n <= |q|
  {
    if n == 0 then []
    else if (n - 1) % 4 == 0 then Decoded(q, n - 1)
    else Decoded(q, n - 1) + [ByteAt(q, n - 1)]
  }

  /** `prefix` was decoded of the first `i` letters. */
  ghost predicate DecodedTo(clean: string, q: seq<Sextet>, i: nat, acc: int, prefix: seq<byte>) {
    i <= |clean| && (Spells(clean, q) ==> AccIs(acc, q, i) && prefix == Decoded(q, i))
  }

  lemma DecodeStep(clean: string, q: seq<Sextet>, i: nat, acc: int, prefix: seq<byte>)
    requires DecodedTo(clean, q, i, acc, prefix) && i < |clean|
    ensures var w, bits := Shift(acc, IndexOf(clean[i])), LeftBits(i) + 6;
      DecodedTo(clean, q, i + 1, w, if bits >= 8 then prefix + [Shifted(w, bits - 8)] else prefix)
  {
    Counts(i);
    if Spells(clean, q) {
      IndexOfB64(q[i]);
      NextSextet(acc, q, i);
    }
  }

  lemma BytesOf(g: nat, r: nat)
    requires r < 4
    ensures Bytes(4 * g + r) == 3 * g + r * 3 / 4
  {
    DivMod(12 * g + 3 * r, 4, 3 * g + r * 3 / 4, r * 3 % 4);
  }

  lemma Counts(i: nat)
    ensures if LeftBits(i) + 6 >= 8 then LeftBits(i + 1) == LeftBits(i) - 2 && Bytes(i + 1) == Bytes(i) + 1
            else LeftBits(i + 1) == LeftBits(i) + 6 && Bytes(i + 1) == Bytes(i)
  {
    var g, r := i / 4, i % 4;
    BytesOf(g, r);
    if r < 3 {
      DivMod(i + 1, 4, g, r + 1);
      BytesOf(g, r + 1);
    } else {
      DivMod(i + 1, 4, g + 1, 0);
      BytesOf(g + 1, 0);
    }
  }

  lemma BytesGrow(i: nat, n: nat)
    requires i <= n
    ensures Bytes(i) <= Bytes(n)
  {
  }

  /** `b64ToU8`.  Characters outside the alphabet set all bits, as `indexOf` gives -1. */
  method B64ToU8(s: string, ghost q: seq<Sextet>) returns (out: array<byte>)
    ensures fresh(out) && out.Length == Bytes(|Clean(s)|)
    ensures Spells(Clean(s), q) ==> out[..] == Decoded(q, |q|)
  {
    var clean := Clean(s);
    out := new byte[Bytes(|clean|)](_ => 0);
    var p: nat, acc, bits: nat := 0, 0, 0;
    for i := 0 to |clean|
      invariant p == Bytes(i) && bits == LeftBits(i) && p <= out.Length
      invariant DecodedTo(clean, q, i, acc, out[..p])
    {
      Counts(i);
      BytesGrow(i + 1, |clean|);
      DecodeStep(clean, q, i, acc, out[..p]);
      acc := Shift(acc, IndexOf(clean[i]));
      bits := bits + 6;
      if bits >= 8 {
        bits := bits - 8;
        ghost var before, b := out[..p], Shifted(acc, bits);
        out[p] := Shifted(acc, bits);
        p := p + 1;
        assert out[..p] == before + [b];
      }
    }
    assert out[..] == out[..p];
  }

  /** `acc << 6 | index`; -1 sets all bits. */
  function Shift(acc: int, index: int): int {
    if index == -1 then -1 else Wrap(acc * 64 + index)
  }

  /** `acc >> bits & 0xff`. */
  function Shifted(acc: int, bits: nat): byte
    requires bits == 0 || bits == 2 || bits == 4
  {
    if bits == 0 then acc % 256 else if bits == 2 then acc / 4 % 256 else acc / 16 % 256
  }

  // ----- The round trip -----

  lemma {:induction false} DecodedPrefix(q: seq<Sextet>, r: seq<Sextet>, n: nat)
    requires n <= |q| && n <= |r| && q[..n] == r[..n]
    ensures Decoded(q, n) == Decoded(r, n)
  {
    if n > 0 {
      assert q[n - 1] == q[..n][n - 1] == r[n - 1];
      assert n > 1 ==> q[n - 2] == q[..n][n - 2] == r[n - 2];
      assert q[..n - 1] == q[..n][..n - 1] && r[..n - 1] == r[..n][..n - 1];
      DecodedPrefix(q, r, n - 1);
    }
  }

  /** The groups of the bytes decode to the bytes. */
  lemma {:induction false} DecodedSuffix(a: seq<Sextet>, q: seq<Sextet>, n: nat)
    requires n <= |q| && |a| == 4
    ensures Decoded(a + q, 4 + n) == Decoded(a, 4) + Decoded(q, n)
  {
    if n == 0 {
      assert (a + q)[..4] == a[..4];
      DecodedPrefix(a + q, a, 4);
    } else {
      DecodedSuffix(a, q, n - 1);
      assert (n - 1) % 4 != 0 ==> ByteAt(a + q, 4 + n - 1) == ByteAt(q, n - 1);
    }
  }

  /** The bits of the bytes are all there. */
  lemma QuadBits(b0: int, b1: int, b2: int)
    requires 0 <= b0 < 256 && 0 <= b1 < 256 && 0 <= b2 < 256
    ensures b0 / 4 * 4 + (b0 % 4 * 16 + b1 / 16) / 16 == b0
    ensures (b0 % 4 * 16 + b1 / 16) % 16 * 16 + (b1 % 16 * 4 + b2 / 64) / 4 == b1
    ensures (b1 % 16 * 4 + b2 / 64) % 4 * 64 + b2 % 64 == b2
  {
    DivMod(b0 % 4 * 16 + b1 / 16, 16, b0 % 4, b1 / 16);
    DivMod(b1 % 16 * 4 + b2 / 64, 4, b1 % 16, b2 / 64);
  }

  lemma QuadDecoded(b0: byte, b1: byte, b2: byte)
    ensures var q := Quad(b0, b1, b2);
      Decoded([q.0, q.1, q.2, q.3], 4) == [b0, b1, b2]
  {
    var q := Quad(b0, b1, b2);
    var s := [q.0, q.1, q.2, q.3];
    QuadBits(b0, b1, b2);
    assert Decoded(s, 1) == [] && Decoded(s, 2) == [] + [ByteAt(s, 1)] &&
      Decoded(s, 3) == Decoded(s, 2) + [ByteAt(s, 2)];
  }

  lemma {:induction false} SextetsDecoded(u: seq<byte>)
    ensures Decoded(Sextets(u), |Sextets(u)|) == u
    decreases |u|
  {
    if |u| >= 3 {
      var q := Quad(u[0], u[1], u[2]);
      assert SextetGroup(u) == [q.0, q.1, q.2, q.3];
      SextetsDecoded(Rest(u, 3));
      DecodedSuffix(SextetGroup(u), Sextets(Rest(u, 3)), |Sextets(Rest(u, 3))|);
      QuadDecoded(u[0], u[1], u[2]);
      assert u == [u[0], u[1], u[2]] + Rest(u, 3);
    } else if u != [] {
      ShortDecoded(u);
    }
  }

  lemma ShortDecoded(u: seq<byte>)
    requires 0 < |u| < 3
    ensures Decoded(Sextets(u), |Sextets(u)|) == u
  {
    var s := SextetGroup(u);
    assert Rest(u, 3) == [] && Sextets(u) == s + [] == s;
    QuadBits(u[0], if |u| > 1 then u[1] else 0, 0);
    DecodedNext(s, 1);
    DecodedNext(s, 2);
    if |u| == 2 {
      DecodedNext(s, 3);
    }
  }

  lemma DecodedNext(q: seq<Sextet>, n: nat)
    requires 0 < n <= |q|
    ensures Decoded(q, n) == Decoded(q, n - 1) + if (n - 1) % 4 == 0 then [] else [ByteAt(q, n - 1)]
    ensures Decoded(q, 0) == []
  {
  }

  /** Decoding the encoding of any bytes gives the bytes. */
  lemma RoundTrip(u: seq<byte>)
    ensures Spells(Clean(Encoded(u)), Sextets(u)) && Decoded(Sextets(u), |Sextets(u)|) == u
  {
    var pad := SymbolCodes(u);
    CleanSpelled(Sextets(u), pad);
    SextetsDecoded(u);
  }
}
