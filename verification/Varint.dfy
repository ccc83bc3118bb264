/** Byte buffers, and integers of variable length, in `lib0`. */
module Varint {
  import opened Common

  type byte = x: int | 0 <= x < 256 witness 0

  const MAX_SAFE_INTEGER: nat := 0x1F_FFFF_FFFF_FFFF

  datatype Error = UnexpectedEndOfArray | IntegerOutOfRange

  datatype Result<+T> = Ok(value: T) | Err(error: Error)

  /** A number with a sign of its own: JavaScript tells -0 from 0. */
  datatype Signed = Signed(negative: bool, magnitude: nat)

  // ----- The format -----

  /** Seven bits in each byte, the lowest first; the eighth says that more follow. */
  function VarUint(n: nat): (s: seq<byte>)
    ensures s != []
  {
    if n > 127 then [128 + n % 128] + VarUint(n / 128) else [n]
  }

  /** The bytes after the first one. */
  function VarIntTail(n: nat): seq<byte> {
    if n == 0 then [] else [(if n > 127 then 128 else 0) + n % 128] + VarIntTail(n / 128)
  }

  /** The first byte has the sign and six bits. */
  function VarInt(x: Signed): (s: seq<byte>)
    ensures s != []
  {
    [(if x.magnitude > 63 then 128 else 0) + (if x.negative then 64 else 0) + x.magnitude % 64] +
      VarIntTail(x.magnitude / 64)
  }

  /** `readVarUint`: the value, and how many bytes were read.  `num` was read already. */
  function DecodeVarUint(s: seq<byte>, num: nat, mult: nat): Result<(nat, nat)> {
    if s == [] then Err(UnexpectedEndOfArray)
    else
      var n := num + s[0] % 128 * mult;
      if s[0] < 128 then Ok((n, 1))
      else if n > MAX_SAFE_INTEGER then Err(IntegerOutOfRange)
      else
        var r := DecodeVarUint(s[1..], n, mult * 128);
        if r.Ok? then Ok((r.value.0, r.value.1 + 1)) else r
  }

  /** `readVarInt`; past the end of the array it reads 0. */
  function DecodeVarInt(s: seq<byte>): Result<(Signed, nat)> {
    var r := if s == [] then 0 else s[0];
    var negative := r / 64 % 2 == 1;
    if r < 128 then Ok((Signed(negative, r % 64), 1))
    else
      var rest := DecodeVarUint(s[1..], r % 64, 64);
      if rest.Ok? then Ok((Signed(negative, rest.value.0), rest.value.1 + 1)) else Err(rest.error)
  }

  lemma Digits(n: nat, mult: nat)
    ensures n % 128 * mult + n / 128 * (mult * 128) == n * mult
    ensures n % 128 * mult <= n * mult
  {
    var q, r := n / 128, n % 128;
    assert n == 128 * q + r;
    assert q * (mult * 128) == 128 * q * mult;
    assert (128 * q + r) * mult == 128 * q * mult + r * mult;
  }

  /** Every integer up to 2^53 - 1 is read back, whatever follows it. */
  lemma {:induction false} VarUintRead(n: nat, rest: seq<byte>, num: nat, mult: nat)
    requires num + n * mult <= MAX_SAFE_INTEGER
    ensures DecodeVarUint(VarUint(n) + rest, num, mult) == Ok((num + n * mult, |VarUint(n)|))
    decreases n
  {
    var s := VarUint(n) + rest;
    Digits(n, mult);
    if n > 127 {
      assert s[0] % 128 == n % 128;
      assert s[1..] == VarUint(n / 128) + rest;
      VarUintRead(n / 128, rest, num + n % 128 * mult, mult * 128);
    }
  }

  lemma {:induction false} TailRead(n: nat, rest: seq<byte>, num: nat, mult: nat)
    requires n > 0 && num + n * mult <= MAX_SAFE_INTEGER
    ensures DecodeVarUint(VarIntTail(n) + rest, num, mult) == Ok((num + n * mult, |VarIntTail(n)|))
    decreases n
  {
    var s := VarIntTail(n) + rest;
    Digits(n, mult);
    if n > 127 {
      assert s[0] % 128 == n % 128;
      assert s[1..] == VarIntTail(n / 128) + rest;
      TailRead(n / 128, rest, num + n % 128 * mult, mult * 128);
    } else {
      assert VarIntTail(n / 128) == [];
    }
  }

  /** Every signed integer of that size is read back, -0 included. */
  lemma VarIntRead(x: Signed, rest: seq<byte>)
    requires x.magnitude <= MAX_SAFE_INTEGER
    ensures DecodeVarInt(VarInt(x) + rest) == Ok((x, |VarInt(x)|))
  {
    var s := VarInt(x) + rest;
    assert s[1..] == VarIntTail(x.magnitude / 64) + rest;
    if x.magnitude > 63 {
      TailRead(x.magnitude / 64, rest, x.magnitude % 64, 64);
    }
  }

  // ----- The encoder -----

  function Joined(bufs: seq<seq<byte>>): (s: seq<byte>) {
    if bufs == [] then [] else Joined(bufs[..|bufs| - 1]) + bufs[|bufs| - 1]
  }

  lemma JoinedNext(bufs: seq<seq<byte>>, b: seq<byte>)
    ensures Joined(bufs + [b]) == Joined(bufs) + b
  {
    assert (bufs + [b])[..|bufs|] == bufs;
  }

  /** A list of full buffers and one that is being filled. */
  class Encoder {
    var cpos: nat
    var cbuf: array<byte>
    var bufs: seq<seq<byte>>

    ghost predicate Valid()
      reads this, cbuf
    {
      cpos <= cbuf.Length && cbuf.Length > 0
    }

    /** Everything that was written. */
    ghost function Contents(): seq<byte>
      requires Valid()
      reads this, cbuf
    {
      Joined(bufs) + cbuf[..cpos]
    }

    constructor ()
      ensures Valid() && fresh(cbuf) && Contents() == []
    {
      cpos, cbuf, bufs := 0, new byte[100](_ => 0), [];
    }

    /** Puts the written part of the buffer aside and begins a new one. */
    method NextBuffer(size: nat)
      requires Valid() && size > 0
      modifies this
      ensures Valid() && fresh(cbuf) && cbuf.Length == size && cpos == 0 && Contents() == old(Contents())
    {
      JoinedNext(bufs, cbuf[..cpos]);
      bufs := bufs + [cbuf[..cpos]];
      cbuf := new byte[size](_ => 0);
      cpos := 0;
    }

    /** Makes room for `len` bytes. */
    method VerifyLen(len: nat)
      requires Valid()
      modifies this
      ensures Valid() && (cbuf == old(cbuf) || fresh(cbuf)) && Contents() == old(Contents())
      ensures cbuf.Length - cpos >= len
    {
      var bufferLen := cbuf.Length;
      if bufferLen - cpos < len {
        NextBuffer(Max(bufferLen, len) * 2);
      }
    }

    method Write(num: byte)
      requires Valid()
      modifies this, cbuf
      ensures Valid() && (cbuf == old(cbuf) || fresh(cbuf)) && Contents() == old(Contents()) + [num]
    {
      var bufferLen := cbuf.Length;
      if cpos == bufferLen {
        NextBuffer(bufferLen * 2);
      }
      Put([num]);
    }

    /** Appends bytes for which the buffer has room. */
    method Put(source: seq<byte>)
      requires Valid() && cpos + |source| <= cbuf.Length
      modifies this`cpos, cbuf
      ensures Valid() && cpos == old(cpos) + |source| && Contents() == old(Contents()) + source
    {
      ghost var joined, before := Joined(bufs), cbuf[..cpos];
      CopyTo(cbuf, source, cpos);
      cpos := cpos + |source|;
      assert joined + (before + source) == (joined + before) + source;
    }

    method WriteUint8Array(uint8Array: seq<byte>)
      requires Valid()
      modifies this, cbuf
      ensures Valid() && (cbuf == old(cbuf) || fresh(cbuf)) && Contents() == old(Contents()) + uint8Array
    {
      var bufferLen := cbuf.Length;
      var leftCopyLen := Min(bufferLen - cpos, |uint8Array|);
      var rightCopyLen := |uint8Array| - leftCopyLen;
      Put(uint8Array[..leftCopyLen]);
      if rightCopyLen > 0 {
        NextBuffer(Max(bufferLen * 2, rightCopyLen));
        Put(uint8Array[leftCopyLen..]);
      }
      assert uint8Array == uint8Array[..leftCopyLen] + uint8Array[leftCopyLen..];
    }

    method WriteVarUint(num0: nat)
      requires Valid()
      modifies this, cbuf
      ensures Valid() && (cbuf == old(cbuf) || fresh(cbuf)) && Contents() == old(Contents()) + VarUint(num0)
    {
      var num := num0;
      while num > 127
        invariant Valid() && (cbuf == old(cbuf) || fresh(cbuf))
        invariant Contents() + VarUint(num) == old(Contents()) + VarUint(num0)
        decreases num
      {
        ghost var c := Contents();
        Write(128 + num % 128);
        assert c + VarUint(num) == (c + [128 + num % 128]) + VarUint(num / 128);
        num := num / 128;
      }
      Write(num);
    }

    method WriteVarInt(x: Signed)
      requires Valid()
      modifies this, cbuf
      ensures Valid() && (cbuf == old(cbuf) || fresh(cbuf)) && Contents() == old(Contents()) + VarInt(x)
    {
      var num := x.magnitude;
      ghost var c := Contents();
      Write((if num > 63 then 128 else 0) + (if x.negative then 64 else 0) + num % 64);
      num := num / 64;
      assert Contents() + VarIntTail(num) == c + VarInt(x);
      while num > 0
        invariant Valid() && (cbuf == old(cbuf) || fresh(cbuf)) && Contents() + VarIntTail(num) == c + VarInt(x)
        decreases num
      {
        ghost var d := Contents();
        var b: byte := (if num > 127 then 128 else 0) + num % 128;
        Write(b);
        assert d + VarIntTail(num) == (d + [b]) + VarIntTail(num / 128);
        num := num / 128;
      }
    }

    /** `toUint8Array`. */
    method ToUint8Array() returns (r: array<byte>)
      requires Valid()
      ensures fresh(r) && r[..] == Contents()
    {
      var len := Length();
      r := new byte[len](_ => 0);
      var curPos := 0;
      for i := 0 to |bufs|
        invariant curPos == |Joined(bufs[..i])| <= r.Length && r[..curPos] == Joined(bufs[..i])
        invariant r.Length == |Contents()|
      {
        JoinedNext(bufs[..i], bufs[i]);
        assert bufs[..i + 1] == bufs[..i] + [bufs[i]];
        JoinedPrefix(bufs, i + 1);
        CopyTo(r, bufs[i], curPos);
        curPos := curPos + |bufs[i]|;
      }
      assert bufs[..|bufs|] == bufs;
      CopyTo(r, cbuf[..cpos], curPos);
      assert r[..] == r[..curPos + cpos];
    }

    method Length() returns (len: nat)
      requires Valid()
      ensures len == |Contents()|
    {
      len := cpos;
      for i := 0 to |bufs|
        invariant len == cpos + |Joined(bufs[..i])|
      {
        assert bufs[..i + 1] == bufs[..i] + [bufs[i]];
        JoinedNext(bufs[..i], bufs[i]);
        len := len + |bufs[i]|;
      }
      assert bufs[..|bufs|] == bufs;
    }
  }

  lemma {:induction false} JoinedPrefix(bufs: seq<seq<byte>>, i: nat)
    requires i <= |bufs|
    ensures |Joined(bufs[..i])| <= |Joined(bufs)|
    decreases |bufs|
  {
    if i < |bufs| {
      JoinedPrefix(bufs[..|bufs| - 1], i);
      assert bufs[..|bufs| - 1][..i] == bufs[..i];
    } else {
      assert bufs[..i] == bufs;
    }
  }

  method CopyTo(r: array<byte>, source: seq<byte>, to: nat)
    requires to + |source| <= r.Length
    modifies r
    ensures r[..to + |source|] == old(r[..to]) + source
  {
    for i := 0 to |source|
      invariant r[..to + i] == old(r[..to]) + source[..i]
    {
      r[to + i] := source[i];
    }
  }

  // ----- The decoder -----

  function Drop(s: seq<byte>, n: nat): seq<byte> {
    if n <= |s| then s[n..] else []
  }

  class Decoder {
    const arr: seq<byte>
    var pos: nat

    constructor (arr: seq<byte>)
      ensures this.arr == arr && pos == 0
    {
      this.arr, pos := arr, 0;
    }

    /** What is left to read; nothing past the end of the array. */
    ghost function Left(): seq<byte>
      reads this
    {
      if pos <= |arr| then arr[pos..] else []
    }

    method ReadVarUint() returns (r: Result<nat>)
      modifies this
      ensures var s := DecodeVarUint(old(Left()), 0, 1);
        if s.Ok? then r == Ok(s.value.0) && Left() == Drop(old(Left()), s.value.1) else r == Err(s.error)
    {
      r := ReadMore(0, 1);
    }

    /** The loop that both readers share. */
    method ReadMore(num0: nat, mult0: nat) returns (r: Result<nat>)
      modifies this
      ensures var s := DecodeVarUint(old(Left()), num0, mult0);
        if s.Ok? then r == Ok(s.value.0) && Left() == Drop(old(Left()), s.value.1) else r == Err(s.error)
    {
      var num: nat, mult: nat := num0, mult0;
      var len := |arr|;
      ghost var whole, n: nat := DecodeVarUint(Left(), num, mult), 0;
      while pos < len
        invariant Left() == Drop(old(Left()), n)
        invariant var s := DecodeVarUint(Left(), num, mult);
          if whole.Ok? then s.Ok? && s.value.0 == whole.value.0 && s.value.1 + n == whole.value.1 else s == whole
        decreases len - pos
      {
        var b := arr[pos];
        assert Left()[0] == b && Left()[1..] == arr[pos + 1..];
        pos, n := pos + 1, n + 1;
        num := num + b % 128 * mult;
        mult := mult * 128;
        if b < 128 {
          return Ok(num);
        }
        if num > MAX_SAFE_INTEGER {
          return Err(IntegerOutOfRange);
        }
      }
      return Err(UnexpectedEndOfArray);
    }

    method ReadVarInt() returns (r: Result<Signed>)
      modifies this
      ensures var s := DecodeVarInt(old(Left()));
        if s.Ok? then r == Ok(s.value.0) && Left() == Drop(old(Left()), s.value.1) else r == Err(s.error)
    {
      var b := if pos < |arr| then arr[pos] else 0;
      assert pos < |arr| ==> Left()[0] == b && Left()[1..] == arr[pos + 1..];
      pos := pos + 1;
      var num, negative := b % 64, b / 64 % 2 == 1;
      if b < 128 {
        return Ok(Signed(negative, num));
      }
      var rest := ReadMore(num, 64);
      return if rest.Ok? then Ok(Signed(negative, rest.value)) else Err(rest.error);
    }
  }
}
