/** Bytes in a buffer: little-endian numbers, zero-terminated strings, and where things are. */
module Bytes {
  import opened Arithmetic
  import opened Options

  type Byte = b: int | 0 <= b < 256

  function Zeros(n: nat): (z: seq<Byte>)
    ensures |z| == n
  {
    seq(n, _ => 0)
  }

  /** Masking the low bits away, which for powers of two is this. */
  function AlignUp(value: nat, alignment: nat): (r: nat)
    requires alignment > 0
    ensures value <= r < value + alignment && r % alignment == 0
  {
    RoundedDown(value + alignment - 1, alignment);
    value + alignment - 1 - (value + alignment - 1) % alignment
  }

  // ----- numbers -----

  function Range(width: nat): (r: nat)
    ensures r > 0
  {
    if width == 0 then 1 else 256 * Range(width - 1)
  }

  /** The low `width` bytes of a number, lowest first. */
  function LittleEndian(n: nat, width: nat): (bytes: seq<Byte>)
    ensures |bytes| == width
  {
    if width == 0 then [] else [n % 256] + LittleEndian(n / 256, width - 1)
  }

  function Number(bytes: seq<Byte>): nat {
    if bytes == [] then 0 else bytes[0] + 256 * Number(bytes[1..])
  }

  lemma {:induction false} NumberReadsBack(n: nat, width: nat)
    requires n < Range(width)
    ensures Number(LittleEndian(n, width)) == n
    decreases width
  {
    if width > 0 {
      assert LittleEndian(n, width)[1..] == LittleEndian(n / 256, width - 1);
      NumberReadsBack(n / 256, width - 1);
    }
  }

  lemma {:induction false} ZeroInBytes(width: nat)
    ensures LittleEndian(0, width) == Zeros(width)
    decreases width
  {
    if width > 0 {
      ZeroInBytes(width - 1);
    }
  }

  // ----- places -----

  predicate At(buffer: seq<Byte>, pos: nat, bytes: seq<Byte>) {
    pos + |bytes| <= |buffer| && buffer[pos..pos + |bytes|] == bytes
  }

  lemma AtConcat(buffer: seq<Byte>, pos: nat, a: seq<Byte>, b: seq<Byte>)
    requires At(buffer, pos, a + b)
    ensures At(buffer, pos, a) && At(buffer, pos + |a|, b)
  {
    assert buffer[pos..pos + |a|] == (a + b)[..|a|];
    assert buffer[pos + |a|..pos + |a| + |b|] == (a + b)[|a|..];
  }

  lemma AtThree(buffer: seq<Byte>, pos: nat, a: seq<Byte>, b: seq<Byte>, c: seq<Byte>)
    requires At(buffer, pos, a + b + c)
    ensures At(buffer, pos, a) && At(buffer, pos + |a|, b) && At(buffer, pos + |a| + |b|, c)
  {
    AtConcat(buffer, pos, a + b, c);
    AtConcat(buffer, pos, a, b);
  }

  lemma AtMiddle(a: seq<Byte>, b: seq<Byte>, c: seq<Byte>)
    ensures At(a + b + c, |a|, b)
  {
    assert (a + b + c)[|a|..|a| + |b|] == b;
  }

  function ReadNumber(buffer: seq<Byte>, pos: nat, width: nat): Option<nat> {
    if pos + width <= |buffer| then Some(Number(buffer[pos..pos + width])) else None
  }

  lemma ReadsNumber(buffer: seq<Byte>, pos: nat, n: nat, width: nat)
    requires At(buffer, pos, LittleEndian(n, width)) && n < Range(width)
    ensures ReadNumber(buffer, pos, width) == Some(n)
  {
    NumberReadsBack(n, width);
  }

  /** The bytes up to the next zero. */
  function ReadString(buffer: seq<Byte>, pos: nat): Option<seq<Byte>>
    decreases |buffer| - pos
  {
    if pos >= |buffer| then None
    else if buffer[pos] == 0 then Some([])
    else
      var rest := ReadString(buffer, pos + 1);
      if rest.None? then None else Some([buffer[pos]] + rest.value)
  }

  predicate NulFree(s: seq<Byte>) {
    forall i :: 0 <= i < |s| ==> s[i] != 0
  }

  lemma {:induction false} ReadsString(buffer: seq<Byte>, pos: nat, s: seq<Byte>)
    requires At(buffer, pos, s + [0]) && NulFree(s)
    ensures ReadString(buffer, pos) == Some(s)
    decreases |s|
  {
    assert buffer[pos] == buffer[pos..pos + |s| + 1][0] == (s + [0])[0];
    if s != [] {
      assert s + [0] == [s[0]] + (s[1..] + [0]);
      AtConcat(buffer, pos, [s[0]], s[1..] + [0]);
      ReadsString(buffer, pos + 1, s[1..]);
      assert s == [s[0]] + s[1..];
    }
  }

  // ----- writing -----

  /** A buffer grown with zeros to at least this size. */
  function Grown(buffer: seq<Byte>, size: nat): (g: seq<Byte>)
    ensures |g| >= size && |g| >= |buffer|
  {
    if |buffer| < size then buffer + Zeros(size - |buffer|) else buffer
  }

  /** Bytes written over a buffer that grows where it must. */
  function Written(buffer: seq<Byte>, pos: nat, bytes: seq<Byte>): seq<Byte> {
    var grown := Grown(buffer, pos + |bytes|);
    grown[..pos] + bytes + grown[pos + |bytes|..]
  }

  /** Writing the next bytes of a region that is still zero. */
  lemma WritesNext(before: seq<Byte>, bytes: seq<Byte>, left: nat, after: seq<Byte>)
    requires |bytes| <= left
    ensures Written(before + Zeros(left) + after, |before|, bytes) == before + bytes + Zeros(left - |bytes|) + after
  {
  }

  /** Writing at the end, possibly behind a gap. */
  lemma WritesEnd(buffer: seq<Byte>, pos: nat, bytes: seq<Byte>)
    requires |buffer| <= pos
    ensures Written(buffer, pos, bytes) == buffer + Zeros(pos - |buffer|) + bytes
  {
  }
}
