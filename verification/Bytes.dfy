/** Byte buffers: little-endian 32-bit integers and NUL-terminated text. */
module Bytes {
  import opened Seqs

  type Byte = c: char | c as int < 256

  type Bytes = seq<Byte>

  const NUL: Byte := '\0'
  const INT_MOD := 0x1_0000_0000

  /** Text that a C string can hold. */
  predicate NoNul(s: Bytes) { NUL !in s }

  type CText = s: Bytes | NoNul(s)

  /** The value of the low 32 bits, as a signed int. */
  function Wrap(v: int): int {
    var u := v % INT_MOD;
    if u >= INT_MOD / 2 then u - INT_MOD else u
  }

  predicate IsInt32(v: int) { -0x8000_0000 <= v < 0x8000_0000 }

  function ByteOf(n: int): Byte
    requires 0 <= n < 256
  {
    n as char
  }

  /** The bytes memcpy takes from an int. */
  function Le(v: int): (b: Bytes)
    ensures |b| == 4
  {
    var u := v % INT_MOD;
    [ByteOf(u % 256), ByteOf(u / 256 % 256), ByteOf(u / 256 / 256 % 256), ByteOf(u / 256 / 256 / 256)]
  }

  /** The int memcpy makes of four bytes. */
  function ReadInt(b: Bytes): int
    requires |b| >= 4
  {
    Wrap(b[0] as int + 256 * b[1] as int + 65536 * b[2] as int + 16777216 * b[3] as int)
  }

  lemma WrapTwice(v: int)
    ensures IsInt32(v) ==> Wrap(v) == v
    ensures IsInt32(Wrap(v)) && Wrap(Wrap(v)) == Wrap(v) && Wrap(v % INT_MOD) == Wrap(v)
  {
  }

  lemma WrapIs(v: int)
    ensures (Wrap(v) - v) % INT_MOD == 0
  {
    var u := v % INT_MOD;
    assert v == INT_MOD * (v / INT_MOD) + u;
    if u >= INT_MOD / 2 {
      assert Wrap(v) - v == INT_MOD * (-(v / INT_MOD) - 1);
    } else {
      assert Wrap(v) - v == INT_MOD * (-(v / INT_MOD));
    }
    Multiple(v / INT_MOD);
  }

  lemma Multiple(k: int)
    ensures (INT_MOD * -k) % INT_MOD == 0 && (INT_MOD * (-k - 1)) % INT_MOD == 0
  {
  }

  lemma Digits(u: int)
    requires 0 <= u < INT_MOD
    ensures u == u % 256 + 256 * (u / 256 % 256) + 65536 * (u / 256 / 256 % 256) + 16777216 * (u / 256 / 256 / 256)
  {
  }

  lemma ReadLe(v: int, rest: Bytes)
    ensures ReadInt(Le(v) + rest) == Wrap(v)
    ensures (Le(v) + rest)[4..] == rest
  {
    Digits(v % INT_MOD);
    WrapTwice(v);
  }

  /** The C string at the start of `b`, if `b` holds its terminator. */
  function ReadText(b: Bytes): (r: Option<CText>)
    ensures r.Some? ==> |r.value| < |b|
  {
    if b == [] then None
    else if b[0] == NUL then Some([])
    else
      var rest := ReadText(b[1..]);
      if rest.None? then None else Some([b[0]] + rest.value)
  }

  lemma {:induction false} ReadTextBack(s: CText, rest: Bytes)
    ensures ReadText(s + [NUL] + rest) == Some(s)
    ensures (s + [NUL] + rest)[|s| + 1..] == rest
  {
    var b := s + [NUL] + rest;
    assert b == (s + [NUL]) + rest;
    if s == [] {
      assert b == [NUL] + rest;
    } else {
      assert NoNul(s[1..]);
      ReadTextBack(s[1..], rest);
      assert b[1..] == s[1..] + [NUL] + rest;
      assert b[0] == s[0] && s[0] in s && [s[0]] + s[1..] == s;
    }
  }

  lemma {:induction false} ReadTextIsThere(b: Bytes)
    ensures var r := ReadText(b);
            && (r.Some? ==> b[|r.value|] == NUL && b[..|r.value|] == r.value)
            && (r.None? <==> NoNul(b))
  {
    if b != [] && b[0] != NUL {
      ReadTextIsThere(b[1..]);
      assert b == [b[0]] + b[1..];
    }
  }
}
