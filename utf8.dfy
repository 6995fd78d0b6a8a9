/**
 * Bytes and Python's `str.encode()` (UTF-8), used to build the byte patterns
 * that the reverse proxy substitutes in response bodies.
 */
module Utf8 {

  import opened Wrappers

  newtype byte = x: int | 0 <= x < 0x100

  /** The UTF-8 encoding of one Unicode scalar value. */
  function EncodeChar(c: char): (bs: seq<byte>)
    ensures 1 <= |bs| <= 4
    ensures |bs| == 1 <==> c as int < 0x80
  {
    var n := c as int;
    if n < 0x80 then
      [n as byte]
    else if n < 0x800 then
      [(0xC0 + n / 0x40) as byte, (0x80 + n % 0x40) as byte]
    else if n < 0x1_0000 then
      [(0xE0 + n / 0x1000) as byte, (0x80 + n / 0x40 % 0x40) as byte, (0x80 + n % 0x40) as byte]
    else
      [(0xF0 + n / 0x4_0000) as byte, (0x80 + n / 0x1000 % 0x40) as byte,
       (0x80 + n / 0x40 % 0x40) as byte, (0x80 + n % 0x40) as byte]
  }

  /** `s.encode()`: the concatenated encodings of the characters of `s`. */
  function Encode(s: string): (bs: seq<byte>)
    ensures |s| <= |bs| <= 4 * |s|
  {
    if s == [] then [] else EncodeChar(s[0]) + Encode(s[1..])
  }

  /**
   * Reads the code point at the front of `bs`, the length of its encoding
   * telling by the lead byte; the reference decoder against which the
   * encoder is checked.
   */
  function DecodeFirst(bs: seq<byte>): Option<(int, nat)>
  {
    if |bs| == 0 then None
    else if bs[0] < 0x80 then Some((bs[0] as int, 1))
    else if bs[0] < 0xE0 then
      if |bs| < 2 then None
      else Some(((bs[0] as int - 0xC0) * 0x40 + (bs[1] as int - 0x80), 2))
    else if bs[0] < 0xF0 then
      if |bs| < 3 then None
      else Some(((bs[0] as int - 0xE0) * 0x1000 + (bs[1] as int - 0x80) * 0x40
                 + (bs[2] as int - 0x80), 3))
    else
      if |bs| < 4 then None
      else Some(((bs[0] as int - 0xF0) * 0x4_0000 + (bs[1] as int - 0x80) * 0x1000
                 + (bs[2] as int - 0x80) * 0x40 + (bs[3] as int - 0x80), 4))
  }

  lemma FourByteSplit(n: int)
    requires 0x1_0000 <= n < 0x11_0000
    ensures (n / 0x4_0000) * 0x4_0000 + (n / 0x1000 % 0x40) * 0x1000
            + (n / 0x40 % 0x40) * 0x40 + n % 0x40 == n
  {
    var q := n / 0x40;
    assert q * 0x40 + n % 0x40 == n;
    var q2 := q / 0x40;
    assert q2 * 0x40 + q % 0x40 == q;
    assert q2 == n / 0x1000;
    var q3 := q2 / 0x40;
    assert q3 * 0x40 + q2 % 0x40 == q2;
    assert q3 == n / 0x4_0000;
  }

  lemma ThreeByteSplit(n: int)
    requires 0x800 <= n < 0x1_0000
    ensures (n / 0x1000) * 0x1000 + (n / 0x40 % 0x40) * 0x40 + n % 0x40 == n
  {
    var q := n / 0x40;
    assert q * 0x40 + n % 0x40 == n;
    assert (q / 0x40) * 0x40 + q % 0x40 == q;
    assert q / 0x40 == n / 0x1000;
  }

  /** Decoding the encoding of `c`, whatever follows it, gives `c` back. */
  lemma DecodeEncodeChar(c: char, rest: seq<byte>)
    ensures DecodeFirst(EncodeChar(c) + rest) == Some((c as int, |EncodeChar(c)|))
  {
    var n := c as int;
    assert n < 0x11_0000;
    if 0x800 <= n < 0x1_0000 {
      ThreeByteSplit(n);
    } else if 0x1_0000 <= n {
      FourByteSplit(n);
    }
  }

  /** Distinct strings have distinct encodings. */
  lemma {:induction false} EncodeInjective(s: string, t: string)
    requires Encode(s) == Encode(t)
    ensures s == t
    decreases |s|
  {
    if s != [] && t != [] {
      var bs := Encode(s);
      DecodeEncodeChar(s[0], Encode(s[1..]));
      DecodeEncodeChar(t[0], Encode(t[1..]));
      assert s[0] as int == t[0] as int;
      var k := |EncodeChar(s[0])|;
      assert Encode(s[1..]) == bs[k..] == Encode(t[1..]);
      EncodeInjective(s[1..], t[1..]);
    }
  }

  /** Encoding distributes over concatenation. */
  lemma {:induction false} EncodeAppend(s: string, t: string)
    ensures Encode(s + t) == Encode(s) + Encode(t)
    decreases |s|
  {
    if s == [] {
      assert s + t == t;
    } else {
      assert (s + t)[0] == s[0] && (s + t)[1..] == s[1..] + t;
      EncodeAppend(s[1..], t);
    }
  }
}
