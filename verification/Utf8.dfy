/** UTF-8 over Unicode scalar values, and the proof that the encoding is injective. */
module Utf8 {
  import opened Wrappers

  type Byte = b: int | 0 <= b < 256

  function EncodeChar(c: char): (bytes: seq<Byte>)
    ensures 1 <= |bytes| <= 4
  {
    var n := c as int;
    if n < 0x80 then [n]
    else if n < 0x800 then [0xC0 + n / 0x40, 0x80 + n % 0x40]
    else if n < 0x10000 then [0xE0 + n / 0x1000, 0x80 + n / 0x40 % 0x40, 0x80 + n % 0x40]
    else [0xF0 + n / 0x40000, 0x80 + n / 0x1000 % 0x40, 0x80 + n / 0x40 % 0x40, 0x80 + n % 0x40]
  }

  function Encode(s: string): seq<Byte> {
    if s == [] then [] else EncodeChar(s[0]) + Encode(s[1..])
  }

  // ----- a decoder of its own (section 3 of RFC 3629) ---------------------------------------------

  predicate Continues(b: Byte) {
    0x80 <= b <= 0xBF
  }

  /** What a byte carries above its marker. */
  function Carried(b: Byte, marker: int): int {
    var n: int := b;
    n - marker
  }

  /** A scalar value: no surrogate, and not beyond the last plane. */
  function Scalar(n: int): Option<char> {
    if 0 <= n < 0xD800 || 0xE000 <= n < 0x11_0000 then Some(n as char) else None
  }

  function DecodeChar(b: seq<Byte>): Option<char> {
    if |b| == 1 && b[0] <= 0x7F then Scalar(b[0])
    else if |b| == 2 && 0xC2 <= b[0] <= 0xDF && Continues(b[1]) then
      Scalar(Carried(b[0], 0xC0) * 64 + Carried(b[1], 0x80))
    else if |b| == 3 && 0xE0 <= b[0] <= 0xEF && Continues(b[1]) && Continues(b[2]) then
      Scalar(Carried(b[0], 0xE0) * 4096 + Carried(b[1], 0x80) * 64 + Carried(b[2], 0x80))
    else if |b| == 4 && 0xF0 <= b[0] <= 0xF4 && Continues(b[1]) && Continues(b[2]) && Continues(b[3]) then
      Scalar(Carried(b[0], 0xF0) * 262144 + Carried(b[1], 0x80) * 4096 + Carried(b[2], 0x80) * 64 + Carried(b[3], 0x80))
    else None
  }

  /** How many bytes the first one announces. */
  function Announced(b: Byte): nat {
    if b <= 0x7F then 1 else if b <= 0xDF then 2 else if b <= 0xEF then 3 else 4
  }

  function Decode(bytes: seq<Byte>): Option<string>
    decreases |bytes|
  {
    if bytes == [] then Some("")
    else
      var n := Announced(bytes[0]);
      if n > |bytes| then None
      else
        match (DecodeChar(bytes[..n]), Decode(bytes[n..]))
        case (Some(c), Some(s)) => Some([c] + s)
        case _ => None
  }

  lemma CharDecodes(c: char)
    ensures DecodeChar(EncodeChar(c)) == Some(c) && Announced(EncodeChar(c)[0]) == |EncodeChar(c)|
  {
    var n := c as int;
    Split(n);
  }

  /** What is encoded is decoded again. */
  lemma {:induction false} DecodesBack(s: string)
    ensures Decode(Encode(s)) == Some(s)
  {
    if s != [] {
      var e, more := EncodeChar(s[0]), Encode(s[1..]);
      CharDecodes(s[0]);
      DecodesBack(s[1..]);
      assert (e + more)[..|e|] == e && (e + more)[|e|..] == more;
      assert [s[0]] + s[1..] == s;
    }
  }

  /** The first byte settles the length. */
  lemma LeadByte(c: char)
    ensures var e := EncodeChar(c);
            |e| == if e[0] < 0x80 then 1 else if e[0] < 0xE0 then 2 else if e[0] < 0xF0 then 3 else 4
  {
  }

  lemma EncodeCharInjective(c: char, d: char)
    requires EncodeChar(c) == EncodeChar(d)
    ensures c == d
  {
    var n, m := c as int, d as int;
    var x, y := EncodeChar(c), EncodeChar(d);
    assert x[0] == y[0] && x[|x| - 1] == y[|y| - 1];
    if |x| == 2 {
      assert n == n / 0x40 * 0x40 + n % 0x40 && m == m / 0x40 * 0x40 + m % 0x40;
    } else if |x| == 3 {
      assert x[1] == y[1];
      Split(n);
      Split(m);
    } else if |x| == 4 {
      assert x[1] == y[1] && x[2] == y[2];
      Split(n);
      Split(m);
    }
  }

  lemma Split(n: nat)
    ensures n == n / 0x1000 * 0x1000 + n / 0x40 % 0x40 * 0x40 + n % 0x40
    ensures n / 0x1000 == n / 0x40000 * 0x40 + n / 0x1000 % 0x40
  {
  }

  lemma {:induction false} EncodeInjective(s: string, t: string)
    requires Encode(s) == Encode(t)
    ensures s == t
  {
    if s == [] || t == [] {
      assert s != [] ==> Encode(s) != [];
      assert t != [] ==> Encode(t) != [];
    } else {
      var x, y := EncodeChar(s[0]), EncodeChar(t[0]);
      LeadByte(s[0]);
      LeadByte(t[0]);
      assert Encode(s)[0] == x[0] && Encode(t)[0] == y[0];
      assert Encode(s)[..|x|] == x && Encode(t)[..|y|] == y;
      assert Encode(s)[|x|..] == Encode(s[1..]) && Encode(t)[|y|..] == Encode(t[1..]);
      EncodeCharInjective(s[0], t[0]);
      EncodeInjective(s[1..], t[1..]);
      assert s == [s[0]] + s[1..] && t == [t[0]] + t[1..];
    }
  }
}
