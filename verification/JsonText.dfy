/**
 JSON values as the canonical serializer sees them, and their text: the escaping of strings
 (section 7 of RFC 8259), integers, and the nesting brackets, with the proof that the text of one
 value can never be mistaken for the text of another, even inside a longer text.
 */
module JsonText {

  /** A dict keeps its insertion order; floats never reach the canonical printer. */
  datatype Json =
    | JNull
    | JBool(b: bool)
    | JInt(n: int)
    | JString(s: string)
    | JList(items: seq<Json>)
    | JObject(fields: seq<Field>)

  datatype Field = Field(key: string, value: Json)

  // ----- strings ------------------------------------------------------------------------------------

  function HexDigit(d: nat): char
    requires d < 16
  {
    "0123456789abcdef"[d]
  }

  function EscapeChar(c: char): (t: string)
    ensures t != [] && t[0] != '"'
    ensures |t| > 1 <==> t[0] == '\\'
  {
    if c == '"' then "\\\""
    else if c == '\\' then "\\\\"
    else if c as int == 10 then "\\n"
    else if c as int == 13 then "\\r"
    else if c as int == 9 then "\\t"
    else if c as int == 12 then "\\f"
    else if c as int == 8 then "\\b"
    else if c as int < 32 then "\\u00" + [HexDigit(c as int / 16), HexDigit(c as int % 16)]
    else [c]
  }

  function Escape(s: string): string {
    if s == [] then [] else EscapeChar(s[0]) + Escape(s[1..])
  }

  function Quote(s: string): string {
    "\"" + Escape(s) + "\""
  }

  lemma HexDigitInjective(d: nat, e: nat)
    requires d < 16 && e < 16 && HexDigit(d) == HexDigit(e)
    ensures d == e
  {
  }

  /** The length of an escape is settled by its first two characters. */
  lemma EscapeShape(c: char)
    ensures var t := EscapeChar(c);
            && (t[0] != '\\' ==> t == [c] && c as int >= 32)
            && (t[0] == '\\' ==> |t| == (if t[1] == 'u' then 6 else 2))
  {
  }

  lemma ShortEscapeInjective(c: char, d: char)
    requires |EscapeChar(c)| <= 2 && EscapeChar(c) == EscapeChar(d)
    ensures c == d
  {
    assert EscapeChar(c)[0] == EscapeChar(d)[0];
    if |EscapeChar(c)| == 2 {
      assert EscapeChar(c)[1] == EscapeChar(d)[1];
    }
  }

  lemma LongEscapeInjective(c: char, d: char)
    requires |EscapeChar(c)| == 6 && EscapeChar(c) == EscapeChar(d)
    ensures c == d
  {
    assert EscapeChar(c)[4] == EscapeChar(d)[4] && EscapeChar(c)[5] == EscapeChar(d)[5];
    HexDigitInjective(c as int / 16, d as int / 16);
    HexDigitInjective(c as int % 16, d as int % 16);
  }

  lemma SamePrefix(x: string, y: string, rx: string, ry: string)
    requires x + rx == y + ry && |x| == |y|
    ensures x == y && rx == ry
  {
    assert (x + rx)[..|x|] == x && (y + ry)[..|y|] == y;
    assert (x + rx)[|x|..] == rx && (y + ry)[|y|..] == ry;
  }

  lemma EscapeCharPrefixFree(c: char, d: char, rc: string, rd: string)
    requires EscapeChar(c) + rc == EscapeChar(d) + rd
    ensures c == d && rc == rd
  {
    var x, y := EscapeChar(c), EscapeChar(d);
    EscapeShape(c);
    EscapeShape(d);
    assert (x + rc)[0] == x[0] && (y + rd)[0] == y[0];
    if x[0] == '\\' {
      assert (x + rc)[1] == x[1] && (y + rd)[1] == y[1];
    }
    SamePrefix(x, y, rc, rd);
    if |x| <= 2 {
      ShortEscapeInjective(c, d);
    } else {
      LongEscapeInjective(c, d);
    }
  }

  /** The rest of a string literal whose first quote has been read, and what follows it. */
  function Closing(s: string, rest: string): (t: string)
    ensures t != []
  {
    Escape(s) + ("\"" + rest)
  }

  lemma ClosingStep(s: string, rest: string)
    ensures s == [] ==> Closing(s, rest) == "\"" + rest
    ensures s != [] ==> Closing(s, rest) == EscapeChar(s[0]) + Closing(s[1..], rest)
    ensures Closing(s, rest)[0] == '"' <==> s == []
  {
  }

  lemma {:induction false} ClosingPrefixFree(s: string, t: string, rs: string, rt: string)
    requires Closing(s, rs) == Closing(t, rt)
    ensures s == t && rs == rt
  {
    ClosingStep(s, rs);
    ClosingStep(t, rt);
    if s == [] {
      SamePrefix("\"", "\"", rs, rt);
    } else {
      EscapeCharPrefixFree(s[0], t[0], Closing(s[1..], rs), Closing(t[1..], rt));
      ClosingPrefixFree(s[1..], t[1..], rs, rt);
      assert s == [s[0]] + s[1..] && t == [t[0]] + t[1..];
    }
  }

  /** A string literal ends where it ends, whatever follows. */
  lemma QuotePrefixFree(s: string, t: string, rs: string, rt: string)
    requires Quote(s) + rs == Quote(t) + rt
    ensures s == t && rs == rt
  {
    assert Quote(s) + rs == "\"" + Closing(s, rs) && Quote(t) + rt == "\"" + Closing(t, rt);
    SamePrefix("\"", "\"", Closing(s, rs), Closing(t, rt));
    ClosingPrefixFree(s, t, rs, rt);
  }

  // ----- integers ------------------------------------------------------------------------------------

  predicate IsDigit(c: char) {
    '0' <= c <= '9'
  }

  function Digits(n: nat): (t: string)
    ensures t != [] && forall i | 0 <= i < |t| :: IsDigit(t[i])
  {
    var last := ['0' + (n % 10) as char];
    if n < 10 then last else Digits(n / 10) + last
  }

  function IntText(n: int): string {
    if n < 0 then "-" + Digits(-n) else Digits(n)
  }

  lemma DigitsLength(n: nat)
    ensures |Digits(n)| == 1 <==> n < 10
  {
  }

  lemma {:induction false} DigitsInjective(n: nat, m: nat)
    requires Digits(n) == Digits(m)
    ensures n == m
  {
    var x, y := Digits(n), Digits(m);
    DigitsLength(n);
    DigitsLength(m);
    assert x[|x| - 1] == '0' + (n % 10) as char && y[|y| - 1] == '0' + (m % 10) as char;
    assert n % 10 == m % 10;
    if n >= 10 && m >= 10 {
      assert x[..|x| - 1] == Digits(n / 10) && y[..|y| - 1] == Digits(m / 10);
      DigitsInjective(n / 10, m / 10);
    }
  }

  /** What may follow a value: nothing, or a separator or closing bracket. */
  predicate Ends(r: string) {
    r == [] || r[0] == ',' || r[0] == ']' || r[0] == '}'
  }

  lemma DigitsNotShorter(x: string, y: string, rx: string, ry: string)
    requires forall i | 0 <= i < |y| :: IsDigit(y[i])
    requires x + rx == y + ry && Ends(rx)
    ensures |x| >= |y|
  {
    assert forall i | 0 <= i < |y| :: (y + ry)[i] == y[i];
    assert rx != [] ==> (x + rx)[|x|] == rx[0];
  }

  lemma DigitsPrefixFree(n: nat, m: nat, rn: string, rm: string)
    requires Digits(n) + rn == Digits(m) + rm && Ends(rn) && Ends(rm)
    ensures n == m && rn == rm
  {
    var x, y := Digits(n), Digits(m);
    DigitsNotShorter(x, y, rn, rm);
    DigitsNotShorter(y, x, rm, rn);
    SamePrefix(x, y, rn, rm);
    DigitsInjective(n, m);
  }

  lemma IntPrefixFree(n: int, m: int, rn: string, rm: string)
    requires IntText(n) + rn == IntText(m) + rm && Ends(rn) && Ends(rm)
    ensures n == m && rn == rm
  {
    var x, y := IntText(n), IntText(m);
    assert (x + rn)[0] == x[0] && (y + rm)[0] == y[0];
    assert (n < 0 ==> x[0] == '-') && (n >= 0 ==> IsDigit(x[0]));
    assert (m < 0 ==> y[0] == '-') && (m >= 0 ==> IsDigit(y[0]));
    if n < 0 && m < 0 {
      assert x + rn == "-" + (Digits(-n) + rn) && y + rm == "-" + (Digits(-m) + rm);
      SamePrefix("-", "-", Digits(-n) + rn, Digits(-m) + rm);
      DigitsPrefixFree(-n, -m, rn, rm);
    } else if n >= 0 && m >= 0 {
      DigitsPrefixFree(n, m, rn, rm);
    }
  }
}
