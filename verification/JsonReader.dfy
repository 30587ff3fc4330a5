/**
 A reader of compact JSON (RFC 8259 without whitespace and fractions) that knows nothing of the
 printer: each literal, escape and separator is its own. It is strict: it reads a text only if the
 text is spelled the canonical way, and then reads it back as the value that was printed.
 */
module JsonReader {
  import opened Wrappers
  import opened JsonText
  import opened JsonPrinter

  /** What has been read, and the text after it. */
  datatype Parsed<T> = Parsed(value: T, rest: string) | Failed

  // ----- literals -------------------------------------------------------------------------------

  /** The text after `word`, if it begins with it. */
  function After(t: string, word: string): (rest: Option<string>)
    ensures rest.Some? <==> word <= t
    ensures rest.Some? ==> t == word + rest.value
  {
    if word <= t then Some(t[|word|..]) else None
  }

  // ----- integers -------------------------------------------------------------------------------

  /** How many digits the text begins with. */
  function DigitRun(t: string): (n: nat)
    ensures n <= |t| && (forall i | 0 <= i < n :: '0' <= t[i] <= '9') && (n < |t| ==> !('0' <= t[n] <= '9'))
  {
    if t == [] || !('0' <= t[0] <= '9') then 0 else 1 + DigitRun(t[1..])
  }

  function Value(digits: string): nat
    requires forall i | 0 <= i < |digits| :: '0' <= digits[i] <= '9'
  {
    if digits == [] then 0
    else 10 * Value(digits[..|digits| - 1]) + (digits[|digits| - 1] as int - '0' as int)
  }

  /** Digits without a leading zero, unless zero is all there is. */
  function ReadNat(t: string): (r: Parsed<int>)
    ensures r.Parsed? ==> |r.rest| < |t| && r.value >= 0
  {
    var n := DigitRun(t);
    if n == 0 || (n > 1 && t[0] == '0') then Failed else Parsed(Value(t[..n]), t[n..])
  }

  function ReadInt(t: string): (r: Parsed<int>)
    ensures r.Parsed? ==> |r.rest| < |t|
  {
    var negative := t != [] && t[0] == '-';
    match ReadNat(if negative then t[1..] else t)
    case Failed => Failed
    case Parsed(n, rest) => if !negative then Parsed(n, rest) else if n == 0 then Failed else Parsed(0 - n, rest)
  }

  // ----- strings --------------------------------------------------------------------------------

  function HexValue(c: char): Option<nat> {
    if '0' <= c <= '9' then Some(c as int - 0x30) else if 'a' <= c <= 'f' then Some(c as int - 0x57) else None
  }

  /** One character of a string: itself, or a short escape, or four digits for a control character that has none. */
  function ReadChar(t: string): (r: Parsed<char>)
    ensures r.Parsed? ==> |r.rest| < |t|
  {
    if t == [] || t[0] == '"' then Failed
    else if t[0] != '\\' then (if t[0] as int >= 0x20 then Parsed(t[0], t[1..]) else Failed)
    else if |t| == 1 then Failed
    else
      match t[1]
      case '"' => Parsed('"', t[2..])
      case '\\' => Parsed('\\', t[2..])
      case 'b' => Parsed(0x08 as char, t[2..])
      case 't' => Parsed(0x09 as char, t[2..])
      case 'n' => Parsed(0x0A as char, t[2..])
      case 'f' => Parsed(0x0C as char, t[2..])
      case 'r' => Parsed(0x0D as char, t[2..])
      case 'u' => ReadHex(t[2..])
      case _ => Failed
  }

  function ReadHex(t: string): (r: Parsed<char>)
    ensures r.Parsed? ==> |r.rest| < |t|
  {
    if |t| < 4 || t[0] != '0' || t[1] != '0' then Failed
    else
      match (HexValue(t[2]), HexValue(t[3]))
      case (Some(high), Some(low)) =>
        var n := 16 * high + low;
        if n < 0x20 && n != 0x08 && n != 0x09 && n != 0x0A && n != 0x0C && n != 0x0D then Parsed(n as char, t[4..])
        else Failed
      case _ => Failed
  }

  /** The characters up to the closing quote, and what follows it. */
  function ReadChars(t: string): (r: Parsed<string>)
    ensures r.Parsed? ==> |r.rest| < |t|
    decreases |t|
  {
    if t == [] then Failed
    else if t[0] == '"' then Parsed("", t[1..])
    else
      match ReadChar(t)
      case Failed => Failed
      case Parsed(c, rest) =>
        match ReadChars(rest)
        case Failed => Failed
        case Parsed(s, rest2) => Parsed([c] + s, rest2)
  }

  function ReadString(t: string): (r: Parsed<string>)
    ensures r.Parsed? ==> |r.rest| < |t|
  {
    if t == [] || t[0] != '"' then Failed else ReadChars(t[1..])
  }

  // ----- values ---------------------------------------------------------------------------------

  /** The three words and the integers. */
  function ReadScalar(t: string): (r: Parsed<Json>)
    ensures r.Parsed? ==> |r.rest| < |t|
  {
    if After(t, "null").Some? then Parsed(JNull, After(t, "null").value)
    else if After(t, "true").Some? then Parsed(JBool(true), After(t, "true").value)
    else if After(t, "false").Some? then Parsed(JBool(false), After(t, "false").value)
    else (match ReadInt(t) case Parsed(n, rest) => Parsed(JInt(n), rest) case Failed => Failed)
  }

  function ReadValue(t: string): (r: Parsed<Json>)
    ensures r.Parsed? ==> |r.rest| < |t|
    decreases |t|, 1
  {
    if t == [] then Failed
    else if t[0] == '"' then
      (match ReadString(t)
       case Parsed(s, rest) => Parsed(JString(s), rest)
       case Failed => Failed)
    else if t[0] == '[' then ReadList(t[1..])
    else if t[0] == '{' then ReadObject(t[1..])
    else ReadScalar(t)
  }

  function ReadList(t: string): (r: Parsed<Json>)
    ensures r.Parsed? ==> |r.rest| < |t|
    decreases |t|, 3
  {
    if t != [] && t[0] == ']' then Parsed(JList([]), t[1..])
    else (match ReadItems(t) case Parsed(items, rest) => Parsed(JList(items), rest) case Failed => Failed)
  }

  function ReadObject(t: string): (r: Parsed<Json>)
    ensures r.Parsed? ==> |r.rest| < |t|
    decreases |t|, 3
  {
    if t != [] && t[0] == '}' then Parsed(JObject([]), t[1..])
    else (match ReadFields(t) case Parsed(fields, rest) => Parsed(JObject(fields), rest) case Failed => Failed)
  }

  /** One item or more, with commas between them, and the closing bracket. */
  function ReadItems(t: string): (r: Parsed<seq<Json>>)
    ensures r.Parsed? ==> |r.rest| < |t|
    decreases |t|, 2
  {
    match ReadValue(t)
    case Failed => Failed
    case Parsed(v, rest) =>
      if rest == [] then Failed
      else if rest[0] == ']' then Parsed([v], rest[1..])
      else if rest[0] != ',' then Failed
      else
        match ReadItems(rest[1..])
        case Failed => Failed
        case Parsed(items, rest2) => Parsed([v] + items, rest2)
  }

  /** One member or more: a string, a colon, a value; commas between them, and the closing brace. */
  function ReadFields(t: string): (r: Parsed<seq<Field>>)
    ensures r.Parsed? ==> |r.rest| < |t|
    decreases |t|, 2
  {
    match ReadString(t)
    case Failed => Failed
    case Parsed(key, colon) =>
      if colon == [] || colon[0] != ':' then Failed
      else
        match ReadValue(colon[1..])
        case Failed => Failed
        case Parsed(v, rest) =>
          if rest == [] then Failed
          else if rest[0] == '}' then Parsed([Field(key, v)], rest[1..])
          else if rest[0] != ',' then Failed
          else
            match ReadFields(rest[1..])
            case Failed => Failed
            case Parsed(fields, rest2) => Parsed([Field(key, v)] + fields, rest2)
  }

  /** A text that is one value and nothing else. */
  function Read(t: string): Option<Json> {
    match ReadValue(t)
    case Parsed(v, rest) => if rest == "" then Some(v) else None
    case Failed => None
  }

  // ----- integers are read back -----------------------------------------------------------------

  lemma {:induction false} DigitRunOf(digits: string, rest: string)
    requires forall i | 0 <= i < |digits| :: '0' <= digits[i] <= '9'
    requires rest != [] ==> !('0' <= rest[0] <= '9')
    ensures DigitRun(digits + rest) == |digits|
  {
    if digits == [] {
      assert digits + rest == rest;
    } else {
      assert (digits + rest)[1..] == digits[1..] + rest;
      DigitRunOf(digits[1..], rest);
    }
  }

  lemma {:induction false} DigitsValue(n: nat)
    ensures forall i | 0 <= i < |Digits(n)| :: '0' <= Digits(n)[i] <= '9'
    ensures Value(Digits(n)) == n
    ensures Digits(n)[0] == '0' ==> n == 0 && |Digits(n)| == 1
  {
    var t := Digits(n);
    if n >= 10 {
      DigitsValue(n / 10);
      assert t[..|t| - 1] == Digits(n / 10);
    } else {
      assert t[..0] == [];
    }
  }

  lemma NatReadsBack(n: nat, rest: string)
    requires rest != [] ==> !('0' <= rest[0] <= '9')
    ensures ReadNat(Digits(n) + rest) == Parsed(n, rest)
  {
    var t := Digits(n) + rest;
    DigitsValue(n);
    DigitRunOf(Digits(n), rest);
    assert t[..|Digits(n)|] == Digits(n) && t[|Digits(n)|..] == rest;
  }

  lemma NegativeIsRead(digits: string, n: int, rest: string)
    requires ReadNat(digits) == Parsed(n, rest) && n > 0
    ensures ReadInt("-" + digits) == Parsed(-n, rest)
  {
    assert ("-" + digits)[1..] == digits;
  }

  lemma PositiveIsRead(t: string, n: int, rest: string)
    requires ReadNat(t) == Parsed(n, rest) && t != [] && t[0] != '-'
    ensures ReadInt(t) == Parsed(n, rest)
  {
  }

  lemma IntReadsBack(n: int, rest: string)
    requires rest != [] ==> !('0' <= rest[0] <= '9')
    ensures ReadInt(IntText(n) + rest) == Parsed(n, rest)
  {
    IntLead(n, rest);
    if n < 0 {
      NatReadsBack(-n, rest);
      NegativeIsRead(Digits(-n) + rest, -n, rest);
      DropHead("-", Digits(-n), rest);
    } else {
      NatReadsBack(n, rest);
      PositiveIsRead(IntText(n) + rest, n, rest);
    }
  }

  lemma IntLead(n: int, rest: string)
    ensures var c := (IntText(n) + rest)[0]; if n < 0 then c == '-' else '0' <= c <= '9'
  {
    DigitsValue(if n < 0 then -n else n);
  }

  // ----- strings are read back ------------------------------------------------------------------

  lemma HexReadsBack(c: char, rest: string)
    requires c as int < 32 && EscapeChar(c)[1] == 'u'
    ensures ReadHex((EscapeChar(c) + rest)[2..]) == Parsed(c, rest)
  {
    var n := c as int;
    assert EscapeChar(c) == "\\u00" + [HexDigit(n / 16), HexDigit(n % 16)];
    assert (EscapeChar(c) + rest)[2..] == "00" + [HexDigit(n / 16), HexDigit(n % 16)] + rest;
    assert (EscapeChar(c) + rest)[2..][4..] == rest;
    HexDigitValue(n / 16);
    HexDigitValue(n % 16);
  }

  lemma HexDigitValue(d: nat)
    requires d < 16
    ensures HexValue(HexDigit(d)) == Some(d)
  {
  }

  lemma CharReadsBack(c: char, rest: string)
    ensures ReadChar(EscapeChar(c) + rest) == Parsed(c, rest)
  {
    var e := EscapeChar(c);
    var t := e + rest;
    assert t[|e|..] == rest && t[0] == e[0];
    if e[0] == '\\' {
      assert t[1] == e[1];
      if e[1] == 'u' {
        HexReadsBack(c, rest);
      }
    }
  }

  lemma NextCharIsRead(t: string, c: char, more: string, s: string, rest: string)
    requires t != [] && t[0] != '"' && ReadChar(t) == Parsed(c, more) && ReadChars(more) == Parsed(s, rest)
    ensures ReadChars(t) == Parsed([c] + s, rest)
  {
  }

  lemma {:induction false} CharsReadBack(s: string, rest: string)
    ensures ReadChars(Escape(s) + ("\"" + rest)) == Parsed(s, rest)
  {
    var t := Escape(s) + ("\"" + rest);
    if s == [] {
      assert t == "\"" + rest && t[1..] == rest;
    } else {
      var more := Escape(s[1..]) + ("\"" + rest);
      DropHead(EscapeChar(s[0]), Escape(s[1..]), "\"" + rest);
      CharReadsBack(s[0], more);
      CharsReadBack(s[1..], rest);
      assert t[0] == EscapeChar(s[0])[0];
      NextCharIsRead(t, s[0], more, s[1..], rest);
      assert [s[0]] + s[1..] == s;
    }
  }

  lemma QuoteSplits(s: string, rest: string)
    ensures Quote(s) + rest == "\"" + (Escape(s) + ("\"" + rest))
  {
  }

  lemma StringReadsBack(s: string, rest: string)
    ensures ReadString(Quote(s) + rest) == Parsed(s, rest)
  {
    var chars := Escape(s) + ("\"" + rest);
    QuoteSplits(s, rest);
    assert ("\"" + chars)[1..] == chars;
    CharsReadBack(s, rest);
  }

  // ----- values are read back -------------------------------------------------------------------

  lemma ScalarIsRead(t: string, v: Json, rest: string)
    requires t != [] && t[0] != '"' && t[0] != '[' && t[0] != '{' && ReadScalar(t) == Parsed(v, rest)
    ensures ReadValue(t) == Parsed(v, rest)
  {
  }

  lemma IntIsRead(t: string, n: int, rest: string)
    requires t != [] && (t[0] == '-' || '0' <= t[0] <= '9') && ReadInt(t) == Parsed(n, rest)
    ensures ReadScalar(t) == Parsed(JInt(n), rest)
  {
  }

  lemma WordIsRead(v: Json, rest: string)
    requires v.JNull? || v.JBool?
    ensures ReadScalar(Print(v) + rest) == Parsed(v, rest)
  {
    var t := Print(v) + rest;
    assert t[0] == Print(v)[0] && t[|Print(v)|..] == rest;
  }

  lemma StringIsRead(t: string, s: string, rest: string)
    requires t != [] && t[0] == '"' && ReadString(t) == Parsed(s, rest)
    ensures ReadValue(t) == Parsed(JString(s), rest)
  {
  }

  lemma ListIsRead(inside: string, items: seq<Json>, rest: string)
    requires if items == [] then inside == "]" + rest
             else inside != [] && inside[0] != ']' && ReadItems(inside) == Parsed(items, rest)
    ensures ReadValue("[" + inside) == Parsed(JList(items), rest)
  {
    assert ("[" + inside)[1..] == inside;
    assert items == [] ==> inside[1..] == rest;
  }

  lemma ObjectIsRead(inside: string, fields: seq<Field>, rest: string)
    requires if fields == [] then inside == "}" + rest
             else inside != [] && inside[0] != '}' && ReadFields(inside) == Parsed(fields, rest)
    ensures ReadValue("{" + inside) == Parsed(JObject(fields), rest)
  {
    assert ("{" + inside)[1..] == inside;
    assert fields == [] ==> inside[1..] == rest;
  }

  /** What is printed is read back, and what follows it is left alone. */
  lemma {:induction false} ValueReadsBack(v: Json, rest: string)
    requires Ends(rest)
    ensures ReadValue(Print(v) + rest) == Parsed(v, rest)
    decreases v
  {
    match v {
      case JInt(n) => IntValueReadsBack(n, rest);
      case JString(s) =>
        StringReadsBack(s, rest);
        StringIsRead(Print(v) + rest, s, rest);
      case JList(items) =>
        ItemsLead(items, rest);
        if items != [] {
          ItemsReadBack(items, rest);
        }
        ListIsRead(PrintItems(items) + rest, items, rest);
        DropHead("[", PrintItems(items), rest);
      case JObject(fields) =>
        FieldsLead(fields, rest);
        if fields != [] {
          FieldsReadBack(fields, rest);
        }
        ObjectIsRead(PrintFields(fields) + rest, fields, rest);
        DropHead("{", PrintFields(fields), rest);
      case _ =>
        WordIsRead(v, rest);
        ScalarIsRead(Print(v) + rest, v, rest);
    }
  }

  lemma IntValueReadsBack(n: int, rest: string)
    requires Ends(rest)
    ensures ReadValue(Print(JInt(n)) + rest) == Parsed(JInt(n), rest)
  {
    IntReadsBack(n, rest);
    IntLead(n, rest);
    IntIsRead(IntText(n) + rest, n, rest);
    ScalarIsRead(IntText(n) + rest, JInt(n), rest);
  }

  lemma LastItemIsRead(t: string, v: Json, rest: string)
    requires ReadValue(t) == Parsed(v, "]" + rest)
    ensures ReadItems(t) == Parsed([v], rest)
  {
    assert ("]" + rest)[1..] == rest;
  }

  lemma NextItemIsRead(t: string, v: Json, more: string, items: seq<Json>, rest: string)
    requires ReadValue(t) == Parsed(v, "," + more) && ReadItems(more) == Parsed(items, rest)
    ensures ReadItems(t) == Parsed([v] + items, rest)
  {
    assert ("," + more)[1..] == more;
  }

  lemma {:induction false} ItemsReadBack(items: seq<Json>, rest: string)
    requires items != [] && Ends(rest)
    ensures ReadItems(PrintItems(items) + rest) == Parsed(items, rest)
    decreases items
  {
    var t, v := PrintItems(items) + rest, items[0];
    ItemsLead(items, rest);
    ValueReadsBack(v, ItemsAfter(items) + rest);
    if |items| == 1 {
      LastItemIsRead(t, v, rest);
      assert items == [v];
    } else {
      ItemsReadBack(items[1..], rest);
      DropHead(",", PrintItems(items[1..]), rest);
      NextItemIsRead(t, v, PrintItems(items[1..]) + rest, items[1..], rest);
      assert items == [v] + items[1..];
    }
  }

  lemma LastFieldIsRead(t: string, f: Field, value: string, rest: string)
    requires ReadString(t) == Parsed(f.key, ":" + value) && ReadValue(value) == Parsed(f.value, "}" + rest)
    ensures ReadFields(t) == Parsed([f], rest)
  {
    assert (":" + value)[1..] == value && ("}" + rest)[1..] == rest;
  }

  lemma NextFieldIsRead(t: string, f: Field, value: string, more: string, fields: seq<Field>, rest: string)
    requires ReadString(t) == Parsed(f.key, ":" + value) && ReadValue(value) == Parsed(f.value, "," + more)
    requires ReadFields(more) == Parsed(fields, rest)
    ensures ReadFields(t) == Parsed([f] + fields, rest)
  {
    assert (":" + value)[1..] == value && ("," + more)[1..] == more;
  }

  lemma FieldsAfterAre(fields: seq<Field>, rest: string)
    requires fields != []
    ensures FieldsAfter(fields) + rest
            == if |fields| == 1 then "}" + rest else "," + (PrintFields(fields[1..]) + rest)
  {
    if |fields| > 1 {
      DropHead(",", PrintFields(fields[1..]), rest);
    }
  }

  lemma FieldsAreRead(t: string, f: Field, value: string, after: string, more: string, fields: seq<Field>, rest: string)
    requires ReadString(t) == Parsed(f.key, ":" + value) && ReadValue(value) == Parsed(f.value, after)
    requires if fields == [] then after == "}" + rest
             else after == "," + more && ReadFields(more) == Parsed(fields, rest)
    ensures ReadFields(t) == Parsed([f] + fields, rest)
  {
    if fields == [] {
      LastFieldIsRead(t, f, value, rest);
      assert [f] + [] == [f];
    } else {
      NextFieldIsRead(t, f, value, more, fields, rest);
    }
  }

  lemma {:induction false} FieldsReadBack(fields: seq<Field>, rest: string)
    requires fields != [] && Ends(rest)
    ensures ReadFields(PrintFields(fields) + rest) == Parsed(fields, rest)
    decreases fields
  {
    var t, f, after := PrintFields(fields) + rest, fields[0], FieldsAfter(fields) + rest;
    FieldsLead(fields, rest);
    StringReadsBack(f.key, ":" + (Print(f.value) + after));
    ValueReadsBack(f.value, after);
    FieldsAfterAre(fields, rest);
    if |fields| > 1 {
      FieldsReadBack(fields[1..], rest);
    }
    FieldsAreRead(t, f, Print(f.value) + after, after, PrintFields(fields[1..]) + rest, fields[1..], rest);
    assert fields == [f] + fields[1..];
  }

  // ----- only printed text is read --------------------------------------------------------------

  lemma {:induction false} ValueDigits(digits: string)
    requires digits != [] && forall i | 0 <= i < |digits| :: '0' <= digits[i] <= '9'
    requires digits[0] == '0' ==> |digits| == 1
    ensures Digits(Value(digits)) == digits
    ensures |digits| > 1 ==> Value(digits) >= 10
  {
    var n := |digits| - 1;
    var head, last := digits[..n], digits[n];
    assert digits == head + [last];
    var d := last as int - '0' as int;
    if n == 0 {
      assert Value(head) == 0;
      assert Value(digits) == d;
    } else {
      assert forall i | 0 <= i < n :: head[i] == digits[i];
      if n == 1 {
        assert head == [digits[0]] && Value(head) == digits[0] as int - '0' as int + 10 * Value(head[..0]);
      }
      ValueDigits(head);
      assert Value(head) >= 1;
      var v := Value(digits);
      assert v == 10 * Value(head) + d && v / 10 == Value(head) && v % 10 == d;
    }
  }

  lemma NatIsPrinted(t: string)
    requires ReadNat(t).Parsed?
    ensures t == Digits(ReadNat(t).value) + ReadNat(t).rest
  {
    var n := DigitRun(t);
    assert t == t[..n] + t[n..];
    ValueDigits(t[..n]);
  }

  lemma MinusIsPrinted(digits: string, n: int, rest: string)
    requires n > 0 && digits == Digits(n) + rest
    ensures "-" + digits == IntText(-n) + rest
  {
    DropHead("-", Digits(n), rest);
  }

  lemma IntIsPrinted(t: string)
    requires ReadInt(t).Parsed?
    ensures t == IntText(ReadInt(t).value) + ReadInt(t).rest
  {
    if t != [] && t[0] == '-' {
      NatIsPrinted(t[1..]);
      assert t == "-" + t[1..];
      MinusIsPrinted(t[1..], ReadNat(t[1..]).value, ReadNat(t[1..]).rest);
    } else {
      NatIsPrinted(t);
    }
  }

  lemma HexIsPrinted(t: string)
    requires ReadHex(t).Parsed?
    ensures EscapeChar(ReadHex(t).value) == "\\u" + t[..4] && ReadHex(t).rest == t[4..] && |t| >= 4
  {
    var n := ReadHex(t).value as int;
    var high, low := HexValue(t[2]).value, HexValue(t[3]).value;
    assert n == 16 * high + low && n / 16 == high && n % 16 == low;
    assert HexDigit(high) == t[2] && HexDigit(low) == t[3];
    assert t[..4] == [t[0], t[1], t[2], t[3]];
  }

  lemma CharIsPrinted(t: string)
    requires ReadChar(t).Parsed?
    ensures t == EscapeChar(ReadChar(t).value) + ReadChar(t).rest
  {
    if t[0] != '\\' {
      assert t == [t[0]] + t[1..];
    } else if t[1] == 'u' {
      HexIsPrinted(t[2..]);
      assert t == "\\u" + t[2..][..4] + t[2..][4..];
    } else {
      assert t == [t[0], t[1]] + t[2..];
    }
  }

  lemma {:induction false} CharsArePrinted(t: string)
    requires ReadChars(t).Parsed?
    ensures t == Escape(ReadChars(t).value) + ("\"" + ReadChars(t).rest)
    decreases |t|
  {
    if t[0] == '"' {
      assert t == "\"" + t[1..];
      assert Escape("") == "";
    } else {
      var c, rest := ReadChar(t).value, ReadChar(t).rest;
      CharIsPrinted(t);
      CharsArePrinted(rest);
      var s := ReadChars(rest).value;
      assert ([c] + s)[1..] == s;
      DropHead(EscapeChar(c), Escape(s), "\"" + ReadChars(rest).rest);
    }
  }

  lemma StringIsPrinted(t: string)
    requires ReadString(t).Parsed?
    ensures t == Quote(ReadString(t).value) + ReadString(t).rest
  {
    CharsArePrinted(t[1..]);
    assert t == "\"" + t[1..];
    QuoteSplits(ReadString(t).value, ReadString(t).rest);
  }

  lemma ScalarIsPrinted(t: string)
    requires ReadScalar(t).Parsed?
    ensures t == Print(ReadScalar(t).value) + ReadScalar(t).rest
  {
    if ReadScalar(t).value.JInt? {
      IntIsPrinted(t);
    }
  }

  /** What is read was printed that way. */
  lemma {:induction false} ValueIsPrinted(t: string)
    requires ReadValue(t).Parsed?
    ensures t == Print(ReadValue(t).value) + ReadValue(t).rest
    decreases |t|, 1
  {
    if t[0] == '"' {
      StringIsPrinted(t);
    } else if t[0] == '[' {
      assert t == "[" + t[1..];
      ListIsPrinted(t[1..]);
    } else if t[0] == '{' {
      assert t == "{" + t[1..];
      ObjectIsPrinted(t[1..]);
    } else {
      ScalarIsPrinted(t);
    }
  }

  lemma {:induction false} ListIsPrinted(t: string)
    requires ReadList(t).Parsed?
    ensures "[" + t == Print(ReadList(t).value) + ReadList(t).rest
    decreases |t|, 3
  {
    if t != [] && t[0] == ']' {
      assert t == "]" + t[1..];
      DropHead("[", "]", t[1..]);
    } else {
      ItemsArePrinted(t);
      DropHead("[", PrintItems(ReadItems(t).value), ReadItems(t).rest);
    }
  }

  lemma {:induction false} ObjectIsPrinted(t: string)
    requires ReadObject(t).Parsed?
    ensures "{" + t == Print(ReadObject(t).value) + ReadObject(t).rest
    decreases |t|, 3
  {
    if t != [] && t[0] == '}' {
      assert t == "}" + t[1..];
      DropHead("{", "}", t[1..]);
    } else {
      FieldsArePrinted(t);
      DropHead("{", PrintFields(ReadFields(t).value), ReadFields(t).rest);
    }
  }

  lemma ItemsPrinted(v: Json, items: seq<Json>, rest: string)
    ensures PrintItems([v]) + rest == Print(v) + ("]" + rest)
    ensures items != [] ==> PrintItems([v] + items) + rest == Print(v) + ("," + (PrintItems(items) + rest))
  {
    DropHead(Print(v), "]", rest);
    assert ([v] + items)[1..] == items;
    DropHead(Print(v), "," + PrintItems(items), rest);
    DropHead(",", PrintItems(items), rest);
  }

  lemma {:induction false} ItemsArePrinted(t: string)
    requires ReadItems(t).Parsed?
    ensures ReadItems(t).value != [] && t == PrintItems(ReadItems(t).value) + ReadItems(t).rest
    decreases |t|, 2
  {
    ValueIsPrinted(t);
    var v, rest := ReadValue(t).value, ReadValue(t).rest;
    if rest[0] == ']' {
      assert rest == "]" + rest[1..];
      ItemsPrinted(v, [], rest[1..]);
    } else {
      assert rest == "," + rest[1..];
      ItemsArePrinted(rest[1..]);
      ItemsPrinted(v, ReadItems(rest[1..]).value, ReadItems(rest[1..]).rest);
    }
  }

  lemma FieldsPrinted(f: Field, fields: seq<Field>, rest: string)
    ensures PrintFields([f]) + rest == Quote(f.key) + (":" + (Print(f.value) + ("}" + rest)))
    ensures fields != [] ==>
              PrintFields([f] + fields) + rest
              == Quote(f.key) + (":" + (Print(f.value) + ("," + (PrintFields(fields) + rest))))
  {
    Regroup(Quote(f.key), Print(f.value), "}", rest);
    assert ([f] + fields)[1..] == fields;
    Regroup(Quote(f.key), Print(f.value), "," + PrintFields(fields), rest);
    DropHead(",", PrintFields(fields), rest);
  }

  lemma {:induction false} FieldsArePrinted(t: string)
    requires ReadFields(t).Parsed?
    ensures ReadFields(t).value != [] && t == PrintFields(ReadFields(t).value) + ReadFields(t).rest
    decreases |t|, 2
  {
    StringIsPrinted(t);
    var colon := ReadString(t).rest;
    ValueIsPrinted(colon[1..]);
    var f, rest := Field(ReadString(t).value, ReadValue(colon[1..]).value), ReadValue(colon[1..]).rest;
    assert colon == ":" + colon[1..];
    if rest[0] == '}' {
      assert rest == "}" + rest[1..];
      FieldsPrinted(f, [], rest[1..]);
    } else {
      assert rest == "," + rest[1..];
      FieldsArePrinted(rest[1..]);
      FieldsPrinted(f, ReadFields(rest[1..]).value, ReadFields(rest[1..]).rest);
    }
  }

  /** A text is read as a value exactly when it is the printed text of that value. */
  lemma ReadsIffPrinted(t: string, v: Json)
    ensures Read(t) == Some(v) <==> t == Print(v)
  {
    if t == Print(v) {
      assert Print(v) + "" == Print(v);
      ValueReadsBack(v, "");
    }
    if Read(t) == Some(v) {
      ValueIsPrinted(t);
      assert Print(v) + "" == Print(v);
    }
  }
}
