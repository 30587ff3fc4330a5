/**
 Which recorded paths `by_file` finds. Payloads are JSON text of printable ASCII, in which a path is a
 string literal with its escapes (section 7 of RFC 8259); the search looks for the path as it was typed.
 */
module RecordedPaths {
  import opened TextMatch
  import opened FileSearch
  import JsonText

  predicate PrintableChar(c: char) {
    32 <= c as int < 127
  }

  predicate Printable(s: string) {
    forall i | 0 <= i < |s| :: PrintableChar(s[i])
  }

  /** A character that the ASCII printer leaves as it is. */
  predicate Plain(c: char) {
    PrintableChar(c) && !Marks(c)
  }

  predicate Marks(c: char) {
    c == '"' || c == '\\'
  }

  /** What escapes are spelled with. */
  predicate EscapeLetter(c: char) {
    Marks(c) || c in "untr0123456789abcdef"
  }

  function Hex4(n: nat): (t: string)
    requires n < 0x1_0000
    ensures |t| == 6 && forall i | 0 <= i < |t| :: EscapeLetter(t[i])
  {
    "\\u" + [JsonText.HexDigit(n / 0x1000), JsonText.HexDigit(n / 0x100 % 0x10),
             JsonText.HexDigit(n / 0x10 % 0x10), JsonText.HexDigit(n % 0x10)]
  }

  /** Everything outside printable ASCII is escaped, above the basic plane as a pair of surrogates. */
  function AsciiEscapeChar(c: char): (t: string)
    ensures if Plain(c) then t == [c] else |t| >= 2 && forall i | 0 <= i < |t| :: EscapeLetter(t[i])
    ensures Printable(t)
  {
    var n := c as int;
    if n < 127 then JsonText.EscapeChar(c)
    else if n < 0x1_0000 then Hex4(n)
    else Hex4(0xD800 + (n - 0x1_0000) / 0x400) + Hex4(0xDC00 + (n - 0x1_0000) % 0x400)
  }

  function AsciiEscape(s: string): string {
    if s == [] then [] else AsciiEscapeChar(s[0]) + AsciiEscape(s[1..])
  }

  function AsciiQuote(s: string): string {
    "\"" + AsciiEscape(s) + "\""
  }

  lemma {:induction false} EscapedIsPrintable(s: string)
    ensures Printable(AsciiEscape(s)) && |AsciiEscape(s)| >= |s|
  {
    if s != [] {
      EscapedIsPrintable(s[1..]);
    }
  }

  /** Escaping leaves a path as it is exactly when all its characters are plain; otherwise the path grows. */
  lemma {:induction false} UnescapedIff(s: string)
    ensures AsciiEscape(s) == s <==> forall i | 0 <= i < |s| :: Plain(s[i])
    ensures AsciiEscape(s) == s <==> |AsciiEscape(s)| == |s|
  {
    if s != [] {
      UnescapedIff(s[1..]);
      EscapedIsPrintable(s[1..]);
      assert s == [s[0]] + s[1..];
      if Plain(s[0]) {
        assert AsciiEscape(s)[1..] == AsciiEscape(s[1..]);
      }
    }
  }

  // ----- what is found --------------------------------------------------------------------------

  /** The event's JSON holds the path as a string. */
  ghost predicate RecordedWith(e: Event, path: string) {
    exists before, after :: Printable(before) && Printable(after) && e.payload == before + AsciiQuote(path) + after
  }

  /** Every file event of the user that was recorded with this path is selected. */
  ghost predicate AlwaysFound(f: Fold, ftsAvailable: bool, userId: string, path: string) {
    forall e: Event | e.userId == userId && IsFileEvent(e.eventType) && RecordedWith(e, path) ::
      Selects(f, f, ftsAvailable, e, userId, path)
  }

  lemma FoldedConcat(f: Fold, a: string, b: string, c: string)
    ensures Folded(f, a + b + c) == Folded(f, a) + Folded(f, b) + Folded(f, c)
  {
  }

  lemma ContainsInside(text: string, part: string, before: string, after: string)
    requires Contains(text, part)
    ensures Contains(before + text + after, part)
  {
    var k :| OccursAt(text, part, k);
    var all := before + text + after;
    assert all[|before| + k..|before| + k + |part|] == text[k..k + |part|];
    assert OccursAt(all, part, |before| + k);
  }

  lemma RecordedContains(f: Fold, e: Event, path: string)
    requires RecordedWith(e, path) && Contains(Folded(f, AsciiQuote(path)), Folded(f, path))
    ensures Contains(Folded(f, e.payload), Folded(f, path))
  {
    var literal := AsciiQuote(path);
    var before, after :| Printable(before) && Printable(after) && e.payload == before + literal + after;
    FoldedConcat(f, before, literal, after);
    ContainsInside(Folded(f, literal), Folded(f, path), Folded(f, before), Folded(f, after));
  }

  /** A path is found in whatever payload it is recorded exactly when its own literal contains it. */
  lemma FoundIff(f: Fold, ftsAvailable: bool, userId: string, path: string)
    requires userId != "" && path != ""
    ensures AlwaysFound(f, ftsAvailable, userId, path) <==> Contains(Folded(f, AsciiQuote(path)), Folded(f, path))
  {
    var literal := AsciiQuote(path);
    if Contains(Folded(f, literal), Folded(f, path)) {
      forall e: Event | e.userId == userId && IsFileEvent(e.eventType) && RecordedWith(e, path)
        ensures Selects(f, f, ftsAvailable, e, userId, path)
      {
        RecordedContains(f, e, path);
        ByFileExact(f, ftsAvailable, e, userId, path);
      }
    } else {
      var e, none := Event(0, userId, "file.edit", literal), "";
      assert none + literal + none == literal && Printable(none);
      ByFileExact(f, ftsAvailable, e, userId, path);
      assert RecordedWith(e, path) && !Selects(f, f, ftsAvailable, e, userId, path);
    }
  }

  // ----- when that is ---------------------------------------------------------------------------

  /**
   Folding keeps printable characters printable, and quotes and backslashes what they are. It may turn
   another character into a printable one, as case folding does with the long s and the Kelvin sign,
   but into none that escapes are spelled with.
   */
  ghost predicate KeepsApart(f: Fold) {
    && (forall c: char {:trigger f(c)} | PrintableChar(c) :: PrintableChar(f(c)) && (Marks(f(c)) <==> Marks(c)))
    && (forall c: char, d: char {:trigger f(c), f(d)} ::
          !PrintableChar(c) && PrintableChar(f(c)) && EscapeLetter(d) ==> f(c) != f(d))
  }

  function PlainCount(s: string): nat {
    if s == [] then 0 else (if Plain(s[0]) then 1 else 0) + PlainCount(s[1..])
  }

  lemma {:induction false} PlainCountConcat(a: string, b: string)
    ensures PlainCount(a + b) == PlainCount(a) + PlainCount(b)
  {
    if a == [] {
      assert a + b == b;
    } else {
      assert (a + b)[1..] == a[1..] + b;
      PlainCountConcat(a[1..], b);
    }
  }

  lemma {:induction false} PlainCountFolded(f: Fold, a: string, b: string)
    requires KeepsApart(f) && Printable(a) && Printable(b) && |a| == |b|
    requires forall i | 0 <= i < |a| :: f(a[i]) == f(b[i])
    ensures PlainCount(a) == PlainCount(b)
  {
    if a != [] {
      assert f(a[0]) == f(b[0]);
      PlainCountFolded(f, a[1..], b[1..]);
    }
  }

  lemma {:induction false} PlainCounted(s: string, i: nat)
    requires i < |s| && Plain(s[i])
    ensures PlainCount(s) > 0
  {
    if i > 0 {
      PlainCounted(s[1..], i - 1);
    }
  }

  lemma EscapedCharCount(c: char)
    requires PrintableChar(c)
    ensures PlainCount(AsciiEscapeChar(c)) == if Plain(c) then 1 else 0
  {
    var t := AsciiEscapeChar(c);
    assert t == if Plain(c) then [c] else ['\\', c];
    assert [c][1..] == [] && PlainCount([c]) == if Plain(c) then 1 else 0;
    if !Plain(c) {
      assert t[1..] == [c] && !Plain('\\');
    }
  }

  /** Escaping printable text adds backslashes and quotes only. */
  lemma {:induction false} EscapeKeepsPlainCount(s: string)
    requires Printable(s)
    ensures PlainCount(AsciiEscape(s)) == PlainCount(s)
  {
    if s != [] {
      EscapedCharCount(s[0]);
      PlainCountConcat(AsciiEscapeChar(s[0]), AsciiEscape(s[1..]));
      EscapeKeepsPlainCount(s[1..]);
    }
  }

  lemma {:induction false} EscapeEnds(s: string)
    requires s != [] && Plain(s[0]) && Plain(s[|s| - 1])
    ensures var t := AsciiEscape(s); t != [] && Plain(t[0]) && Plain(t[|t| - 1])
  {
    if |s| > 1 {
      LastEscape(s);
    } else {
      assert s[1..] == [];
    }
  }

  lemma {:induction false} LastEscape(s: string)
    requires s != [] && Plain(s[|s| - 1])
    ensures var t := AsciiEscape(s); t != [] && Plain(t[|t| - 1])
  {
    if |s| > 1 {
      LastEscape(s[1..]);
    } else {
      assert s[1..] == [];
    }
  }

  lemma OccurrenceCounts(f: Fold, text: string, part: string, k: int)
    requires KeepsApart(f) && Printable(text) && Printable(part) && OccursAt(Folded(f, text), Folded(f, part), k)
    ensures PlainCount(text[k..k + |part|]) == PlainCount(part)
  {
    OccurrenceFolds(f, text, part, k);
    PlainCountFolded(f, text[k..k + |part|], part);
  }

  lemma OccurrenceFolds(f: Fold, text: string, part: string, k: int)
    requires OccursAt(Folded(f, text), Folded(f, part), k)
    ensures forall i | 0 <= i < |part| :: f(text[k..k + |part|][i]) == f(part[i])
  {
    forall i | 0 <= i < |part| ensures f(text[k..k + |part|][i]) == f(part[i]) {
      assert Folded(f, text)[k..k + |part|][i] == Folded(f, part)[i];
    }
  }

  lemma PlainCountAround(text: string, k: nat, n: nat)
    requires k + n <= |text|
    ensures PlainCount(text) == PlainCount(text[..k]) + PlainCount(text[k..k + n]) + PlainCount(text[k + n..])
  {
    var x, y, z := text[..k], text[k..k + n], text[k + n..];
    assert text == x + (y + z);
    PlainCountConcat(x, y + z);
    PlainCountConcat(y, z);
  }

  /** Cutting a part that is three shorter out of a text leaves its second or its last but one outside. */
  lemma PlainInside(text: string, k: nat, n: nat)
    requires k + n <= |text| && n + 3 <= |text| && Plain(text[1]) && Plain(text[|text| - 2])
    ensures PlainCount(text[k..k + n]) < PlainCount(text)
  {
    PlainCountAround(text, k, n);
    if k > 1 {
      PlainCounted(text[..k], 1);
    } else {
      PlainCounted(text[k + n..], |text| - 2 - (k + n));
    }
  }

  lemma ContainedCounts(f: Fold, text: string, part: string) returns (k: nat)
    requires KeepsApart(f) && Printable(text) && Printable(part) && Contains(Folded(f, text), Folded(f, part))
    ensures k + |part| <= |text| && PlainCount(text[k..k + |part|]) == PlainCount(part)
  {
    k :| OccursAt(Folded(f, text), Folded(f, part), k);
    OccurrenceCounts(f, text, part, k);
  }

  /** The literal of a path that needs escapes: no more plain characters than the path, the outer ones at its ends. */
  lemma LiteralShape(path: string)
    requires path != [] && Printable(path) && Plain(path[0]) && Plain(path[|path| - 1]) && AsciiEscape(path) != path
    ensures var q := AsciiQuote(path);
            && |path| + 3 <= |q| && Plain(q[1]) && Plain(q[|q| - 2]) && PlainCount(q) == PlainCount(path)
  {
    EscapeEnds(path);
    EscapedIsPrintable(path);
    UnescapedIff(path);
    LiteralPlainCount(path);
  }

  /**
   An occurrence would have to use up all plain characters of the text, from its second to its last
   but one, and the text is too long for that.
   */
  lemma LongerIsMissed(f: Fold, text: string, part: string)
    requires KeepsApart(f) && Printable(text) && Printable(part) && PlainCount(text) == PlainCount(part)
    requires |part| + 3 <= |text| && Plain(text[1]) && Plain(text[|text| - 2])
    ensures !Contains(Folded(f, text), Folded(f, part))
  {
    if Contains(Folded(f, text), Folded(f, part)) {
      var k := ContainedCounts(f, text, part);
      PlainInside(text, k, |part|);
    }
  }

  lemma EscapedIsMissed(f: Fold, path: string)
    requires KeepsApart(f) && path != [] && Printable(path) && Plain(path[0]) && Plain(path[|path| - 1])
    requires AsciiEscape(path) != path
    ensures !Contains(Folded(f, AsciiQuote(path)), Folded(f, path))
  {
    LiteralShape(path);
    LiteralIsPrintable(path);
    LongerIsMissed(f, AsciiQuote(path), path);
  }

  lemma LiteralPlainCount(path: string)
    requires Printable(path)
    ensures PlainCount(AsciiQuote(path)) == PlainCount(path)
  {
    EscapeKeepsPlainCount(path);
    PlainCountConcat("\"" + AsciiEscape(path), "\"");
    PlainCountConcat("\"", AsciiEscape(path));
    assert PlainCount("\""[1..]) == 0;
  }

  // ----- characters outside printable ASCII -----------------------------------------------------

  /** Some printable text, such as a payload, contains a character that reads as this one. */
  ghost predicate Readable(f: Fold, c: char) {
    exists d | PrintableChar(d) :: f(d) == f(c)
  }

  /** A path with a character that folds like no printable one is found in no payload. */
  lemma UnprintableIsMissed(f: Fold, ftsAvailable: bool, e: Event, userId: string, path: string, i: nat)
    requires userId != "" && i < |path| && !Readable(f, path[i]) && Printable(e.payload)
    ensures !Selects(f, f, ftsAvailable, e, userId, path)
  {
    ByFileExact(f, ftsAvailable, e, userId, path);
    if Contains(Folded(f, e.payload), Folded(f, path)) {
      ContainedIsReadable(f, e.payload, path, i);
    }
  }

  lemma ContainedIsReadable(f: Fold, text: string, part: string, i: nat)
    requires Printable(text) && i < |part| && Contains(Folded(f, text), Folded(f, part))
    ensures Readable(f, part[i])
  {
    var k :| OccursAt(Folded(f, text), Folded(f, part), k);
    OccurrenceFolds(f, text, part, k);
    assert f(text[k..k + |part|][i]) == f(part[i]);
  }

  /** Printable text that reads as the path. */
  lemma {:induction false} ReadsAs(f: Fold, path: string) returns (text: string)
    requires forall i | 0 <= i < |path| :: Readable(f, path[i])
    ensures Printable(text) && Folded(f, text) == Folded(f, path)
  {
    if path == "" {
      text := "";
    } else {
      var rest := ReadsAs(f, path[1..]);
      var d :| PrintableChar(d) && f(d) == f(path[0]);
      text := [d] + rest;
      forall i | 0 <= i < |path| ensures |text| == |path| && f(text[i]) == f(path[i]) {
        assert |Folded(f, rest)| == |Folded(f, path[1..])|;
        assert i > 0 ==> Folded(f, rest)[i - 1] == Folded(f, path[1..])[i - 1];
      }
    }
  }

  /** A path is found in some payload exactly when each of its characters reads as a printable one. */
  lemma FindableIff(f: Fold, ftsAvailable: bool, userId: string, path: string)
    requires userId != "" && path != ""
    ensures (exists e: Event :: Printable(e.payload) && Selects(f, f, ftsAvailable, e, userId, path))
            <==> forall i | 0 <= i < |path| :: Readable(f, path[i])
  {
    if forall i | 0 <= i < |path| :: Readable(f, path[i]) {
      var text := ReadsAs(f, path);
      var e := Event(0, userId, "file.edit", text);
      ContainsSelf(Folded(f, text));
      ByFileExact(f, ftsAvailable, e, userId, path);
      assert Printable(e.payload) && Selects(f, f, ftsAvailable, e, userId, path);
    } else {
      var i :| 0 <= i < |path| && !Readable(f, path[i]);
      forall e: Event | Printable(e.payload) ensures !Selects(f, f, ftsAvailable, e, userId, path) {
        UnprintableIsMissed(f, ftsAvailable, e, userId, path, i);
      }
    }
  }

  /** How many characters read as `x`. */
  function ReadCount(f: Fold, x: char, s: string): nat {
    if s == [] then 0 else (if f(s[0]) == x then 1 else 0) + ReadCount(f, x, s[1..])
  }

  lemma {:induction false} ReadCountConcat(f: Fold, x: char, a: string, b: string)
    ensures ReadCount(f, x, a + b) == ReadCount(f, x, a) + ReadCount(f, x, b)
  {
    if a == [] {
      assert a + b == b;
    } else {
      assert (a + b)[1..] == a[1..] + b;
      ReadCountConcat(f, x, a[1..], b);
    }
  }

  lemma {:induction false} ReadCountFolded(f: Fold, x: char, a: string, b: string)
    requires |a| == |b| && forall i | 0 <= i < |a| :: f(a[i]) == f(b[i])
    ensures ReadCount(f, x, a) == ReadCount(f, x, b)
  {
    if a != [] {
      assert f(a[0]) == f(b[0]);
      ReadCountFolded(f, x, a[1..], b[1..]);
    }
  }

  lemma {:induction false} ReadCountNone(f: Fold, x: char, s: string)
    requires forall i | 0 <= i < |s| :: f(s[i]) != x
    ensures ReadCount(f, x, s) == 0
  {
    if s != [] {
      ReadCountNone(f, x, s[1..]);
    }
  }

  lemma ContainedReadCount(f: Fold, x: char, text: string, part: string)
    requires Contains(Folded(f, text), Folded(f, part))
    ensures ReadCount(f, x, part) <= ReadCount(f, x, text)
  {
    var k :| OccursAt(Folded(f, text), Folded(f, part), k);
    var before, mid, after := text[..k], text[k..k + |part|], text[k + |part|..];
    OccurrenceFolds(f, text, part, k);
    ReadCountFolded(f, x, mid, part);
    assert text == before + (mid + after);
    ReadCountConcat(f, x, before, mid + after);
    ReadCountConcat(f, x, mid, after);
  }

  /** What an unprintable character reads as is lost when it is escaped, and nothing is gained. */
  lemma EscapedCharReadCount(f: Fold, x: char, c: char)
    requires forall d | EscapeLetter(d) :: f(d) != x
    ensures ReadCount(f, x, AsciiEscapeChar(c)) == if Plain(c) && f(c) == x then 1 else 0
  {
    if Plain(c) {
      assert [c][1..] == [];
    } else {
      ReadCountNone(f, x, AsciiEscapeChar(c));
    }
  }

  lemma {:induction false} EscapeReadCount(f: Fold, x: char, s: string)
    requires forall d | EscapeLetter(d) :: f(d) != x
    ensures ReadCount(f, x, AsciiEscape(s)) <= ReadCount(f, x, s)
    ensures (exists i | 0 <= i < |s| :: !PrintableChar(s[i]) && f(s[i]) == x) ==>
              ReadCount(f, x, AsciiEscape(s)) < ReadCount(f, x, s)
  {
    if s != [] {
      EscapedCharReadCount(f, x, s[0]);
      ReadCountConcat(f, x, AsciiEscapeChar(s[0]), AsciiEscape(s[1..]));
      EscapeReadCount(f, x, s[1..]);
      if exists i | 0 <= i < |s| :: !PrintableChar(s[i]) && f(s[i]) == x {
        var i :| 0 <= i < |s| && !PrintableChar(s[i]) && f(s[i]) == x;
        assert i > 0 ==> s[1..][i - 1] == s[i];
      }
    }
  }

  lemma LiteralReadCount(f: Fold, x: char, path: string)
    requires forall d | EscapeLetter(d) :: f(d) != x
    ensures ReadCount(f, x, AsciiQuote(path)) == ReadCount(f, x, AsciiEscape(path))
  {
    ReadCountConcat(f, x, "\"" + AsciiEscape(path), "\"");
    ReadCountConcat(f, x, "\"", AsciiEscape(path));
    ReadCountNone(f, x, "\"");
  }

  /** The literal of a path with an unprintable character does not contain the path. */
  lemma UnprintableIsEscaped(f: Fold, path: string)
    requires KeepsApart(f) && !Printable(path)
    ensures !Contains(Folded(f, AsciiQuote(path)), Folded(f, path))
  {
    var i :| 0 <= i < |path| && !PrintableChar(path[i]);
    var x := f(path[i]);
    if Contains(Folded(f, AsciiQuote(path)), Folded(f, path)) {
      if PrintableChar(x) {
        ContainedReadCount(f, x, AsciiQuote(path), path);
        LiteralReadCount(f, x, path);
        EscapeReadCount(f, x, path);
      } else {
        LiteralIsPrintable(path);
        ContainedIsReadable(f, AsciiQuote(path), path, i);
      }
    }
  }

  lemma LiteralIsPrintable(path: string)
    ensures Printable(AsciiQuote(path))
  {
    EscapedIsPrintable(path);
  }

  /**
   A path that neither begins nor ends with a quote or a backslash is found in whatever payload it is
   recorded exactly when escaping leaves it unchanged: a backslash or quote inside hides it, and so
   does any control or non-ASCII character anywhere.
   */
  lemma FoundIffUnescaped(f: Fold, ftsAvailable: bool, userId: string, path: string)
    requires KeepsApart(f) && userId != "" && path != ""
    requires !Marks(path[0]) && !Marks(path[|path| - 1])
    ensures AlwaysFound(f, ftsAvailable, userId, path) <==> AsciiEscape(path) == path
  {
    FoundIff(f, ftsAvailable, userId, path);
    UnescapedIff(path);
    if AsciiEscape(path) == path {
      ContainsSelf(Folded(f, path));
      FoldedConcat(f, "\"", path, "\"");
      ContainsInside(Folded(f, path), Folded(f, path), Folded(f, "\""), Folded(f, "\""));
    } else if Printable(path) {
      EscapedIsMissed(f, path);
    } else {
      UnprintableIsEscaped(f, path);
    }
  }
}
