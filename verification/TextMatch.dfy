/**
 Text matching under `by_file`: the LIKE pattern with its escapes, and the user-scoped FTS5 phrase
 over a trigram index.  Both are compared with plain substring search on case-folded text.  The two
 engines fold case differently (LIKE only ASCII letters, the tokenizer more), so each matcher takes
 its own folding function.
 */
module TextMatch {
  import opened Wrappers

  type Fold = char -> char

  function Folded(f: Fold, s: string): (r: string)
    ensures |r| == |s|
    ensures forall i | 0 <= i < |s| :: r[i] == f(s[i])
  {
    seq(|s|, i requires 0 <= i < |s| => f(s[i]))
  }

  ghost predicate OccursAt(text: string, part: string, k: int) {
    0 <= k <= |text| - |part| && text[k..k + |part|] == part
  }

  /** The reference: `part` occurs somewhere in `text`. */
  ghost predicate Contains(text: string, part: string) {
    exists k :: OccursAt(text, part, k)
  }

  // ----- LIKE --------------------------------------------------------------------------------------

  const ESCAPE := '\\'

  /** `str.replace` of a single character. */
  function Replace(s: string, c: char, t: string): string {
    if s == [] then [] else (if s[0] == c then t else [s[0]]) + Replace(s[1..], c, t)
  }

  /** The three successive replaces of the source. */
  function LikeEscape(s: string): string {
    Replace(Replace(Replace(s, ESCAPE, [ESCAPE, ESCAPE]), '%', [ESCAPE, '%']), '_', [ESCAPE, '_'])
  }

  function EscapeOne(c: char): string {
    if c == ESCAPE || c == '%' || c == '_' then [ESCAPE, c] else [c]
  }

  function EscapeEach(s: string): string {
    if s == [] then [] else EscapeOne(s[0]) + EscapeEach(s[1..])
  }

  lemma {:induction false} ReplaceConcat(a: string, b: string, c: char, t: string)
    ensures Replace(a + b, c, t) == Replace(a, c, t) + Replace(b, c, t)
  {
    if a == [] {
      assert a + b == b;
    } else {
      assert (a + b)[0] == a[0] && (a + b)[1..] == a[1..] + b;
      ReplaceConcat(a[1..], b, c, t);
    }
  }

  lemma ReplaceOne(x: char, c: char, t: string)
    ensures Replace([x], c, t) == if x == c then t else [x]
  {
    assert Replace([x][1..], c, t) == [];
  }

  lemma ReplaceTwo(x: char, y: char, c: char, t: string)
    ensures Replace([x, y], c, t) == (if x == c then t else [x]) + (if y == c then t else [y])
  {
    assert [x, y] == [x] + [y];
    ReplaceConcat([x], [y], c, t);
    ReplaceOne(x, c, t);
    ReplaceOne(y, c, t);
  }

  lemma LikeEscapeOne(c: char)
    ensures LikeEscape([c]) == EscapeOne(c)
  {
    ReplaceOne(c, ESCAPE, [ESCAPE, ESCAPE]);
    ReplaceOne(c, '%', [ESCAPE, '%']);
    ReplaceOne(c, '_', [ESCAPE, '_']);
    ReplaceTwo(ESCAPE, ESCAPE, '%', [ESCAPE, '%']);
    ReplaceTwo(ESCAPE, ESCAPE, '_', [ESCAPE, '_']);
    ReplaceTwo(ESCAPE, '%', '_', [ESCAPE, '_']);
  }

  lemma LikeEscapeConcat(a: string, b: string)
    ensures LikeEscape(a + b) == LikeEscape(a) + LikeEscape(b)
  {
    var one := (s: string) => Replace(s, ESCAPE, [ESCAPE, ESCAPE]);
    var two := (s: string) => Replace(s, '%', [ESCAPE, '%']);
    ReplaceConcat(a, b, ESCAPE, [ESCAPE, ESCAPE]);
    ReplaceConcat(one(a), one(b), '%', [ESCAPE, '%']);
    ReplaceConcat(two(one(a)), two(one(b)), '_', [ESCAPE, '_']);
  }

  /** Three passes in that order never escape an escape: they equal one pass, character by character. */
  lemma {:induction false} LikeEscapeIsPerCharacter(s: string)
    ensures LikeEscape(s) == EscapeEach(s)
  {
    if s != [] {
      assert s == [s[0]] + s[1..];
      LikeEscapeConcat([s[0]], s[1..]);
      LikeEscapeOne(s[0]);
      LikeEscapeIsPerCharacter(s[1..]);
    }
  }

  /** SQLite's LIKE with an ESCAPE character, over folded characters. */
  predicate Like(f: Fold, pattern: string, text: string)
    decreases |pattern| + |text|
  {
    if pattern == [] then text == []
    else if pattern[0] == ESCAPE then
      |pattern| > 1 && text != [] && f(pattern[1]) == f(text[0]) && Like(f, pattern[2..], text[1..])
    else if pattern[0] == '%' then
      Like(f, pattern[1..], text) || (text != [] && Like(f, pattern, text[1..]))
    else if pattern[0] == '_' then text != [] && Like(f, pattern[1..], text[1..])
    else text != [] && f(pattern[0]) == f(text[0]) && Like(f, pattern[1..], text[1..])
  }

  predicate StartsWith(f: Fold, text: string, s: string) {
    |s| <= |text| && Folded(f, text[..|s|]) == Folded(f, s)
  }

  lemma StartsWithStep(f: Fold, text: string, s: string)
    requires s != []
    ensures StartsWith(f, text, s) <==> text != [] && f(text[0]) == f(s[0]) && StartsWith(f, text[1..], s[1..])
  {
    if text != [] && |s| <= |text| {
      var t, rest := text[..|s|], text[1..][..|s[1..]|];
      assert forall i | 0 <= i < |rest| :: rest[i] == t[i + 1];
      assert forall i | 0 <= i < |s| - 1 :: s[1..][i] == s[i + 1];
      if StartsWith(f, text, s) {
        assert Folded(f, t)[0] == Folded(f, s)[0];
        forall i | 0 <= i < |rest| ensures Folded(f, rest)[i] == Folded(f, s[1..])[i] {
          assert Folded(f, t)[i + 1] == Folded(f, s)[i + 1];
        }
      }
      if f(text[0]) == f(s[0]) && StartsWith(f, rest, s[1..]) {
        forall i | 0 <= i < |s| ensures Folded(f, t)[i] == Folded(f, s)[i] {
          if i > 0 {
            assert Folded(f, rest)[i - 1] == Folded(f, s[1..])[i - 1];
          }
        }
      }
      assert rest[..|s[1..]|] == rest;
    }
  }

  lemma LikeEscapedChar(f: Fold, c: char, rest: string, text: string)
    ensures Like(f, EscapeOne(c) + rest, text) <==> text != [] && f(c) == f(text[0]) && Like(f, rest, text[1..])
  {
    var pattern := EscapeOne(c) + rest;
    if |EscapeOne(c)| == 2 {
      assert pattern[0] == ESCAPE && pattern[1] == c && pattern[2..] == rest;
    } else {
      assert pattern[0] == c && pattern[1..] == rest;
    }
  }

  /** An escaped literal matches exactly itself, up to folding, at the front of the text. */
  lemma {:induction false} LikeLiteral(f: Fold, s: string, rest: string, text: string)
    ensures Like(f, EscapeEach(s) + rest, text) <==> StartsWith(f, text, s) && Like(f, rest, text[|s|..])
  {
    if s == [] {
      assert EscapeEach(s) + rest == rest && text[..0] == [];
    } else {
      var more := EscapeEach(s[1..]) + rest;
      assert EscapeEach(s) + rest == EscapeOne(s[0]) + more;
      LikeEscapedChar(f, s[0], more, text);
      StartsWithStep(f, text, s);
      if text != [] {
        LikeLiteral(f, s[1..], rest, text[1..]);
        if |s| <= |text| {
          assert text[1..][|s[1..]|..] == text[|s|..];
        }
      }
    }
  }

  lemma {:induction false} LikePercent(f: Fold, rest: string, text: string)
    ensures Like(f, "%" + rest, text) <==> exists k :: 0 <= k <= |text| && Like(f, rest, text[k..])
    decreases |text|
  {
    var pattern := "%" + rest;
    assert pattern[0] == '%' && pattern[1..] == rest;
    assert text[0..] == text;
    if text != [] {
      LikePercent(f, rest, text[1..]);
      forall k | 0 <= k <= |text| - 1 ensures text[1..][k..] == text[k + 1..] {}
      if Like(f, pattern, text[1..]) {
        var k :| 0 <= k <= |text[1..]| && Like(f, rest, text[1..][k..]);
        assert Like(f, rest, text[k + 1..]);
      }
      if exists k :: 0 <= k <= |text| && Like(f, rest, text[k..]) {
        var k :| 0 <= k <= |text| && Like(f, rest, text[k..]);
        if k > 0 {
          assert text[1..][k - 1..] == text[k..];
        }
      }
    }
  }

  lemma LikeAnything(f: Fold, text: string)
    ensures Like(f, "%", text)
  {
    assert "%" + "" == "%" && text[|text|..] == "";
    LikePercent(f, "", text);
  }

  lemma OccursIffStarts(f: Fold, text: string, part: string, k: nat)
    requires k <= |text|
    ensures OccursAt(Folded(f, text), Folded(f, part), k) <==> StartsWith(f, text[k..], part)
  {
    if k + |part| <= |text| {
      var piece := text[k..][..|part|];
      assert Folded(f, piece) == Folded(f, text)[k..k + |part|];
    }
  }

  /** `%` + escaped text + `%` is substring search, whatever wildcards the text contains. */
  lemma LikeIsSubstring(f: Fold, path: string, text: string)
    ensures Like(f, "%" + LikeEscape(path) + "%", text) <==> Contains(Folded(f, text), Folded(f, path))
  {
    var body := EscapeEach(path) + "%";
    LikeEscapeIsPerCharacter(path);
    assert "%" + LikeEscape(path) + "%" == "%" + body;
    LikePercent(f, body, text);
    forall k | 0 <= k <= |text|
      ensures Like(f, body, text[k..]) <==> OccursAt(Folded(f, text), Folded(f, path), k)
    {
      LikeLiteral(f, path, "%", text[k..]);
      if StartsWith(f, text[k..], path) {
        LikeAnything(f, text[k..][|path|..]);
      }
      OccursIffStarts(f, text, path, k);
    }
  }

  // ----- FTS5 phrases -------------------------------------------------------------------------------

  function FtsPhrase(text: string): string {
    "\"" + Replace(text, '"', "\"\"") + "\""
  }

  const SENTINEL := 2 as char

  function FtsUserTag(userId: string): string {
    [SENTINEL] + userId + [SENTINEL]
  }

  function FtsScopedMatch(userId: string, payloadExpr: string): string {
    "user_tag:" + FtsPhrase(FtsUserTag(userId)) + " AND payload_json:" + payloadExpr
  }

  /** The inside of an FTS5 string literal: doubled quotes stand for one, a single quote ends it. */
  function ReadPhrase(q: string): Option<(string, string)> {
    if q == [] then None
    else if q[0] != '"' then
      match ReadPhrase(q[1..])
      case None => None
      case Some((text, rest)) => Some(([q[0]] + text, rest))
    else if |q| > 1 && q[1] == '"' then
      match ReadPhrase(q[2..])
      case None => None
      case Some((text, rest)) => Some(("\"" + text, rest))
    else Some(("", q[1..]))
  }

  function Drop(q: string, prefix: string): Option<string> {
    if |prefix| <= |q| && q[..|prefix|] == prefix then Some(q[|prefix|..]) else None
  }

  /** How FTS5 reads `user_tag:"..." AND payload_json:"..."`: the two phrases it will look up. */
  function ParseScoped(q: string): Option<(string, string)> {
    match Drop(q, "user_tag:\"")
    case None => None
    case Some(q1) =>
      match ReadPhrase(q1)
      case None => None
      case Some((tag, q2)) =>
        match Drop(q2, " AND payload_json:\"")
        case None => None
        case Some(q3) =>
          match ReadPhrase(q3)
          case None => None
          case Some((payload, q4)) => if q4 == "" then Some((tag, payload)) else None
  }

  /** Quoting survives parsing: no text can end its phrase early. */
  lemma {:induction false} ReadPhraseBack(text: string, rest: string)
    requires rest == [] || rest[0] != '"'
    ensures ReadPhrase(Replace(text, '"', "\"\"") + ("\"" + rest)) == Some((text, rest))
  {
    var q := Replace(text, '"', "\"\"") + ("\"" + rest);
    if text == [] {
      assert q == "\"" + rest && q[1..] == rest;
    } else {
      var tail := Replace(text[1..], '"', "\"\"") + ("\"" + rest);
      ReadPhraseBack(text[1..], rest);
      if text[0] == '"' {
        assert q == "\"\"" + tail && q[2..] == tail;
      } else {
        assert q == [text[0]] + tail && q[1..] == tail;
      }
      assert text == [text[0]] + text[1..];
    }
  }

  lemma DropBack(prefix: string, rest: string)
    ensures Drop(prefix + rest, prefix) == Some(rest)
  {
    assert (prefix + rest)[..|prefix|] == prefix && (prefix + rest)[|prefix|..] == rest;
  }

  /** The composed MATCH expression is read back as exactly the user's tag and the text. */
  lemma ScopedMatchRoundTrip(userId: string, text: string)
    ensures ParseScoped(FtsScopedMatch(userId, FtsPhrase(text))) == Some((FtsUserTag(userId), text))
  {
    var tag := FtsUserTag(userId);
    var quoted := Replace(text, '"', "\"\"");
    var last := quoted + ("\"" + "");
    var middle := " AND payload_json:\"" + last;
    var first := Replace(tag, '"', "\"\"") + ("\"" + middle);
    assert FtsScopedMatch(userId, FtsPhrase(text)) == "user_tag:\"" + first by {
      assert FtsPhrase(text) == "\"" + last;
    }
    DropBack("user_tag:\"", first);
    ReadPhraseBack(tag, middle);
    DropBack(" AND payload_json:\"", last);
    ReadPhraseBack(text, "");
  }

  // ----- trigrams --------------------------------------------------------------------------------------

  function Trigrams(s: string): seq<string> {
    if |s| < 3 then [] else [s[..3]] + Trigrams(s[1..])
  }

  lemma {:induction false} TrigramCount(s: string)
    ensures |Trigrams(s)| == if |s| < 3 then 0 else |s| - 2
  {
    if |s| >= 3 {
      TrigramCount(s[1..]);
    }
  }

  lemma {:induction false} TrigramAt(s: string, i: nat)
    requires i + 3 <= |s|
    ensures i < |Trigrams(s)| && Trigrams(s)[i] == s[i..i + 3]
  {
    if i > 0 {
      TrigramAt(s[1..], i - 1);
      assert s[1..][i - 1..i + 2] == s[i..i + 3];
    }
  }

  ghost predicate TokensAt(column: seq<string>, phrase: seq<string>, k: int) {
    0 <= k <= |column| - |phrase| && column[k..k + |phrase|] == phrase
  }

  /** A phrase matches a column when its trigrams occur there consecutively; an empty phrase never does. */
  ghost predicate PhraseMatches(f: Fold, column: string, phrase: string) {
    var wanted := Trigrams(Folded(f, phrase));
    wanted != [] && exists k :: TokensAt(Trigrams(Folded(f, column)), wanted, k)
  }

  lemma SameSlices(text: string, part: string, k: nat, i: nat, d: nat)
    requires d < 3 && i + 3 <= |part| && k + 3 <= |text| && text[k..k + 3] == part[i..i + 3]
    ensures text[k + d] == part[i + d]
  {
    assert text[k..k + 3][d] == text[k + d] && part[i..i + 3][d] == part[i + d];
  }

  /** Consecutive trigrams at an offset spell out the substring at that offset ... */
  lemma TokensSpell(text: string, part: string, k: nat)
    requires |part| >= 3 && TokensAt(Trigrams(text), Trigrams(part), k)
    ensures OccursAt(text, part, k)
  {
    TrigramCount(text);
    TrigramCount(part);
    var p := Trigrams(part);
    forall j | 0 <= j < |part| ensures text[k + j] == part[j] {
      var i := if j <= |part| - 3 then j else |part| - 3;
      assert Trigrams(text)[k..k + |p|][i] == p[i];
      TrigramAt(text, k + i);
      TrigramAt(part, i);
      SameSlices(text, part, k + i, i, j - i);
    }
  }

  lemma SliceOfSlice(s: string, k: nat, n: nat, i: nat, m: nat)
    requires k + n <= |s| && i + m <= n
    ensures s[k..k + n][i..i + m] == s[k + i..k + i + m]
  {
    var a, b := s[k..k + n][i..i + m], s[k + i..k + i + m];
    forall j | 0 <= j < m ensures a[j] == b[j] {
      assert s[k..k + n][i + j] == s[k + i + j];
    }
    assert a == b;
  }

  /** ... and a substring contributes exactly its own trigrams. */
  lemma SubstringTokens(text: string, part: string, k: nat)
    requires |part| >= 3 && OccursAt(text, part, k)
    ensures TokensAt(Trigrams(text), Trigrams(part), k)
  {
    TrigramCount(text);
    TrigramCount(part);
    forall i | 0 <= i < |Trigrams(part)| ensures Trigrams(text)[k + i] == Trigrams(part)[i] {
      TrigramAt(text, k + i);
      TrigramAt(part, i);
      SliceOfSlice(text, k, |part|, i, 3);
    }
  }

  /** From three characters on, phrase search over trigrams is substring search. */
  lemma PhraseIsSubstring(f: Fold, column: string, phrase: string)
    requires |phrase| >= 3
    ensures PhraseMatches(f, column, phrase) <==> Contains(Folded(f, column), Folded(f, phrase))
  {
    var c, p := Folded(f, column), Folded(f, phrase);
    TrigramCount(p);
    if PhraseMatches(f, column, phrase) {
      var k :| TokensAt(Trigrams(c), Trigrams(p), k);
      TokensSpell(c, p, k);
    }
    if Contains(c, p) {
      var k :| OccursAt(c, p, k);
      SubstringTokens(c, p, k);
    }
  }

  /** Below three characters the index has nothing to look up. */
  lemma ShortPhraseMatchesNothing(f: Fold, column: string, phrase: string)
    requires |phrase| < 3
    ensures !PhraseMatches(f, column, phrase)
  {
  }
}
