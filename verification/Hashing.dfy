/**
 The text a content hash is taken of: each part in NFC and without surrounding blanks, a missing part
 replaced by a sentinel, the parts joined by two bars. NFC, the set of blanks and the digest are parameters.
 */
module Hashing {

  import opened Wrappers
  import opened JoinedText

  const NONE_SENTINEL := "\U{0}\U{0}NONE\U{0}\U{0}"

  datatype Hasher = Hasher(nfc: string -> string, blank: Blank, digest: string -> string)

  function Strip(blank: Blank, s: string): string {
    if s != [] && blank(s[0]) then Strip(blank, s[1..])
    else if s != [] && blank(s[|s| - 1]) then Strip(blank, s[..|s| - 1])
    else s
  }

  function Clean(h: Hasher, s: string): string {
    Strip(h.blank, h.nfc(s))
  }

  function Canon(h: Hasher, parts: seq<Option<string>>): (r: seq<string>)
    ensures |r| == |parts|
  {
    seq(|parts|, i requires 0 <= i < |parts| =>
      if parts[i].None? then NONE_SENTINEL else Clean(h, parts[i].value))
  }

  function Normalize(h: Hasher, parts: seq<Option<string>>): string {
    Join(Canon(h, parts))
  }

  function ContentHash(h: Hasher, parts: seq<Option<string>>): string {
    h.digest(Normalize(h, parts))
  }

  // ----- cleaned parts --------------------------------------------------------------------------

  /**
   What is used of Unicode: neither the bar nor NUL is a blank, and NFC changes no part of a text that
   it keeps, nor two such texts with a separator between them.
   */
  ghost predicate Regular(h: Hasher) {
    && !h.blank('|') && !h.blank('\U{0}') && h.nfc(NONE_SENTINEL) == NONE_SENTINEL
    && (forall s :: h.nfc(h.nfc(s)) == h.nfc(s))
    && (forall s: string, i, j | 0 <= i <= j <= |s| && h.nfc(s) == s :: h.nfc(s[i..j]) == s[i..j])
    && (forall s: string, t: string | h.nfc(s) == s && h.nfc(t) == t :: h.nfc(s + SEPARATOR + t) == s + SEPARATOR + t)
  }

  /** The parts a text is joined from. */
  ghost predicate Cleaned(h: Hasher, parts: seq<string>) {
    forall i | 0 <= i < |parts| :: Clean(h, parts[i]) == parts[i]
  }

  lemma {:induction false} StripTrims(blank: Blank, s: string) returns (i: nat, j: nat)
    ensures Trimmed(blank, Strip(blank, s)) && i <= j <= |s| && Strip(blank, s) == s[i..j]
  {
    if s != [] && blank(s[0]) {
      i, j := StripTrims(blank, s[1..]);
      i, j := i + 1, j + 1;
    } else if s != [] && blank(s[|s| - 1]) {
      i, j := StripTrims(blank, s[..|s| - 1]);
    } else {
      i, j := 0, |s|;
    }
  }

  lemma CleanIff(h: Hasher, s: string)
    requires Regular(h)
    ensures Clean(h, s) == s <==> h.nfc(s) == s && Trimmed(h.blank, s)
    ensures Clean(h, Clean(h, s)) == Clean(h, s)
  {
    var i, j := StripTrims(h.blank, h.nfc(s));
    var t := h.nfc(s);
    assert h.nfc(t) == t && h.nfc(t[i..j]) == t[i..j];
  }

  lemma CanonIsCleaned(h: Hasher, parts: seq<Option<string>>)
    requires Regular(h)
    ensures Cleaned(h, Canon(h, parts))
  {
    var canon := Canon(h, parts);
    forall i | 0 <= i < |canon| ensures Clean(h, canon[i]) == canon[i] {
      CleanIff(h, if parts[i].None? then NONE_SENTINEL else parts[i].value);
    }
  }

  lemma CleanedAre(h: Hasher, parts: seq<string>)
    requires Regular(h)
    ensures Cleaned(h, parts)
            <==> AllTrimmed(h.blank, parts) && forall i | 0 <= i < |parts| :: h.nfc(parts[i]) == parts[i]
  {
    forall i | 0 <= i < |parts|
      ensures Clean(h, parts[i]) == parts[i] <==> h.nfc(parts[i]) == parts[i] && Trimmed(h.blank, parts[i])
    {
      CleanIff(h, parts[i]);
    }
  }

  lemma {:induction false} JoinKeepsNfc(h: Hasher, parts: seq<string>)
    requires Regular(h) && parts != [] && forall i | 0 <= i < |parts| :: h.nfc(parts[i]) == parts[i]
    ensures h.nfc(Join(parts)) == Join(parts)
  {
    if |parts| > 1 {
      JoinKeepsNfc(h, parts[1..]);
    }
  }

  lemma {:induction false} PartOfJoin(parts: seq<string>, i: nat) returns (k: nat)
    requires i < |parts|
    ensures k + |parts[i]| <= |Join(parts)| && Join(parts)[k..k + |parts[i]|] == parts[i]
  {
    if i == 0 {
      k := 0;
    } else {
      k := PartOfJoin(parts[1..], i - 1);
      k := k + |parts[0]| + |SEPARATOR|;
    }
  }

  /** Trimmed parts of a text that NFC keeps are kept by it. */
  lemma PartsAreCleaned(h: Hasher, parts: seq<string>)
    requires Regular(h) && AllTrimmed(h.blank, parts) && h.nfc(Join(parts)) == Join(parts)
    ensures Cleaned(h, parts)
  {
    forall i | 0 <= i < |parts| ensures Clean(h, parts[i]) == parts[i] {
      var k := PartOfJoin(parts, i);
      CleanIff(h, parts[i]);
    }
  }

  // ----- reading the parts back -----------------------------------------------------------------

  lemma SecondReading(h: Hasher, a: seq<string>) returns (b: seq<string>)
    requires Regular(h) && Cleaned(h, a) && |a| >= 2 && !Separable(h.blank, a)
    ensures |b| == |a| && Cleaned(h, b) && Join(b) == Join(a) && b != a
  {
    CleanedAre(h, a);
    var i, u, v := SecondSplit(h.blank, a);
    b := Resplit(a, i, u, v);
    ResplitJoins(a, i, u, v);
    JoinKeepsNfc(h, a);
    PartsAreCleaned(h, b);
    assert b[i] == u;
  }

  /**
   Cleaned parts are the only ones of their number with their joined text exactly when they are
   separable: no double bar stands inside a part or comes about where a part meets a separator.
   */
  lemma JoinReadsBackIff(h: Hasher, a: seq<string>)
    requires Regular(h) && Cleaned(h, a)
    ensures (forall b | |b| == |a| && Cleaned(h, b) && Join(b) == Join(a) :: b == a)
            <==> |a| <= 1 || Separable(h.blank, a)
  {
    CleanedAre(h, a);
    if |a| >= 2 && !Separable(h.blank, a) {
      var b := SecondReading(h, a);
    } else {
      forall b | |b| == |a| && Cleaned(h, b) && Join(b) == Join(a) ensures b == a {
        CleanedAre(h, b);
        if |a| >= 2 {
          SeparableReadsBack(h.blank, a, b);
        } else if |a| == 1 {
          assert a == [a[0]] && b == [b[0]];
        }
      }
    }
  }

  /** The same parts up to cleaning; missing ones in the same places. */
  ghost predicate Alike(h: Hasher, a: seq<Option<string>>, b: seq<Option<string>>) {
    |a| == |b| && forall i | 0 <= i < |a| ::
      a[i].None? == b[i].None? && (a[i].Some? && b[i].Some? ==> Clean(h, a[i].value) == Clean(h, b[i].value))
  }

  lemma AlikeCanon(h: Hasher, a: seq<Option<string>>, b: seq<Option<string>>)
    requires Alike(h, a, b)
    ensures Canon(h, a) == Canon(h, b)
  {
  }

  /** No text is cleaned to the sentinel of a missing one. */
  ghost predicate Accepted(h: Hasher, parts: seq<Option<string>>) {
    forall i | 0 <= i < |parts| :: parts[i].Some? ==> Clean(h, parts[i].value) != NONE_SENTINEL
  }

  lemma CanonAlike(h: Hasher, a: seq<Option<string>>, b: seq<Option<string>>)
    requires Canon(h, a) == Canon(h, b) && Accepted(h, a) && Accepted(h, b)
    ensures Alike(h, a, b)
  {
    forall i | 0 <= i < |a|
      ensures a[i].None? == b[i].None? && (a[i].Some? && b[i].Some? ==> Clean(h, a[i].value) == Clean(h, b[i].value))
    {
      assert Canon(h, a)[i] == Canon(h, b)[i];
    }
  }

  /** Parts with given canonical forms. */
  function Uncanon(canon: seq<string>): (parts: seq<Option<string>>)
    ensures |parts| == |canon|
  {
    seq(|canon|, i requires 0 <= i < |canon| => if canon[i] == NONE_SENTINEL then None else Some(canon[i]))
  }

  lemma UncanonIs(h: Hasher, canon: seq<string>)
    requires Cleaned(h, canon)
    ensures Canon(h, Uncanon(canon)) == canon && Accepted(h, Uncanon(canon))
  {
  }

  /**
   As long as no text is the sentinel: two lists with one hashed text are alike, whatever the second,
   exactly when the first is separable. So which contents can be taken for others is known before hashing.
   */
  lemma NormalizeReadsBackIff(h: Hasher, a: seq<Option<string>>)
    requires Regular(h) && Accepted(h, a)
    ensures (forall b | |b| == |a| && Accepted(h, b) && Normalize(h, b) == Normalize(h, a) :: Alike(h, a, b))
            <==> |a| <= 1 || Separable(h.blank, Canon(h, a))
  {
    var canon := Canon(h, a);
    CanonIsCleaned(h, a);
    JoinReadsBackIff(h, canon);
    if |a| <= 1 || Separable(h.blank, canon) {
      forall b | |b| == |a| && Accepted(h, b) && Normalize(h, b) == Normalize(h, a) ensures Alike(h, a, b) {
        CanonIsCleaned(h, b);
        assert Canon(h, b) == canon;
        CanonAlike(h, a, b);
      }
    } else {
      var other :| |other| == |canon| && Cleaned(h, other) && Join(other) == Join(canon) && other != canon;
      UncanonIs(h, other);
      if Alike(h, a, Uncanon(other)) {
        AlikeCanon(h, a, Uncanon(other));
      }
    }
  }

  /** A missing part and a text that is the sentinel are told apart by nothing. */
  function Confused(parts: seq<Option<string>>, i: nat): seq<Option<string>>
    requires i < |parts|
  {
    parts[i := if parts[i].None? then Some(NONE_SENTINEL) else None]
  }

  lemma ConfusedIs(h: Hasher, a: seq<Option<string>>, i: nat)
    requires Regular(h) && i < |a| && Canon(h, a)[i] == NONE_SENTINEL
    ensures Canon(h, Confused(a, i)) == Canon(h, a) && !Alike(h, a, Confused(a, i))
  {
    var b := Confused(a, i);
    CleanIff(h, NONE_SENTINEL);
    assert a[i].None? != b[i].None?;
  }

  /**
   Without that assumption: exactly when the list is separable and holds neither a missing part nor
   the sentinel.
   */
  lemma SentinelReadsBackIff(h: Hasher, a: seq<Option<string>>)
    requires Regular(h)
    ensures (forall b | |b| == |a| && Normalize(h, b) == Normalize(h, a) :: Alike(h, a, b))
            <==> NONE_SENTINEL !in Canon(h, a) && (|a| <= 1 || Separable(h.blank, Canon(h, a)))
  {
    var canon := Canon(h, a);
    if NONE_SENTINEL in canon {
      var i :| 0 <= i < |canon| && canon[i] == NONE_SENTINEL;
      ConfusedIs(h, a, i);
    } else {
      CanonIsCleaned(h, a);
      SameCanonAccepted(h, a, a);
      NormalizeReadsBackIff(h, a);
      JoinReadsBackIff(h, canon);
      if |a| <= 1 || Separable(h.blank, canon) {
        forall b | |b| == |a| && Normalize(h, b) == Normalize(h, a) ensures Alike(h, a, b) {
          CanonIsCleaned(h, b);
          assert Canon(h, b) == canon;
          SameCanonAccepted(h, a, b);
          CanonAlike(h, a, b);
        }
      }
    }
  }

  lemma SameCanonAccepted(h: Hasher, a: seq<Option<string>>, b: seq<Option<string>>)
    requires Canon(h, a) == Canon(h, b) && NONE_SENTINEL !in Canon(h, a)
    ensures Accepted(h, b)
  {
    forall i | 0 <= i < |b| ensures b[i].Some? ==> Clean(h, b[i].value) != NONE_SENTINEL {
      assert Canon(h, b)[i] in Canon(h, a);
    }
  }

  /** The part of a hashed text that stands for one given part. */
  function Part(h: Hasher, part: Option<string>): string {
    match part
    case None => "\U{0}\U{0}NONE\U{0}\U{0}"
    case Some(s) => Clean(h, s)
  }

  /** What is digested of the three parts of a memory: each in its place, with two bars in between. */
  lemma DigestOfThree(h: Hasher, a: Option<string>, b: Option<string>, c: Option<string>)
    ensures ContentHash(h, [a, b, c]) == h.digest(Part(h, a) + "||" + Part(h, b) + "||" + Part(h, c))
  {
    assert Canon(h, [a, b, c]) == [Part(h, a), Part(h, b), Part(h, c)];
    JoinOfThree(Part(h, a), Part(h, b), Part(h, c));
  }

  /** And of the five of a claim. */
  lemma DigestOfFive(h: Hasher, a: Option<string>, b: Option<string>, c: Option<string>, d: Option<string>,
                     e: Option<string>)
    ensures ContentHash(h, [a, b, c, d, e])
            == h.digest(Part(h, a) + "||" + Part(h, b) + "||" + Part(h, c) + "||" + Part(h, d) + "||" + Part(h, e))
  {
    assert Canon(h, [a, b, c, d, e]) == [Part(h, a), Part(h, b), Part(h, c), Part(h, d), Part(h, e)];
    JoinOfFive(Part(h, a), Part(h, b), Part(h, c), Part(h, d), Part(h, e));
  }

  lemma JoinOfThree(x: string, y: string, z: string)
    ensures Join([x, y, z]) == x + "||" + y + "||" + z
  {
    assert [x, y, z][1..] == [y, z] && [y, z][1..] == [z];
    JoinNext(x, [y, z]);
    JoinNext(y, [z]);
    assert x + "||" + (y + "||" + z) == x + "||" + y + "||" + z;
  }

  lemma JoinNext(x: string, rest: seq<string>)
    requires rest != []
    ensures Join([x] + rest) == x + "||" + Join(rest)
  {
    assert ([x] + rest)[1..] == rest;
  }

  lemma JoinOfFive(x: string, y: string, z: string, v: string, w: string)
    ensures Join([x, y, z, v, w]) == x + "||" + y + "||" + z + "||" + v + "||" + w
  {
    var tail := z + "||" + v + "||" + w;
    JoinOfThree(z, v, w);
    JoinNext(y, [z, v, w]);
    JoinNext(x, [y, z, v, w]);
    assert [y] + [z, v, w] == [y, z, v, w] && [x] + [y, z, v, w] == [x, y, z, v, w];
    FiveRegroup(x, y, z, v, w);
  }

  lemma FiveRegroup(x: string, y: string, z: string, v: string, w: string)
    ensures x + "||" + (y + "||" + (z + "||" + v + "||" + w)) == x + "||" + y + "||" + z + "||" + v + "||" + w
  {
  }

  /** One case of it: two different memories, by title, summary and path, with one hash. */
  lemma BarsCollide(h: Hasher, vaultPath: string)
    requires Clean(h, "a||b") == "a||b" && Clean(h, "a") == "a" && Clean(h, "b||") == "b||" && Clean(h, "") == ""
    ensures var one := [Some("a||b"), Some(""), Some(vaultPath)];
            var other := [Some("a"), Some("b||"), Some(vaultPath)];
            !Alike(h, one, other) && ContentHash(h, one) == ContentHash(h, other)
  {
    var one := [Some("a||b"), Some(""), Some(vaultPath)];
    var other := [Some("a"), Some("b||"), Some(vaultPath)];
    var last := Clean(h, vaultPath);
    assert Canon(h, one) == ["a||b", "", last];
    assert Canon(h, other) == ["a", "b||", last];
    assert ["a||b", "", last][1..] == ["", last] && ["", last][1..] == [last];
    assert ["a", "b||", last][1..] == ["b||", last] && ["b||", last][1..] == [last];
    assert Join(["", last]) == "||" + last;
    assert Join(["b||", last]) == "b||||" + last;
    assert "a||b" + SEPARATOR + ("||" + last) == "a" + SEPARATOR + ("b||||" + last);
    assert one[0].value != other[0].value;
    assert Clean(h, one[0].value) != Clean(h, other[0].value);
  }
}
