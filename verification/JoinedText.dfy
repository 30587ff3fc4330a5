/**
 Texts joined by two bars, and when the parts can be read back: bars are counted from the left, which
 no other reading can beat. Parts have no surrounding blanks; what counts as a blank is a parameter.
 */
module JoinedText {

  const SEPARATOR := "||"

  type Blank = char -> bool

  function Join(parts: seq<string>): string {
    if parts == [] then "" else if |parts| == 1 then parts[0] else parts[0] + SEPARATOR + Join(parts[1..])
  }

  predicate Trimmed(blank: Blank, s: string) {
    s != [] ==> !blank(s[0]) && !blank(s[|s| - 1])
  }

  predicate AllTrimmed(blank: Blank, parts: seq<string>) {
    forall i | 0 <= i < |parts| :: Trimmed(blank, parts[i])
  }

  // ----- separable parts ------------------------------------------------------------------------

  /** Two bars inside a part, neither beside a blank. */
  predicate DoubleBar(blank: Blank, p: string, k: int) {
    && 0 <= k <= |p| - 2 && p[k] == '|' && p[k + 1] == '|'
    && (k > 0 ==> !blank(p[k - 1])) && (k + 2 < |p| ==> !blank(p[k + 2]))
  }

  predicate BeginsWithBar(blank: Blank, p: string) {
    p != [] && p[0] == '|' && (|p| > 1 ==> !blank(p[1]))
  }

  predicate EndsInBar(blank: Blank, p: string) {
    p != [] && p[|p| - 1] == '|' && (|p| > 1 ==> !blank(p[|p| - 2]))
  }

  /** No double bar in the part, and none across a separator before or after it. */
  ghost predicate Solid(blank: Blank, p: string, first: bool, last: bool) {
    (forall k :: !DoubleBar(blank, p, k)) && (!first ==> !BeginsWithBar(blank, p)) && (!last ==> !EndsInBar(blank, p))
  }

  ghost predicate Separable(blank: Blank, parts: seq<string>) {
    forall i | 0 <= i < |parts| :: Solid(blank, parts[i], i == 0, i == |parts| - 1)
  }

  /** The parts after the first of some list. */
  ghost predicate SolidTail(blank: Blank, parts: seq<string>) {
    forall i | 0 <= i < |parts| :: Solid(blank, parts[i], false, i == |parts| - 1)
  }

  lemma SeparableTail(blank: Blank, parts: seq<string>)
    requires parts != [] && (Separable(blank, parts) || SolidTail(blank, parts))
    ensures SolidTail(blank, parts[1..]) && Separable(blank, parts[1..])
    ensures Solid(blank, parts[0], true, |parts| == 1)
  {
  }

  // ----- counting from the left -----------------------------------------------------------------

  /** The separators met when the text is read from the left. */
  function Cuts(s: string): nat {
    if |s| < 2 then 0 else if s[0] == '|' && s[1] == '|' then 1 + Cuts(s[2..]) else Cuts(s[1..])
  }

  lemma {:induction false} CutsCons(c: char, s: string)
    ensures Cuts(s) <= Cuts([c] + s) <= 1 + Cuts(s)
    decreases |s|
  {
    assert ([c] + s)[1..] == s;
    if s != [] {
      assert ([c] + s)[2..] == s[1..] && [s[0]] + s[1..] == s;
      CutsCons(s[0], s[1..]);
    }
  }

  /** Reading from the left finds at least as much as starting at any later separator. */
  lemma {:induction false} CutsFromLeft(x: string, y: string)
    ensures Cuts(x + SEPARATOR + y) >= 1 + Cuts(y)
  {
    var s := x + SEPARATOR + y;
    if x == [] {
      assert s[2..] == y;
    } else if s[0] == '|' && s[1] == '|' {
      if |x| == 1 {
        assert s[2..] == ['|'] + y;
        CutsCons('|', y);
      } else {
        assert s[2..] == x[2..] + SEPARATOR + y;
        CutsFromLeft(x[2..], y);
      }
    } else {
      assert s[1..] == x[1..] + SEPARATOR + y;
      CutsFromLeft(x[1..], y);
    }
  }

  /** So no list of parts has more separators than that. */
  lemma {:induction false} CutsOfReading(parts: seq<string>)
    requires parts != []
    ensures Cuts(Join(parts)) >= |parts| - 1
  {
    if |parts| > 1 {
      CutsOfReading(parts[1..]);
      CutsFromLeft(parts[0], Join(parts[1..]));
    }
  }

  function Never(): Blank {
    (c: char) => false
  }

  lemma SolidRest(p: string, first: bool, last: bool)
    requires p != [] && Solid(Never(), p, first, last)
    ensures Solid(Never(), p[1..], true, last)
    ensures |p| > 1 ==> !(p[0] == '|' && p[1] == '|')
    ensures |p| == 1 && p[0] == '|' ==> last
  {
    assert !DoubleBar(Never(), p, 0);
    forall k ensures !DoubleBar(Never(), p[1..], k) {
      assert !DoubleBar(Never(), p, k + 1);
    }
  }

  lemma {:induction false} CutsOfSolid(p: string, first: bool)
    requires Solid(Never(), p, first, true)
    ensures Cuts(p) == 0
  {
    if p != [] {
      SolidRest(p, first, true);
      CutsOfSolid(p[1..], true);
    }
  }

  lemma {:induction false} CutsAfterSolid(p: string, first: bool, rest: string)
    requires Solid(Never(), p, first, false)
    ensures Cuts(p + SEPARATOR + rest) == 1 + Cuts(rest)
  {
    var s := p + SEPARATOR + rest;
    if p == [] {
      assert s[2..] == rest;
    } else {
      SolidRest(p, first, false);
      assert s[1..] == p[1..] + SEPARATOR + rest;
      CutsAfterSolid(p[1..], true, rest);
    }
  }

  /** One more bar in front of solid parts does not make room for one more separator. */
  lemma {:induction false} CutsOfTail(parts: seq<string>)
    requires parts != [] && SolidTail(Never(), parts)
    ensures Cuts(['|'] + Join(parts)) <= |parts| - 1
  {
    var p, s := parts[0], ['|'] + Join(parts);
    assert s[1..] == Join(parts);
    assert Solid(Never(), p, false, |parts| == 1);
    if |parts| == 1 {
      CutsOfSolid(p, false);
    } else {
      var rest := Join(parts[1..]);
      SeparableTail(Never(), parts);
      CutsOfTail(parts[1..]);
      if p == [] {
        assert s[2..] == ['|'] + rest;
      } else {
        CutsAfterSolid(p, false, rest);
        CutsCons('|', rest);
      }
    }
  }

  // ----- separable parts read back --------------------------------------------------------------

  lemma SameStart(x: string, rx: string, y: string, ry: string)
    requires x + rx == y + ry && |x| == |y|
    ensures x == y && rx == ry
  {
    assert x == (x + rx)[..|x|] && y == (y + ry)[..|y|];
    assert rx == (x + rx)[|x|..] && ry == (y + ry)[|y|..];
  }

  /** A first part that ends earlier cuts the solid one in two. */
  lemma NotShorter(p: string, rp: string, q: string, rq: string)
    requires Solid(Never(), p, true, false) && p + SEPARATOR + rp == q + SEPARATOR + rq
    ensures |p| <= |q|
  {
    var s := p + SEPARATOR + rp;
    assert s[|q|] == '|' && s[|q| + 1] == '|';
    assert !DoubleBar(Never(), p, |q|);
    assert forall k | 0 <= k < |p| :: s[k] == p[k];
  }

  /** What is left of two readings after the first part of the shorter and one bar. */
  lemma AfterOneBar(p: string, rp: string, q: string, rq: string)
    requires p + SEPARATOR + rp == q + SEPARATOR + rq && |p| < |q|
    ensures ['|'] + rp == q[|p| + 1..] + SEPARATOR + rq
  {
    assert ['|'] + rp == (p + SEPARATOR + rp)[|p| + 1..];
    assert q[|p| + 1..] + SEPARATOR + rq == (q + SEPARATOR + rq)[|p| + 1..];
  }

  /** Readings whose first parts are of one length go on with readings of one text. */
  lemma SameFirst(a: seq<string>, b: seq<string>)
    requires 2 <= |a| == |b| && Join(a) == Join(b) && |a[0]| == |b[0]|
    ensures a[0] == b[0] && Join(a[1..]) == Join(b[1..])
  {
    SameStart(a[0] + SEPARATOR, Join(a[1..]), b[0] + SEPARATOR, Join(b[1..]));
    SameStart(a[0], SEPARATOR, b[0], SEPARATOR);
  }

  /** A first part that ends later leaves too few separators for the others. */
  lemma NotLonger(p: string, rp: string, q: string, rq: string, n: nat)
    requires p + SEPARATOR + rp == q + SEPARATOR + rq && Cuts(['|'] + rp) <= n <= Cuts(rq)
    ensures |q| <= |p|
  {
    if |q| > |p| {
      AfterOneBar(p, rp, q, rq);
      CutsFromLeft(q[|p| + 1..], rq);
    }
  }

  lemma {:induction false} SolidReadsBack(a: seq<string>, b: seq<string>)
    requires |a| == |b| && Separable(Never(), a) && Join(a) == Join(b)
    ensures a == b
  {
    if |a| >= 2 {
      SeparableTail(Never(), a);
      NotShorter(a[0], Join(a[1..]), b[0], Join(b[1..]));
      CutsOfTail(a[1..]);
      CutsOfReading(b[1..]);
      NotLonger(a[0], Join(a[1..]), b[0], Join(b[1..]), |a| - 2);
      SameFirst(a, b);
      SolidReadsBack(a[1..], b[1..]);
      assert a == [a[0]] + a[1..] && b == [b[0]] + b[1..];
    }
  }

  // ----- bars beside blanks ---------------------------------------------------------------------

  predicate BesideBlank(blank: Blank, s: string, k: nat)
    requires k < |s|
  {
    (k > 0 && blank(s[k - 1])) || (k + 1 < |s| && blank(s[k + 1]))
  }

  /** A bar beside a blank belongs to no separator of trimmed parts: another character may as well be there. */
  function Muted(blank: Blank, s: string): (t: string)
    ensures |t| == |s|
    ensures forall k | 0 <= k < |s| :: t[k] == if s[k] == '|' && BesideBlank(blank, s, k) then '/' else s[k]
  {
    seq(|s|, k requires 0 <= k < |s| => if s[k] == '|' && BesideBlank(blank, s, k) then '/' else s[k])
  }

  function AllMuted(blank: Blank, parts: seq<string>): (r: seq<string>)
    ensures |r| == |parts| && forall i | 0 <= i < |parts| :: r[i] == Muted(blank, parts[i])
  {
    seq(|parts|, i requires 0 <= i < |parts| => Muted(blank, parts[i]))
  }

  lemma {:induction false} JoinTrimmed(blank: Blank, parts: seq<string>)
    requires !blank('|') && AllTrimmed(blank, parts)
    ensures Trimmed(blank, Join(parts))
  {
    if |parts| >= 2 {
      JoinTrimmed(blank, parts[1..]);
    }
  }

  lemma MutedPair(blank: Blank, x: string, y: string)
    requires !blank('|') && Trimmed(blank, x) && Trimmed(blank, y)
    ensures Muted(blank, x + SEPARATOR + y) == Muted(blank, x) + SEPARATOR + Muted(blank, y)
  {
    var s, n := x + SEPARATOR + y, |x|;
    var t := Muted(blank, x) + SEPARATOR + Muted(blank, y);
    forall k | 0 <= k < |s| ensures Muted(blank, s)[k] == t[k] {
      if k < n {
        assert BesideBlank(blank, s, k) == BesideBlank(blank, x, k);
      } else if k >= n + 2 {
        assert BesideBlank(blank, s, k) == BesideBlank(blank, y, k - n - 2);
      }
    }
  }

  lemma {:induction false} MutedJoin(blank: Blank, parts: seq<string>)
    requires !blank('|') && AllTrimmed(blank, parts)
    ensures Muted(blank, Join(parts)) == Join(AllMuted(blank, parts))
  {
    if |parts| >= 2 {
      JoinTrimmed(blank, parts[1..]);
      MutedPair(blank, parts[0], Join(parts[1..]));
      MutedJoin(blank, parts[1..]);
      assert AllMuted(blank, parts)[1..] == AllMuted(blank, parts[1..]);
    }
  }

  lemma MutedSolid(blank: Blank, p: string, first: bool, last: bool)
    requires Solid(blank, p, first, last)
    ensures Solid(Never(), Muted(blank, p), first, last)
  {
    forall k ensures !DoubleBar(Never(), Muted(blank, p), k) {
      assert !DoubleBar(blank, p, k);
    }
  }

  lemma {:induction false} SameLengths(a: seq<string>, b: seq<string>)
    requires |a| == |b| && Join(a) == Join(b) && forall i | 0 <= i < |a| :: |a[i]| == |b[i]|
    ensures a == b
  {
    if |a| >= 2 {
      SameFirst(a, b);
      SameLengths(a[1..], b[1..]);
      assert a == [a[0]] + a[1..] && b == [b[0]] + b[1..];
    }
  }

  /** Separable parts are the only trimmed parts of that number with their joined text. */
  lemma SeparableReadsBack(blank: Blank, a: seq<string>, b: seq<string>)
    requires !blank('|') && AllTrimmed(blank, a) && AllTrimmed(blank, b) && Separable(blank, a)
    requires |a| == |b| && Join(a) == Join(b)
    ensures a == b
  {
    var ma, mb := AllMuted(blank, a), AllMuted(blank, b);
    MutedJoin(blank, a);
    MutedJoin(blank, b);
    forall i | 0 <= i < |ma| ensures Solid(Never(), ma[i], i == 0, i == |ma| - 1) {
      MutedSolid(blank, a[i], i == 0, i == |a| - 1);
    }
    SolidReadsBack(ma, mb);
    forall i | 0 <= i < |a| ensures |a[i]| == |b[i]| {
      assert ma[i] == mb[i];
    }
    SameLengths(a, b);
  }

  // ----- others have a second reading -----------------------------------------------------------

  function Resplit(a: seq<string>, i: nat, u: string, v: string): (b: seq<string>)
    requires i + 1 < |a|
    ensures |b| == |a|
  {
    a[i := u][i + 1 := v]
  }

  lemma {:induction false} ResplitJoins(a: seq<string>, i: nat, u: string, v: string)
    requires i + 1 < |a| && u + SEPARATOR + v == a[i] + SEPARATOR + a[i + 1]
    ensures Join(Resplit(a, i, u, v)) == Join(a)
  {
    var b := Resplit(a, i, u, v);
    if i > 0 {
      assert b[1..] == Resplit(a[1..], i - 1, u, v);
      ResplitJoins(a[1..], i - 1, u, v);
    } else if |a| == 2 {
      assert Join(a[1..]) == a[1] && Join(b[1..]) == v;
    } else {
      var rest := Join(a[2..]);
      assert a[1..][1..] == a[2..] && b[1..][1..] == a[2..];
      assert Join(a) == (a[0] + SEPARATOR + a[1]) + (SEPARATOR + rest);
      assert Join(b) == (u + SEPARATOR + v) + (SEPARATOR + rest);
    }
  }

  /** The two parts around one separator, with it put elsewhere. */
  ghost predicate SplitsAnew(blank: Blank, a: seq<string>, i: nat, u: string, v: string) {
    && i + 1 < |a| && u != a[i] && Trimmed(blank, u) && Trimmed(blank, v)
    && u + SEPARATOR + v == a[i] + SEPARATOR + a[i + 1]
  }

  lemma SplitInside(blank: Blank, a: seq<string>, i: nat, k: int) returns (j: nat, u: string, v: string)
    requires !blank('|') && AllTrimmed(blank, a) && |a| >= 2 && i < |a| && DoubleBar(blank, a[i], k)
    ensures SplitsAnew(blank, a, j, u, v)
  {
    var p := a[i];
    var x, y := p[..k], p[k + 2..];
    assert p == x + SEPARATOR + y;
    if i + 1 < |a| {
      j, u, v := i, x, y + SEPARATOR + a[i + 1];
      assert u + SEPARATOR + v == (x + SEPARATOR + y) + SEPARATOR + a[i + 1];
      assert |u| < |a[i]|;
    } else {
      j, u, v := i - 1, a[i - 1] + SEPARATOR + x, y;
      assert u + SEPARATOR + v == a[i - 1] + SEPARATOR + (x + SEPARATOR + y);
      assert |u| > |a[i - 1]|;
    }
  }

  lemma SplitAfterBar(blank: Blank, a: seq<string>, i: nat) returns (u: string, v: string)
    requires !blank('|') && AllTrimmed(blank, a) && i + 1 < |a| && EndsInBar(blank, a[i])
    ensures SplitsAnew(blank, a, i, u, v)
  {
    var p := a[i];
    u, v := p[..|p| - 1], ['|'] + a[i + 1];
    assert p == u + ['|'];
    assert u + SEPARATOR + v == u + ['|'] + SEPARATOR + a[i + 1];
  }

  lemma SplitBeforeBar(blank: Blank, a: seq<string>, i: nat) returns (u: string, v: string)
    requires !blank('|') && AllTrimmed(blank, a) && i + 1 < |a| && BeginsWithBar(blank, a[i + 1])
    ensures SplitsAnew(blank, a, i, u, v)
  {
    var q := a[i + 1];
    u, v := a[i] + ['|'], q[1..];
    assert q == ['|'] + v;
    assert u + SEPARATOR + v == a[i] + SEPARATOR + (['|'] + v);
  }

  lemma SecondSplit(blank: Blank, a: seq<string>) returns (i: nat, u: string, v: string)
    requires !blank('|') && AllTrimmed(blank, a) && |a| >= 2 && !Separable(blank, a)
    ensures SplitsAnew(blank, a, i, u, v)
  {
    i :| 0 <= i < |a| && !Solid(blank, a[i], i == 0, i == |a| - 1);
    if k :| DoubleBar(blank, a[i], k) {
      i, u, v := SplitInside(blank, a, i, k);
    } else if i > 0 && BeginsWithBar(blank, a[i]) {
      i := i - 1;
      u, v := SplitBeforeBar(blank, a, i);
    } else {
      u, v := SplitAfterBar(blank, a, i);
    }
  }
}
