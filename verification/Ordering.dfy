/**
 Sorting and filtering of sequences, shared by every component that calls `sorted`, `ORDER BY` or
 a comprehension: insertion sort over any strict order, its uniqueness, and how it meets filters.
 Strings are ordered by code point, as Python compares them.
 */
module Ordering {

  ghost predicate StrictOrder<T(!new)>(lt: (T, T) -> bool) {
    && (forall x :: !lt(x, x))
    && (forall x, y, z :: lt(x, y) && lt(y, z) ==> lt(x, z))
  }

  /** Any two different elements of `s` are comparable. */
  ghost predicate TotalOn<T>(lt: (T, T) -> bool, s: seq<T>) {
    forall x, y | x in s && y in s && x != y :: lt(x, y) || lt(y, x)
  }

  ghost predicate Sorted<T>(lt: (T, T) -> bool, s: seq<T>) {
    forall i, j | 0 <= i < j < |s| :: !lt(s[j], s[i])
  }

  function Insert<T>(lt: (T, T) -> bool, x: T, s: seq<T>): (r: seq<T>)
    ensures |r| == |s| + 1
    ensures multiset(r) == multiset(s) + multiset{x}
  {
    if s == [] || lt(x, s[0]) then
      assert multiset([x] + s) == multiset{x} + multiset(s);
      [x] + s
    else
      var r := [s[0]] + Insert(lt, x, s[1..]);
      assert s == [s[0]] + s[1..];
      r
  }

  function Sort<T>(lt: (T, T) -> bool, s: seq<T>): (r: seq<T>)
    ensures |r| == |s|
    ensures multiset(r) == multiset(s)
  {
    if s == [] then []
    else
      assert s == [s[0]] + s[1..];
      Insert(lt, s[0], Sort(lt, s[1..]))
  }

  lemma InsertMembers<T>(lt: (T, T) -> bool, x: T, s: seq<T>)
    ensures forall y :: y in Insert(lt, x, s) <==> y == x || y in s
  {
    forall y ensures y in Insert(lt, x, s) <==> y == x || y in s {
      assert y in multiset(Insert(lt, x, s)) <==> y in multiset(s) + multiset{x};
    }
  }

  lemma SortMembers<T>(lt: (T, T) -> bool, s: seq<T>)
    ensures forall y :: y in Sort(lt, s) <==> y in s
  {
    forall y ensures y in Sort(lt, s) <==> y in s {
      assert y in multiset(Sort(lt, s)) <==> y in multiset(s);
    }
  }

  lemma SortedTail<T>(lt: (T, T) -> bool, s: seq<T>)
    requires Sorted(lt, s) && s != []
    ensures Sorted(lt, s[1..])
    ensures forall x | x in s[1..] :: !lt(x, s[0])
  {
  }

  lemma SortedCons<T>(lt: (T, T) -> bool, x: T, s: seq<T>)
    requires Sorted(lt, s) && forall y | y in s :: !lt(y, x)
    ensures Sorted(lt, [x] + s)
  {
  }

  lemma {:induction false} InsertSorted<T(!new)>(lt: (T, T) -> bool, x: T, s: seq<T>)
    requires StrictOrder(lt) && Sorted(lt, s)
    ensures Sorted(lt, Insert(lt, x, s))
  {
    if s == [] {
    } else if lt(x, s[0]) {
      assert forall y | y in s :: lt(y, x) ==> lt(y, s[0]);
      assert s == [s[0]] + s[1..];
      SortedTail(lt, s);
      SortedCons(lt, x, s);
    } else {
      SortedTail(lt, s);
      InsertSorted(lt, x, s[1..]);
      InsertMembers(lt, x, s[1..]);
      SortedCons(lt, s[0], Insert(lt, x, s[1..]));
    }
  }

  lemma {:induction false} SortSorts<T(!new)>(lt: (T, T) -> bool, s: seq<T>)
    requires StrictOrder(lt)
    ensures Sorted(lt, Sort(lt, s))
  {
    if s != [] {
      SortSorts(lt, s[1..]);
      InsertSorted(lt, s[0], Sort(lt, s[1..]));
    }
  }

  /** A sorted sequence is determined by its elements. */
  lemma {:induction false} SortedUnique<T(!new)>(lt: (T, T) -> bool, a: seq<T>, b: seq<T>)
    requires Sorted(lt, a) && Sorted(lt, b) && multiset(a) == multiset(b) && TotalOn(lt, a)
    ensures a == b
  {
    if a == [] {
      assert |multiset(b)| == 0;
    } else {
      assert a == [a[0]] + a[1..];
      assert |multiset(b)| == |multiset(a)| > 0;
      assert b == [b[0]] + b[1..];
      assert b[0] in multiset(a) && a[0] in multiset(b);
      assert b[0] in a && a[0] in b;
      SortedTail(lt, a);
      SortedTail(lt, b);
      assert a[0] == b[0];
      assert multiset(a[1..]) == multiset(a) - multiset{a[0]};
      assert multiset(b[1..]) == multiset(b) - multiset{b[0]};
      SortedUnique(lt, a[1..], b[1..]);
    }
  }

  /** Sorting a sequence that is already in order changes nothing. */
  lemma SortOfSorted<T(!new)>(lt: (T, T) -> bool, s: seq<T>)
    requires StrictOrder(lt) && Sorted(lt, s) && TotalOn(lt, s)
    ensures Sort(lt, s) == s
  {
    SortSorts(lt, s);
    SortedUnique(lt, s, Sort(lt, s));
  }

  ghost predicate StrictlySorted<T>(lt: (T, T) -> bool, s: seq<T>) {
    forall i, j | 0 <= i < j < |s| :: lt(s[i], s[j])
  }

  /** A strictly sorted sequence is determined by its members. */
  lemma {:induction false} StrictlySortedUnique<T(!new)>(lt: (T, T) -> bool, a: seq<T>, b: seq<T>)
    requires StrictOrder(lt) && StrictlySorted(lt, a) && StrictlySorted(lt, b)
    requires forall x :: x in a <==> x in b
    ensures a == b
  {
    assert b != [] ==> b[0] in b;
    if a != [] {
      assert a[0] in b && b[0] in a;
      StrictHead(lt, a, b[0]);
      StrictHead(lt, b, a[0]);
      forall x ensures x in a[1..] <==> x in b[1..] {
        StrictTail(lt, a, x);
        StrictTail(lt, b, x);
      }
      StrictlySortedUnique(lt, a[1..], b[1..]);
      assert a == [a[0]] + a[1..] && b == [b[0]] + b[1..];
    }
  }

  lemma StrictHead<T(!new)>(lt: (T, T) -> bool, s: seq<T>, x: T)
    requires StrictlySorted(lt, s) && x in s
    ensures x == s[0] || lt(s[0], x)
  {
  }

  lemma StrictTail<T(!new)>(lt: (T, T) -> bool, s: seq<T>, x: T)
    requires StrictOrder(lt) && StrictlySorted(lt, s) && s != []
    ensures x in s[1..] <==> x in s && x != s[0]
  {
    assert s == [s[0]] + s[1..];
  }

  /** Elements at different positions are comparable, so there are no ties and no repeats. */
  ghost predicate NoTies<T>(lt: (T, T) -> bool, s: seq<T>) {
    forall i, j | 0 <= i < j < |s| :: lt(s[i], s[j]) || lt(s[j], s[i])
  }

  lemma StrictCons<T>(lt: (T, T) -> bool, x: T, s: seq<T>)
    requires StrictlySorted(lt, s) && forall y | y in s :: lt(x, y)
    ensures StrictlySorted(lt, [x] + s)
  {
  }

  lemma {:induction false} InsertStrict<T(!new)>(lt: (T, T) -> bool, x: T, s: seq<T>)
    requires StrictOrder(lt) && StrictlySorted(lt, s)
    requires forall y | y in s :: lt(x, y) || lt(y, x)
    ensures StrictlySorted(lt, Insert(lt, x, s))
  {
    if s == [] {
    } else if lt(x, s[0]) {
      forall y | y in s ensures lt(x, y) {
        StrictHead(lt, s, y);
      }
      StrictCons(lt, x, s);
    } else {
      assert s[0] in s && s == [s[0]] + s[1..];
      InsertStrict(lt, x, s[1..]);
      InsertMembers(lt, x, s[1..]);
      StrictCons(lt, s[0], Insert(lt, x, s[1..]));
    }
  }

  lemma {:induction false} SortStrict<T(!new)>(lt: (T, T) -> bool, s: seq<T>)
    requires StrictOrder(lt) && NoTies(lt, s)
    ensures StrictlySorted(lt, Sort(lt, s))
  {
    if s != [] {
      SortStrict(lt, s[1..]);
      SortMembers(lt, s[1..]);
      InsertStrict(lt, s[0], Sort(lt, s[1..]));
    }
  }

  // ----- filters --------------------------------------------------------------------------------

  function Filter<T(!new)>(p: T -> bool, s: seq<T>): (r: seq<T>)
    ensures |r| <= |s|
    ensures forall x :: x in r <==> x in s && p(x)
  {
    if s == [] then []
    else
      assert s == [s[0]] + s[1..];
      (if p(s[0]) then [s[0]] else []) + Filter(p, s[1..])
  }

  lemma {:induction false} FilterConcat<T(!new)>(p: T -> bool, a: seq<T>, b: seq<T>)
    ensures Filter(p, a + b) == Filter(p, a) + Filter(p, b)
  {
    if a == [] {
      assert a + b == b;
    } else {
      assert (a + b)[0] == a[0] && (a + b)[1..] == a[1..] + b;
      FilterConcat(p, a[1..], b);
    }
  }

  lemma {:induction false} FilterAll<T(!new)>(p: T -> bool, s: seq<T>)
    requires forall x | x in s :: p(x)
    ensures Filter(p, s) == s
  {
    if s != [] {
      FilterAll(p, s[1..]);
    }
  }

  lemma {:induction false} FilterNone<T(!new)>(p: T -> bool, s: seq<T>)
    requires forall x | x in s :: !p(x)
    ensures Filter(p, s) == []
  {
    if s != [] {
      FilterNone(p, s[1..]);
    }
  }

  lemma {:induction false} FilterAgree<T(!new)>(p: T -> bool, q: T -> bool, s: seq<T>)
    requires forall x | x in s :: p(x) == q(x)
    ensures Filter(p, s) == Filter(q, s)
  {
    if s != [] {
      FilterAgree(p, q, s[1..]);
    }
  }

  lemma {:induction false} FilterStrict<T(!new)>(lt: (T, T) -> bool, p: T -> bool, s: seq<T>)
    requires StrictlySorted(lt, s)
    ensures StrictlySorted(lt, Filter(p, s))
  {
    if s != [] {
      FilterStrict(lt, p, s[1..]);
      forall x | x in Filter(p, s[1..]) ensures lt(s[0], x) {
        var i :| 0 <= i < |s[1..]| && s[1..][i] == x;
      }
    }
  }

  lemma FilterCons<T(!new)>(p: T -> bool, x: T, s: seq<T>)
    ensures Filter(p, [x] + s) == if p(x) then [x] + Filter(p, s) else Filter(p, s)
  {
    assert ([x] + s)[1..] == s;
  }

  lemma InsertCons<T>(lt: (T, T) -> bool, x: T, y: T, s: seq<T>)
    ensures Insert(lt, x, [y] + s) == if lt(x, y) then [x, y] + s else [y] + Insert(lt, x, s)
  {
    assert ([y] + s)[1..] == s;
  }

  lemma InsertBelow<T>(lt: (T, T) -> bool, x: T, s: seq<T>)
    requires forall y | y in s :: lt(x, y)
    ensures Insert(lt, x, s) == [x] + s
  {
  }

  lemma BelowSorted<T(!new)>(lt: (T, T) -> bool, x: T, s: seq<T>)
    requires StrictOrder(lt) && Sorted(lt, s) && TotalOn(lt, s) && s != [] && lt(x, s[0])
    ensures forall y | y in s :: lt(x, y)
  {
    SortedTail(lt, s);
    assert s == [s[0]] + s[1..];
  }

  /** Inserting and filtering commute: the order of what is kept never depends on what is dropped. */
  lemma {:induction false} FilterInsert<T(!new)>(lt: (T, T) -> bool, p: T -> bool, x: T, s: seq<T>)
    requires StrictOrder(lt) && Sorted(lt, s) && TotalOn(lt, s)
    ensures Filter(p, Insert(lt, x, s)) == if p(x) then Insert(lt, x, Filter(p, s)) else Filter(p, s)
  {
    if s == [] {
    } else if lt(x, s[0]) {
      BelowSorted(lt, x, s);
      FilterCons(p, x, s);
      InsertBelow(lt, x, Filter(p, s));
    } else {
      var rest := s[1..];
      assert s == [s[0]] + rest;
      SortedTail(lt, s);
      FilterInsert(lt, p, x, rest);
      FilterCons(p, s[0], rest);
      FilterCons(p, s[0], Insert(lt, x, rest));
      InsertCons(lt, x, s[0], Filter(p, rest));
    }
  }

  lemma SortCons<T>(lt: (T, T) -> bool, x: T, s: seq<T>)
    ensures Sort(lt, [x] + s) == Insert(lt, x, Sort(lt, s))
  {
    assert ([x] + s)[1..] == s;
  }

  lemma TotalOnSubset<T>(lt: (T, T) -> bool, s: seq<T>, t: seq<T>)
    requires TotalOn(lt, s) && forall x | x in t :: x in s
    ensures TotalOn(lt, t)
  {
  }

  /** Sorting and filtering commute. */
  lemma {:induction false} FilterSort<T(!new)>(lt: (T, T) -> bool, p: T -> bool, s: seq<T>)
    requires StrictOrder(lt) && TotalOn(lt, s)
    ensures Filter(p, Sort(lt, s)) == Sort(lt, Filter(p, s))
  {
    if s != [] {
      var x, rest := s[0], s[1..];
      assert s == [x] + rest;
      TotalOnSubset(lt, s, rest);
      FilterSort(lt, p, rest);
      SortSorts(lt, rest);
      SortMembers(lt, rest);
      TotalOnSubset(lt, rest, Sort(lt, rest));
      FilterInsert(lt, p, x, Sort(lt, rest));
      FilterCons(p, x, rest);
      SortCons(lt, x, Filter(p, rest));
    }
  }

  // ----- strings -----------------------------------------------------------------------------------

  /** Lexicographic order by code point. */
  predicate StringLess(a: string, b: string) {
    if b == [] then false
    else if a == [] then true
    else a[0] < b[0] || (a[0] == b[0] && StringLess(a[1..], b[1..]))
  }

  /** The same without recursion: where they first differ `a` has the smaller code point, or is at its end. */
  ghost predicate ComesBefore(a: string, b: string) {
    exists n :: DiffersAt(a, b, n)
  }

  predicate DiffersAt(a: string, b: string, n: int) {
    0 <= n <= |a| && n < |b| && a[..n] == b[..n] && (n == |a| || a[n] < b[n])
  }

  lemma SameHead(a: string, b: string, n: int)
    requires DiffersAt(a, b, n)
    ensures b != [] && (n > 0 <==> a != [] && a[0] == b[0])
  {
    if n > 0 {
      assert a[0] == a[..n][0] && b[0] == b[..n][0];
    }
  }

  lemma {:induction false} StringLessIs(a: string, b: string)
    ensures StringLess(a, b) <==> ComesBefore(a, b)
  {
    if a == [] || b == [] || a[0] != b[0] {
      assert a == [] && b != [] ==> DiffersAt(a, b, 0);
      assert a != [] && b != [] && a[0] < b[0] ==> DiffersAt(a, b, 0);
      if ComesBefore(a, b) {
        var n :| DiffersAt(a, b, n);
        SameHead(a, b, n);
      }
    } else {
      StringLessIs(a[1..], b[1..]);
      if ComesBefore(a[1..], b[1..]) {
        var n :| DiffersAt(a[1..], b[1..], n);
        assert a[..n + 1] == [a[0]] + a[1..][..n] && b[..n + 1] == [b[0]] + b[1..][..n];
        assert DiffersAt(a, b, n + 1);
      }
      if ComesBefore(a, b) {
        var n :| DiffersAt(a, b, n);
        SameHead(a, b, n);
        assert a[1..][..n - 1] == a[..n][1..] && b[1..][..n - 1] == b[..n][1..];
        assert DiffersAt(a[1..], b[1..], n - 1);
      }
    }
  }

  lemma {:induction false} StringLessIrreflexive(a: string)
    ensures !StringLess(a, a)
  {
    if a != [] {
      StringLessIrreflexive(a[1..]);
    }
  }

  lemma {:induction false} StringLessTransitive(a: string, b: string, c: string)
    requires StringLess(a, b) && StringLess(b, c)
    ensures StringLess(a, c)
  {
    if a != [] && a[0] == b[0] && b[0] == c[0] {
      StringLessTransitive(a[1..], b[1..], c[1..]);
    }
  }

  lemma {:induction false} StringLessTotal(a: string, b: string)
    requires a != b
    ensures StringLess(a, b) || StringLess(b, a)
  {
    if a != [] && b != [] && a[0] == b[0] {
      assert a == [a[0]] + a[1..] && b == [b[0]] + b[1..];
      StringLessTotal(a[1..], b[1..]);
    }
  }

  lemma StringLessStrict()
    ensures StrictOrder<string>(StringLess)
    ensures forall s: seq<string> :: TotalOn(StringLess, s)
  {
    forall x ensures !StringLess(x, x) { StringLessIrreflexive(x); }
    forall x, y, z | StringLess(x, y) && StringLess(y, z) ensures StringLess(x, z) {
      StringLessTransitive(x, y, z);
    }
    forall x: string, y | x != y ensures StringLess(x, y) || StringLess(y, x) {
      StringLessTotal(x, y);
    }
  }
}
