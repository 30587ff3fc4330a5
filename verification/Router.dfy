/**
 The public read: loading candidate claims from all packages or only from those the index names for
 a subject, and merging the hits of several candidate subjects. What the per-subject read returns is
 an input; a failing package or read fails the whole query.
 */
module Router {

  import opened Wrappers
  import opened Ordering
  import opened SubjectIndexes

  /** A claim as the read path projects it. */
  datatype Loaded = Loaded(packageId: string, claim: Claim)

  function Projected(packageId: string, claims: seq<Claim>): (r: seq<Loaded>)
    ensures |r| == |claims|
  {
    if claims == [] then [] else [Loaded(packageId, claims[0])] + Projected(packageId, claims[1..])
  }

  /** Unpack the named files in order; the first bad one fails the read. */
  function Load(cat: Catalog, dir: Directory, names: seq<string>): Option<seq<Loaded>> {
    if names == [] then Some([])
    else
      var n := |names| - 1;
      var sofar := Load(cat, dir, names[..n]);
      if sofar.None? || names[n] !in dir || cat(dir[names[n]]).None? then None
      else Some(sofar.value + Projected(cat(dir[names[n]]).value.packageId, cat(dir[names[n]]).value.claims))
  }

  /** How many claims the first `n` files hold. */
  function ClaimsIn(cat: Catalog, dir: Directory, names: seq<string>, n: nat): nat
    requires n <= |names|
  {
    if n == 0 then 0
    else
      ClaimsIn(cat, dir, names, n - 1)
      + if names[n - 1] in dir && cat(dir[names[n - 1]]).Some? then |cat(dir[names[n - 1]]).value.claims| else 0
  }

  lemma {:induction false} LoadedMany(cat: Catalog, dir: Directory, names: seq<string>, n: nat)
    requires n <= |names| && Load(cat, dir, names[..n]).Some?
    ensures |Load(cat, dir, names[..n]).value| == ClaimsIn(cat, dir, names, n)
    ensures n > 0 ==> names[n - 1] in dir && cat(dir[names[n - 1]]).Some? && Load(cat, dir, names[..n - 1]).Some?
  {
    if n > 0 {
      assert names[..n][..n - 1] == names[..n - 1];
      LoadedMany(cat, dir, names, n - 1);
    }
  }

  /** A load that succeeds holds every claim of every named file, under its package, file after file and in order. */
  lemma {:induction false} LoadedAt(cat: Catalog, dir: Directory, names: seq<string>, n: nat, i: nat, k: nat)
    requires i < n <= |names| && Load(cat, dir, names[..n]).Some?
    requires names[i] in dir && cat(dir[names[i]]).Some? && k < |cat(dir[names[i]]).value.claims|
    ensures var all, pkg := Load(cat, dir, names[..n]).value, cat(dir[names[i]]).value;
            var at := ClaimsIn(cat, dir, names, i) + k;
            |all| == ClaimsIn(cat, dir, names, n) && at < |all| && all[at] == Loaded(pkg.packageId, pkg.claims[k])
  {
    assert names[..n][..n - 1] == names[..n - 1];
    LoadedMany(cat, dir, names, n);
    LoadedMany(cat, dir, names, n - 1);
    if i == n - 1 {
      ProjectedAt(cat(dir[names[i]]).value.packageId, cat(dir[names[i]]).value.claims, k);
    } else {
      LoadedAt(cat, dir, names, n - 1, i, k);
    }
  }

  lemma {:induction false} ProjectedAt(packageId: string, claims: seq<Claim>, k: nat)
    requires k < |claims|
    ensures Projected(packageId, claims)[k] == Loaded(packageId, claims[k])
  {
    if k > 0 {
      ProjectedAt(packageId, claims[1..], k - 1);
    }
  }

  function InScope(scoped: seq<string>): string -> bool {
    n => n in scoped
  }

  /** The listing, or the part of it that is in scope: a stale scope never names a vanished file. */
  function Scope(tars: seq<string>, scoped: Option<seq<string>>): seq<string> {
    if scoped.None? then tars else Filter(InScope(scoped.value), tars)
  }

  function About(subject: string): Loaded -> bool {
    (l: Loaded) => l.claim.subject == Some(subject)
  }

  function ClaimsAbout(loaded: seq<Loaded>, subject: string): seq<Loaded> {
    Filter(About(subject), loaded)
  }

  /** The claims about a subject in one file. */
  function FileClaims(cat: Catalog, dir: Directory, n: string, subject: string): seq<Loaded>
    requires n in dir && cat(dir[n]).Some?
  {
    ClaimsAbout(Projected(cat(dir[n]).value.packageId, cat(dir[n]).value.claims), subject)
  }

  ghost predicate Readable(cat: Catalog, dir: Directory, names: seq<string>) {
    forall n | n in names :: n in dir && cat(dir[n]).Some?
  }

  /** A load succeeds exactly when every file it names is there and verifies. */
  lemma {:induction false} LoadSucceedsIff(cat: Catalog, dir: Directory, names: seq<string>)
    ensures Load(cat, dir, names).Some? <==> Readable(cat, dir, names)
  {
    if names != [] {
      var n := |names| - 1;
      assert names == names[..n] + [names[n]];
      LoadSucceedsIff(cat, dir, names[..n]);
    }
  }

  lemma LoadNext(cat: Catalog, dir: Directory, names: seq<string>, n: string, subject: string)
    requires Readable(cat, dir, names + [n])
    ensures Load(cat, dir, names).Some? && Load(cat, dir, names + [n]).Some?
    ensures ClaimsAbout(Load(cat, dir, names + [n]).value, subject)
            == ClaimsAbout(Load(cat, dir, names).value, subject) + FileClaims(cat, dir, n, subject)
  {
    var all := names + [n];
    assert all[..|names|] == names && all[|names|] == n;
    assert n in all && forall m | m in names :: m in all;
    LoadSucceedsIff(cat, dir, names);
    LoadSucceedsIff(cat, dir, all);
    var pkg := cat(dir[n]).value;
    FilterConcat(About(subject), Load(cat, dir, names).value, Projected(pkg.packageId, pkg.claims));
  }

  lemma FilterNext(p: string -> bool, names: seq<string>, n: string)
    ensures Filter(p, names + [n]) == Filter(p, names) + if p(n) then [n] else []
  {
    FilterConcat(p, names, [n]);
    assert [n][1..] == [];
  }

  /** Leaving files out keeps the claims about a subject, in order, exactly when the files left out have none. */
  lemma {:induction false} ScopeKeepsClaimsIff(cat: Catalog, dir: Directory, names: seq<string>, scoped: seq<string>,
                                               subject: string)
    requires Readable(cat, dir, names)
    ensures Load(cat, dir, names).Some? && Load(cat, dir, Filter(InScope(scoped), names)).Some?
    ensures var full := ClaimsAbout(Load(cat, dir, names).value, subject);
            var part := ClaimsAbout(Load(cat, dir, Filter(InScope(scoped), names)).value, subject);
            && |part| <= |full|
            && (part == full <==> forall n | n in names && n !in scoped :: FileClaims(cat, dir, n, subject) == [])
  {
    LoadSucceedsIff(cat, dir, names);
    LoadSucceedsIff(cat, dir, Filter(InScope(scoped), names));
    if names != [] {
      var n, before := names[|names| - 1], names[..|names| - 1];
      assert names == before + [n];
      ScopeKeepsClaimsIff(cat, dir, before, scoped, subject);
      FilterNext(InScope(scoped), before, n);
      var part := ClaimsAbout(Load(cat, dir, Filter(InScope(scoped), before)).value, subject);
      var full := ClaimsAbout(Load(cat, dir, before).value, subject);
      LoadNext(cat, dir, before, n, subject);
      if n in scoped {
        assert Readable(cat, dir, Filter(InScope(scoped), before) + [n]);
        LoadNext(cat, dir, Filter(InScope(scoped), before), n, subject);
        SameSuffix(part, full, FileClaims(cat, dir, n, subject));
      } else {
        assert Filter(InScope(scoped), names) == Filter(InScope(scoped), before);
        assert full + [] == full;
      }
    }
  }

  lemma SameSuffix<T>(a: seq<T>, b: seq<T>, s: seq<T>)
    ensures a + s == b + s <==> a == b
  {
    if a + s == b + s {
      assert |a| == |b|;
      assert a == (a + s)[..|a|] && b == (b + s)[..|b|];
    }
  }

  // ----- what the index leads to ----------------------------------------------------------------

  /** A package that carries a subject at all carries it on a claim that has its own id. */
  ghost predicate Indexed(pkg: Package, subject: string) {
    (exists c | c in pkg.claims :: c.subject == Some(subject))
    ==> exists c | c in pkg.claims :: c.subject == Some(subject) && c.ownId.Some?
  }

  lemma {:induction false} ScanCarriesIff(packageId: string, claims: seq<Claim>, file: string, subject: string)
    requires subject != ""
    ensures (exists e | e in ScanClaims(packageId, claims, file) :: e.subject == subject)
            <==> exists c | c in claims :: c.subject == Some(subject) && c.ownId.Some?
  {
    if claims != [] {
      var c, rest := claims[0], claims[1..];
      assert claims == [c] + rest;
      ScanCarriesIff(packageId, rest, file, subject);
      var entries := ScanClaims(packageId, rest, file);
      if Indexable(c) && c.ownId.Some? {
        var e := IndexEntry(c.subject.value, packageId, c.ownId.value, file);
        assert forall x | x in [e] + entries :: x == e || x in entries;
        assert e in [e] + entries && forall x | x in entries :: x in [e] + entries;
      } else {
        assert [] + entries == entries;
      }
    }
  }

  lemma {:induction false} NoClaimsIff(packageId: string, claims: seq<Claim>, subject: string)
    ensures ClaimsAbout(Projected(packageId, claims), subject) == []
            <==> forall c | c in claims :: c.subject != Some(subject)
  {
    if claims != [] {
      assert claims == [claims[0]] + claims[1..];
      NoClaimsIff(packageId, claims[1..], subject);
      FilterCons(About(subject), Loaded(packageId, claims[0]), Projected(packageId, claims[1..]));
    }
  }

  lemma RoutedIff(cat: Catalog, dir: Directory, idx: SubjectIndex, n: string, subject: string)
    requires n in dir && dir[n].name == n && Exact(cat, idx, dir[n]) && subject != ""
    ensures n !in FilesOf(idx, subject) ==>
              (FileClaims(cat, dir, n, subject) == [] <==> Indexed(cat(dir[n]).value, subject))
    ensures n in FilesOf(idx, subject) ==> Indexed(cat(dir[n]).value, subject)
  {
    var pkg := cat(dir[n]).value;
    CarriesIff(idx, subject, n);
    ScanCarriesIff(pkg.packageId, pkg.claims, n, subject);
    NoClaimsIff(pkg.packageId, pkg.claims, subject);
  }

  /**
   With an index that agrees with the directory, and packages that all verify: reading only a
   subject's packages gives exactly the claims about it that reading everything gives, in the same
   order - if and only if every package that carries the subject carries it on a claim with its own
   id, since claims without one are never indexed.
   */
  lemma ScopedReadIsFullRead(cat: Catalog, dir: Directory, idx: SubjectIndex, subject: string)
    requires WellNamed(dir) && subject != "" && forall n | n in dir :: Exact(cat, idx, dir[n])
    ensures var tars := SortedNames(dir.Keys);
            var full, part := Load(cat, dir, tars), Load(cat, dir, Scope(tars, Some(PackagesForSubject(idx, subject))));
            && full.Some? && part.Some?
            && (ClaimsAbout(part.value, subject) == ClaimsAbout(full.value, subject)
                <==> forall n | n in dir && cat(dir[n]).Some? :: Indexed(cat(dir[n]).value, subject))
  {
    var tars, scoped := SortedNames(dir.Keys), PackagesForSubject(idx, subject);
    SortedNamesAre(dir.Keys);
    SortedNamesAre(FilesOf(idx, subject));
    ScopeKeepsClaimsIff(cat, dir, tars, scoped, subject);
    forall n | n in dir
      ensures Indexed(cat(dir[n]).value, subject) <==> (n !in scoped ==> FileClaims(cat, dir, n, subject) == [])
    {
      RoutedIff(cat, dir, idx, n, subject);
    }
  }

  // ----- merging hits ---------------------------------------------------------------------------

  datatype Hit = Hit(id: string, content: string)

  /** A hit is kept when it has no id, or when no earlier hit has the same one. */
  predicate Keeps(hits: seq<Hit>, i: nat)
    requires i < |hits|
  {
    hits[i].id == "" || forall j | 0 <= j < i :: hits[j].id != hits[i].id
  }

  function Merged(hits: seq<Hit>): seq<Hit> {
    if hits == [] then []
    else
      var n := |hits| - 1;
      Merged(hits[..n]) + if Keeps(hits, n) then [hits[n]] else []
  }

  /** The positions that `Merged` keeps. */
  function Kept(hits: seq<Hit>): seq<nat> {
    if hits == [] then []
    else
      var n := |hits| - 1;
      Kept(hits[..n]) + if Keeps(hits, n) then [n] else []
  }

  lemma KeepsPrefix(hits: seq<Hit>, n: nat, i: nat)
    requires i < n <= |hits|
    ensures Keeps(hits[..n], i) <==> Keeps(hits, i)
  {
    assert forall j | 0 <= j <= i :: hits[..n][j] == hits[j];
  }

  lemma {:induction false} KeptIff(hits: seq<Hit>, i: nat)
    ensures i in Kept(hits) <==> i < |hits| && Keeps(hits, i)
  {
    if hits != [] {
      var n := |hits| - 1;
      KeptIff(hits[..n], i);
      if i < n {
        KeepsPrefix(hits, n, i);
      }
    }
  }

  lemma {:induction false} KeptGrows(hits: seq<Hit>)
    ensures forall i, j | 0 <= i < j < |Kept(hits)| :: Kept(hits)[i] < Kept(hits)[j]
  {
    if hits != [] {
      var n := |hits| - 1;
      KeptGrows(hits[..n]);
      forall i | 0 <= i < |Kept(hits[..n])| ensures Kept(hits[..n])[i] < n {
        KeptIff(hits[..n], Kept(hits[..n])[i]);
      }
    }
  }

  lemma {:induction false} MergedAtKept(hits: seq<Hit>)
    ensures |Merged(hits)| == |Kept(hits)|
    ensures forall i | 0 <= i < |Kept(hits)| :: Kept(hits)[i] < |hits| && Merged(hits)[i] == hits[Kept(hits)[i]]
  {
    if hits != [] {
      MergedAtKept(hits[..|hits| - 1]);
    }
  }

  /**
   The merge is the hits at the kept positions, in order of first appearance, and nothing else: the
   ranks of the candidates decide, and each id that occurs among the hits is kept where it occurs first.
   */
  lemma {:induction false} MergedIs(hits: seq<Hit>)
    ensures var at := Kept(hits);
            && |Merged(hits)| == |at|
            && (forall i | 0 <= i < |at| :: at[i] < |hits| && Keeps(hits, at[i]) && Merged(hits)[i] == hits[at[i]])
            && (forall i, j | 0 <= i < j < |at| :: at[i] < at[j])
            && (forall n: nat | n < |hits| && Keeps(hits, n) :: n in at)
  {
    MergedAtKept(hits);
    KeptGrows(hits);
    forall n: nat ensures n in Kept(hits) <==> n < |hits| && Keeps(hits, n) {
      KeptIff(hits, n);
    }
  }

  lemma FirstOf(hits: seq<Hit>, n: nat) returns (m: nat)
    requires n < |hits|
    ensures m <= n && hits[m].id == hits[n].id && Keeps(hits, m)
    decreases n
  {
    m := n;
    if !Keeps(hits, n) {
      var j :| 0 <= j < n && hits[j].id == hits[n].id;
      m := FirstOf(hits, j);
    }
  }

  lemma IdSurvives(hits: seq<Hit>, n: nat) returns (i: nat)
    requires n < |hits|
    ensures i < |Merged(hits)| && Merged(hits)[i].id == hits[n].id
  {
    var m := FirstOf(hits, n);
    MergedIs(hits);
    i :| i < |Kept(hits)| && Kept(hits)[i] == m;
  }

  lemma IdOnlyOnce(hits: seq<Hit>, i: nat, j: nat)
    requires i < j < |Merged(hits)| && Merged(hits)[i].id != ""
    ensures Merged(hits)[j].id != Merged(hits)[i].id
  {
    MergedIs(hits);
    var a, b := Kept(hits)[i], Kept(hits)[j];
    assert a < b && Keeps(hits, b) && Merged(hits)[i] == hits[a] && Merged(hits)[j] == hits[b];
  }

  /** Every id of the hits is in the merge, once; no other is. */
  lemma EachIdOnce(hits: seq<Hit>, id: string)
    requires id != ""
    ensures (exists n | 0 <= n < |hits| :: hits[n].id == id)
            <==> (exists i | 0 <= i < |Merged(hits)| :: Merged(hits)[i].id == id)
    ensures forall i, j | 0 <= i < j < |Merged(hits)| && Merged(hits)[i].id == id :: Merged(hits)[j].id != id
  {
    if exists n | 0 <= n < |hits| :: hits[n].id == id {
      var n :| 0 <= n < |hits| && hits[n].id == id;
      var i := IdSurvives(hits, n);
    }
    if exists i | 0 <= i < |Merged(hits)| :: Merged(hits)[i].id == id {
      var i :| 0 <= i < |Merged(hits)| && Merged(hits)[i].id == id;
      MergedAtKept(hits);
    }
    forall i, j | 0 <= i < j < |Merged(hits)| && Merged(hits)[i].id == id ensures Merged(hits)[j].id != id {
      IdOnlyOnce(hits, i, j);
    }
  }

  /** The candidates' hits, best first; one that leads to no package is skipped, a failing read fails the query. */
  function AllHits(packages: seq<seq<string>>, answers: seq<Option<seq<Hit>>>, n: nat): Option<seq<Hit>>
    requires n <= |packages| == |answers|
  {
    if n == 0 then Some([])
    else
      var sofar := AllHits(packages, answers, n - 1);
      if sofar.None? || packages[n - 1] == [] then sofar
      else if answers[n - 1].None? then None
      else Some(sofar.value + answers[n - 1].value)
  }

  /** How many hits the first `n` candidates bring. */
  function Hits(packages: seq<seq<string>>, answers: seq<Option<seq<Hit>>>, n: nat): nat
    requires n <= |packages| == |answers|
  {
    if n == 0 then 0
    else
      Hits(packages, answers, n - 1)
      + if packages[n - 1] != [] && answers[n - 1].Some? then |answers[n - 1].value| else 0
  }

  /** One failing read among the candidates that lead to packages fails the query, and nothing else does. */
  lemma {:induction false} HitsFailIff(packages: seq<seq<string>>, answers: seq<Option<seq<Hit>>>, n: nat)
    requires n <= |packages| == |answers|
    ensures AllHits(packages, answers, n) == None <==> exists i | 0 <= i < n :: packages[i] != [] && answers[i] == None
    ensures AllHits(packages, answers, n).Some? ==> |AllHits(packages, answers, n).value| == Hits(packages, answers, n)
  {
    if n > 0 {
      HitsFailIff(packages, answers, n - 1);
    }
  }

  /** Otherwise the hits of each of them are all there, in their order, those of better candidates first. */
  lemma {:induction false} HitsAt(packages: seq<seq<string>>, answers: seq<Option<seq<Hit>>>, n: nat, i: nat, k: nat)
    requires i < n <= |packages| == |answers| && AllHits(packages, answers, n).Some?
    requires packages[i] != [] && answers[i].Some? && k < |answers[i].value|
    ensures var all, at := AllHits(packages, answers, n).value, Hits(packages, answers, i) + k;
            |all| == Hits(packages, answers, n) && at < |all| && all[at] == answers[i].value[k]
  {
    HitsFailIff(packages, answers, n);
    HitsFailIff(packages, answers, n - 1);
    if i < n - 1 {
      HitsAt(packages, answers, n - 1, i, k);
    }
  }

  lemma {:induction false} FailureSticks(packages: seq<seq<string>>, answers: seq<Option<seq<Hit>>>, m: nat, n: nat)
    requires m <= n <= |packages| == |answers| && AllHits(packages, answers, m).None?
    ensures AllHits(packages, answers, n).None?
  {
    if m < n {
      FailureSticks(packages, answers, m, n - 1);
    }
  }

  ghost predicate SeenIds(seen: set<string>, hits: seq<Hit>) {
    forall id :: id in seen <==> id != "" && exists j | 0 <= j < |hits| :: hits[j].id == id
  }

  /** One more hit of the merge loop: a nonempty id that was seen is dropped, any other hit is kept. */
  lemma SeenNext(seen: set<string>, hits: seq<Hit>, h: Hit)
    requires SeenIds(seen, hits)
    ensures SeenIds(if h.id != "" then seen + {h.id} else seen, hits + [h])
    ensures Merged(hits + [h]) == Merged(hits) + if h.id != "" && h.id in seen then [] else [h]
  {
    var more := hits + [h];
    assert more[..|hits|] == hits && more[|hits|] == h;
    assert Keeps(more, |hits|) <==> h.id == "" || h.id !in seen;
    var seen2 := if h.id != "" then seen + {h.id} else seen;
    forall id ensures id in seen2 <==> id != "" && exists j | 0 <= j < |more| :: more[j].id == id {
      if id != "" && exists j | 0 <= j < |hits| :: hits[j].id == id {
        var j :| 0 <= j < |hits| && hits[j].id == id;
        assert more[j].id == id;
      }
      if id != "" && id == h.id {
        assert more[|hits|].id == id;
      }
    }
  }

  class ApexRouter {
    var scopedPackages: Option<seq<string>>
    var lastCorpusEmpty: bool

    /** All packages, or only those in scope; an empty corpus is noted, whatever the scope. */
    method LoadCandidateClaims(cat: Catalog, dir: Directory, tars: seq<string>) returns (r: Option<seq<Loaded>>)
      requires tars == SortedNames(dir.Keys)
      modifies this`lastCorpusEmpty
      ensures lastCorpusEmpty == (dir == map[])
      ensures r == Load(cat, dir, Scope(tars, scopedPackages))
    {
      SortedNamesAre(dir.Keys);
      lastCorpusEmpty := tars == [];
      assert tars == [] ==> dir.Keys == {};
      assert dir.Keys != {} ==> exists n :: n in tars;
      if tars == [] {
        assert Scope(tars, scopedPackages) == [];
        return Some([]);
      }
      var scope := Scope(tars, scopedPackages);
      var claims: seq<Loaded> := [];
      var i := 0;
      assert scope[..0] == [];
      while i < |scope|
        invariant 0 <= i <= |scope|
        invariant Load(cat, dir, scope[..i]) == Some(claims)
      {
        assert scope[..i + 1][..i] == scope[..i] && scope[i] in scope;
        if scope[i] !in dir || cat(dir[scope[i]]).None? {
          LoadSucceedsIff(cat, dir, scope);
          return None;
        }
        var pkg := cat(dir[scope[i]]).value;
        claims := claims + Projected(pkg.packageId, pkg.claims);
        i := i + 1;
      }
      assert scope[..i] == scope;
      r := Some(claims);
    }

    /** The merge loop of a free-text read: candidates by rank, each id once. */
    method MergeCandidates(packages: seq<seq<string>>, answers: seq<Option<seq<Hit>>>) returns (r: Option<seq<Hit>>)
      requires |packages| == |answers|
      modifies this`scopedPackages
      ensures var all := AllHits(packages, answers, |packages|);
              r == if all.None? then None else Some(Merged(all.value))
      ensures r.Some? ==>
                scopedPackages == if packages == [] then old(scopedPackages) else Some(packages[|packages| - 1])
    {
      var merged: seq<Hit>, seen: set<string> := [], {};
      ghost var all: seq<Hit> := [];
      var c := 0;
      while c < |packages|
        invariant 0 <= c <= |packages|
        invariant AllHits(packages, answers, c) == Some(all)
        invariant merged == Merged(all) && SeenIds(seen, all)
        invariant scopedPackages == if c == 0 then old(scopedPackages) else Some(packages[c - 1])
      {
        scopedPackages := Some(packages[c]);
        if packages[c] != [] {
          if answers[c].None? {
            FailureSticks(packages, answers, c + 1, |packages|);
            return None;
          }
          merged, seen := MergeRead(answers[c].value, merged, seen, all);
          all := all + answers[c].value;
        }
        c := c + 1;
      }
      r := Some(merged);
    }
  }

  method MergeRead(hits: seq<Hit>, merged0: seq<Hit>, seen0: set<string>, ghost all: seq<Hit>)
    returns (merged: seq<Hit>, seen: set<string>)
    requires merged0 == Merged(all) && SeenIds(seen0, all)
    ensures merged == Merged(all + hits) && SeenIds(seen, all + hits)
  {
    merged, seen := merged0, seen0;
    var i := 0;
    assert all + hits[..0] == all;
    while i < |hits|
      invariant 0 <= i <= |hits|
      invariant merged == Merged(all + hits[..i]) && SeenIds(seen, all + hits[..i])
    {
      var hit := hits[i];
      SeenNext(seen, all + hits[..i], hit);
      assert all + hits[..i + 1] == (all + hits[..i]) + [hit];
      i := i + 1;
      if hit.id != "" && hit.id in seen {
        assert seen + {hit.id} == seen;
        continue;
      }
      if hit.id != "" {
        seen := seen + {hit.id};
      }
      merged := merged + [hit];
    }
    assert hits[..i] == hits;
  }
}
