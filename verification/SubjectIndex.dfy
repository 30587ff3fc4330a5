/**
 The subject index: a cache of which package carries which claim under which subject, kept beside
 the packages. A package file is identified by name, size and modification time; what a file with
 that identity contains is a parameter. Identities are listed by name.
 */
module SubjectIndexes {

  import opened Wrappers
  import opened Ordering

  datatype PackageStat = PackageStat(name: string, size: nat, mtime: int)

  /** A claim is named in the manifest and, perhaps, again in its own frontmatter. */
  datatype Claim = Claim(manifestId: string, ownId: Option<string>, subject: Option<string>)

  datatype Package = Package(packageId: string, claims: seq<Claim>)

  /** What an unpack of a file finds; nothing, when the package does not verify. */
  type Catalog = PackageStat -> Option<Package>

  datatype IndexEntry = IndexEntry(subject: string, packageId: string, claimId: string, packageFile: string)

  datatype SubjectIndex = SubjectIndex(entries: seq<IndexEntry>, packages: seq<PackageStat>)

  type Directory = map<string, PackageStat>

  // ----- the directory listing ------------------------------------------------------------------

  ghost function SortedNames(names: set<string>): seq<string>
    decreases |names|
  {
    if names == {} then []
    else
      var n :| n in names;
      Insert(StringLess, n, SortedNames(names - {n}))
  }

  lemma InsertName(n: string, rest: seq<string>)
    requires StrictlySorted(StringLess, rest) && n !in rest
    ensures StrictlySorted(StringLess, Insert(StringLess, n, rest))
    ensures forall m :: m in Insert(StringLess, n, rest) <==> m == n || m in rest
  {
    StringLessStrict();
    forall m | m in rest ensures StringLess(n, m) || StringLess(m, n) {
      StringLessTotal(n, m);
    }
    InsertStrict(StringLess, n, rest);
    InsertMembers(StringLess, n, rest);
  }

  lemma {:induction false} SortedNamesAre(names: set<string>)
    ensures StrictlySorted(StringLess, SortedNames(names))
    ensures forall n :: n in SortedNames(names) <==> n in names
    decreases |names|
  {
    if names != {} {
      var n :| n in names && SortedNames(names) == Insert(StringLess, n, SortedNames(names - {n}));
      SortedNamesAre(names - {n});
      InsertName(n, SortedNames(names - {n}));
    }
  }

  lemma NamesSortedOnce(s: seq<string>, names: set<string>)
    requires StrictlySorted(StringLess, s) && forall n :: n in s <==> n in names
    ensures s == SortedNames(names)
  {
    SortedNamesAre(names);
    StringLessStrict();
    StrictlySortedUnique(StringLess, s, SortedNames(names));
  }

  predicate ByName(a: PackageStat, b: PackageStat) {
    StringLess(a.name, b.name)
  }

  ghost predicate WellNamed(dir: Directory) {
    forall n | n in dir :: dir[n].name == n
  }

  /** The identity of a file that is on disk with exactly that identity. */
  predicate OnDisk(dir: Directory, p: PackageStat) {
    p.name in dir && dir[p.name] == p
  }

  /** Stats of the named files, in the order of the names; a vanished file is skipped. */
  function Stats(dir: Directory, names: seq<string>): seq<PackageStat> {
    if names == [] then []
    else
      var n := |names| - 1;
      Stats(dir, names[..n]) + if names[n] in dir then [dir[names[n]]] else []
  }

  ghost function Listing(dir: Directory): seq<PackageStat> {
    Stats(dir, SortedNames(dir.Keys))
  }

  lemma {:induction false} StatsMembers(dir: Directory, names: seq<string>)
    requires WellNamed(dir)
    ensures forall p :: p in Stats(dir, names) <==> OnDisk(dir, p) && p.name in names
  {
    if names != [] {
      var n := |names| - 1;
      StatsMembers(dir, names[..n]);
      assert names == names[..n] + [names[n]];
    }
  }

  lemma {:induction false} StatsSorted(dir: Directory, names: seq<string>)
    requires WellNamed(dir) && StrictlySorted(StringLess, names)
    ensures StrictlySorted(ByName, Stats(dir, names))
  {
    if names != [] {
      var n := |names| - 1;
      StatsSorted(dir, names[..n]);
      StatsMembers(dir, names[..n]);
      var sofar := Stats(dir, names[..n]);
      forall i | 0 <= i < |sofar| && names[n] in dir ensures ByName(sofar[i], dir[names[n]]) {
        assert sofar[i] in sofar;
        var j :| 0 <= j < n && names[j] == sofar[i].name;
      }
    }
  }

  lemma ListingIs(dir: Directory)
    requires WellNamed(dir)
    ensures StrictlySorted(ByName, Listing(dir))
    ensures forall p :: p in Listing(dir) <==> OnDisk(dir, p)
  {
    SortedNamesAre(dir.Keys);
    StatsMembers(dir, SortedNames(dir.Keys));
    StatsSorted(dir, SortedNames(dir.Keys));
  }

  lemma ByNameStrict()
    ensures StrictOrder(ByName)
  {
    StringLessStrict();
  }

  /** A listing by name that names exactly what is on disk is the listing. */
  lemma ListedOnce(s: seq<PackageStat>, dir: Directory)
    requires WellNamed(dir) && StrictlySorted(ByName, s)
    ensures s == Listing(dir) <==> forall p :: p in s <==> OnDisk(dir, p)
  {
    ListingIs(dir);
    ByNameStrict();
    if forall p :: p in s <==> OnDisk(dir, p) {
      StrictlySortedUnique(ByName, s, Listing(dir));
    }
  }

  // ----- entries of one package -----------------------------------------------------------------

  predicate Indexable(c: Claim) {
    c.subject.Some? && c.subject.value != ""
  }

  /** The entries a full scan takes from one package: each claim with a subject and its own id. */
  function ScanEntries(pkg: Package, file: string): seq<IndexEntry> {
    ScanClaims(pkg.packageId, pkg.claims, file)
  }

  function ScanClaims(packageId: string, claims: seq<Claim>, file: string): seq<IndexEntry> {
    if claims == [] then []
    else
      var c := claims[0];
      (if Indexable(c) && c.ownId.Some? then [IndexEntry(c.subject.value, packageId, c.ownId.value, file)] else [])
      + ScanClaims(packageId, claims[1..], file)
  }

  /** The entries ingest hands over: each claim with a subject, under its manifest id. */
  function IngestClaims(packageId: string, claims: seq<Claim>, file: string): seq<IndexEntry> {
    if claims == [] then []
    else
      var c := claims[0];
      (if Indexable(c) then [IndexEntry(c.subject.value, packageId, c.manifestId, file)] else [])
      + IngestClaims(packageId, claims[1..], file)
  }

  /** The entries of a scan are the claims with a subject and an own id, each under its subject and that id. */
  lemma {:induction false} ScanEntryIs(packageId: string, claims: seq<Claim>, file: string, e: IndexEntry)
    ensures e in ScanClaims(packageId, claims, file) <==>
              && e.packageId == packageId && e.packageFile == file && e.subject != ""
              && exists c | c in claims :: c.subject == Some(e.subject) && c.ownId == Some(e.claimId)
  {
    if claims != [] {
      assert claims == [claims[0]] + claims[1..];
      ScanEntryIs(packageId, claims[1..], file, e);
    }
  }

  /** Those of an ingest are the claims with a subject, each under its subject and its manifest id. */
  lemma {:induction false} IngestEntryIs(packageId: string, claims: seq<Claim>, file: string, e: IndexEntry)
    ensures e in IngestClaims(packageId, claims, file) <==>
              && e.packageId == packageId && e.packageFile == file && e.subject != ""
              && exists c | c in claims :: c.subject == Some(e.subject) && c.manifestId == e.claimId
  {
    if claims != [] {
      assert claims == [claims[0]] + claims[1..];
      IngestEntryIs(packageId, claims[1..], file, e);
    }
  }

  predicate NamedAlike(c: Claim) {
    Indexable(c) ==> c.ownId == Some(c.manifestId)
  }

  lemma {:induction false} ScanNoLonger(packageId: string, claims: seq<Claim>, file: string)
    ensures |ScanClaims(packageId, claims, file)| <= |IngestClaims(packageId, claims, file)|
  {
    if claims != [] {
      ScanNoLonger(packageId, claims[1..], file);
    }
  }

  /** Ingest and scan agree on a package exactly when its subject-bearing claims have one name. */
  lemma {:induction false} IngestScansAlikeIff(packageId: string, claims: seq<Claim>, file: string)
    ensures IngestClaims(packageId, claims, file) == ScanClaims(packageId, claims, file)
            <==> forall c | c in claims :: NamedAlike(c)
  {
    if claims != [] {
      var c, rest := claims[0], claims[1..];
      assert claims == [c] + rest;
      IngestScansAlikeIff(packageId, rest, file);
      var a, b := IngestClaims(packageId, rest, file), ScanClaims(packageId, rest, file);
      if !Indexable(c) {
        assert [] + a == a && [] + b == b;
      } else if c.ownId.None? {
        ScanNoLonger(packageId, rest, file);
        assert |ScanClaims(packageId, claims, file)| < |IngestClaims(packageId, claims, file)|;
        assert !NamedAlike(c);
      } else {
        var x := IndexEntry(c.subject.value, packageId, c.manifestId, file);
        var y := IndexEntry(c.subject.value, packageId, c.ownId.value, file);
        assert ([x] + a)[0] == x && ([y] + b)[0] == y && ([x] + a)[1..] == a && ([y] + b)[1..] == b;
      }
    }
  }

  function InFile(file: string): IndexEntry -> bool {
    (e: IndexEntry) => e.packageFile == file
  }

  function EntriesFor(entries: seq<IndexEntry>, file: string): seq<IndexEntry> {
    Filter(InFile(file), entries)
  }

  lemma {:induction false} ScannedFile(packageId: string, claims: seq<Claim>, file: string)
    ensures forall e | e in ScanClaims(packageId, claims, file) :: e.packageFile == file
  {
    if claims != [] {
      ScannedFile(packageId, claims[1..], file);
    }
  }

  lemma EntriesOfOneFile(entries: seq<IndexEntry>, file: string, other: string)
    requires forall e | e in entries :: e.packageFile == file
    ensures EntriesFor(entries, other) == if other == file then entries else []
  {
    if other == file {
      FilterAll(InFile(file), entries);
    } else {
      FilterNone(InFile(other), entries);
    }
  }

  // ----- the full scan --------------------------------------------------------------------------

  /** Unpack every named file in order; one that does not verify or has vanished aborts the scan. */
  function Scan(cat: Catalog, dir: Directory, names: seq<string>): Option<seq<IndexEntry>> {
    if names == [] then Some([])
    else
      var n := |names| - 1;
      var sofar := Scan(cat, dir, names[..n]);
      if sofar.None? || names[n] !in dir || cat(dir[names[n]]).None? then None
      else Some(sofar.value + ScanEntries(cat(dir[names[n]]).value, names[n]))
  }

  lemma ScanGrows(sofar: seq<IndexEntry>, pkg: Package, n: string, file: string)
    ensures EntriesFor(sofar + ScanEntries(pkg, n), file)
            == EntriesFor(sofar, file) + if file == n then ScanEntries(pkg, n) else []
  {
    FilterConcat(InFile(file), sofar, ScanEntries(pkg, n));
    ScannedFile(pkg.packageId, pkg.claims, n);
    EntriesOfOneFile(ScanEntries(pkg, n), n, file);
  }

  lemma LastIsNew(names: seq<string>)
    requires names != [] && StrictlySorted(StringLess, names)
    ensures names[|names| - 1] !in names[..|names| - 1] && StrictlySorted(StringLess, names[..|names| - 1])
    ensures forall m :: m in names <==> m in names[..|names| - 1] || m == names[|names| - 1]
  {
    StringLessIrreflexive(names[|names| - 1]);
    assert names == names[..|names| - 1] + [names[|names| - 1]];
  }

  lemma {:induction false} ScanIsExact(cat: Catalog, dir: Directory, names: seq<string>, file: string)
    requires Scan(cat, dir, names).Some? && StrictlySorted(StringLess, names)
    ensures file in names ==> file in dir && cat(dir[file]).Some?
    ensures EntriesFor(Scan(cat, dir, names).value, file)
            == if file in names then ScanEntries(cat(dir[file]).value, file) else []
  {
    if names != [] {
      var n := |names| - 1;
      LastIsNew(names);
      ScanIsExact(cat, dir, names[..n], file);
      ScanGrows(Scan(cat, dir, names[..n]).value, cat(dir[names[n]]).value, names[n], file);
    }
  }

  ghost function FullScan(cat: Catalog, dir: Directory): Option<seq<IndexEntry>> {
    Scan(cat, dir, SortedNames(dir.Keys))
  }

  // ----- what an index promises -----------------------------------------------------------------

  /** The index lists for this file exactly what a scan of it gives. */
  ghost predicate Exact(cat: Catalog, idx: SubjectIndex, p: PackageStat) {
    cat(p).Some? && EntriesFor(idx.entries, p.name) == ScanEntries(cat(p).value, p.name)
  }

  /** Every identity it records is exact, but for those in `unless`. */
  ghost predicate Sound(cat: Catalog, idx: SubjectIndex, unless: set<PackageStat>) {
    && StrictlySorted(ByName, idx.packages)
    && forall p | p in idx.packages && p !in unless :: Exact(cat, idx, p)
  }

  /** The identities an index records that are not on disk. */
  function Gone(dir: Directory, idx: SubjectIndex): set<PackageStat> {
    set p | p in idx.packages && !OnDisk(dir, p)
  }

  /** A sound index whose recorded identities are the live listing agrees with a scan of every file. */
  lemma FreshIsExact(cat: Catalog, dir: Directory, idx: SubjectIndex, unless: set<PackageStat>)
    requires WellNamed(dir) && Sound(cat, idx, unless) && idx.packages == Listing(dir)
    requires forall n | n in dir :: dir[n] !in unless
    ensures forall n | n in dir :: Exact(cat, idx, dir[n])
  {
    ListingIs(dir);
    forall n | n in dir ensures Exact(cat, idx, dir[n]) {
      assert OnDisk(dir, dir[n]);
    }
  }

  lemma RebuiltIsExact(cat: Catalog, dir: Directory)
    requires WellNamed(dir) && FullScan(cat, dir).Some?
    ensures var idx := SubjectIndex(FullScan(cat, dir).value, Listing(dir));
            Sound(cat, idx, {}) && forall n | n in dir :: Exact(cat, idx, dir[n])
  {
    var idx := SubjectIndex(FullScan(cat, dir).value, Listing(dir));
    ListingIs(dir);
    SortedNamesAre(dir.Keys);
    forall n | n in dir ensures Exact(cat, idx, dir[n]) {
      ScanIsExact(cat, dir, SortedNames(dir.Keys), n);
    }
  }

  // ----- the incremental update -----------------------------------------------------------------

  function Before(was: Option<SubjectIndex>): SubjectIndex {
    if was.Some? then was.value else SubjectIndex([], [])
  }

  function StaysFor(dir: Directory, file: string): IndexEntry -> bool {
    (e: IndexEntry) => e.packageFile != file && e.packageFile in dir
  }

  function KeptStat(dir: Directory, file: string): PackageStat -> bool {
    (p: PackageStat) => p.name != file && p.name in dir
  }

  /** Other packages' entries and identities are carried over while the file exists; this one's are replaced. */
  function Updated(was: Option<SubjectIndex>, dir: Directory, file: string, added: seq<IndexEntry>): SubjectIndex {
    SubjectIndex(
      Filter(StaysFor(dir, file), Before(was).entries) + added,
      Sort(ByName, Filter(KeptStat(dir, file), Before(was).packages) + if file in dir then [dir[file]] else []))
  }

  /** The identities after an update: this file's own, and the others recorded before and still named on disk. */
  lemma UpdatedPackages(was: Option<SubjectIndex>, dir: Directory, file: string, added: seq<IndexEntry>)
    requires WellNamed(dir) && (was.Some? ==> StrictlySorted(ByName, was.value.packages))
    ensures StrictlySorted(ByName, Updated(was, dir, file, added).packages)
    ensures forall p :: p in Updated(was, dir, file, added).packages
                        <==> (if p.name == file then OnDisk(dir, p) else p in Before(was).packages && p.name in dir)
  {
    var kept := Filter(KeptStat(dir, file), Before(was).packages);
    var mine := if file in dir then [dir[file]] else [];
    FilterStrict(ByName, KeptStat(dir, file), Before(was).packages);
    ByNameStrict();
    NoNameTwice(kept, mine, file);
    SortStrict(ByName, kept + mine);
    SortMembers(ByName, kept + mine);
    forall p ensures p in kept <==> p in Before(was).packages && p.name != file && p.name in dir {
      assert KeptStat(dir, file)(p) <==> p.name != file && p.name in dir;
    }
  }

  lemma NoNameTwice(kept: seq<PackageStat>, mine: seq<PackageStat>, file: string)
    requires StrictlySorted(ByName, kept) && (forall p | p in kept :: p.name != file)
    requires |mine| <= 1 && forall p | p in mine :: p.name == file
    ensures NoTies(ByName, kept + mine)
  {
    forall i, j | 0 <= i < j < |kept + mine|
      ensures ByName((kept + mine)[i], (kept + mine)[j]) || ByName((kept + mine)[j], (kept + mine)[i])
    {
      if j >= |kept| {
        assert kept[i] in kept && mine[j - |kept|] in mine;
        StringLessTotal(kept[i].name, file);
      }
    }
  }

  /**
   The update leaves a fresh index exactly when every other file on disk was recorded with the
   identity it has now. A file that changed, appeared or was never recorded keeps the index stale.
   */
  lemma UpdateFreshIff(was: Option<SubjectIndex>, dir: Directory, file: string, added: seq<IndexEntry>)
    requires WellNamed(dir) && (was.Some? ==> StrictlySorted(ByName, was.value.packages))
    ensures Updated(was, dir, file, added).packages == Listing(dir)
            <==> forall n | n in dir && n != file :: dir[n] in Before(was).packages
  {
    var now := Updated(was, dir, file, added).packages;
    UpdatedPackages(was, dir, file, added);
    ListedOnce(now, dir);
    if forall n | n in dir && n != file :: dir[n] in Before(was).packages {
      forall p ensures p in now <==> OnDisk(dir, p) {
        if p.name in dir && p.name != file {
          var d := dir[p.name];
          assert d in Before(was).packages;
          if p in Before(was).packages {
            SameNameSameStat(Before(was).packages, p, d);
          }
        }
      }
    } else {
      var n :| n in dir && n != file && dir[n] !in Before(was).packages;
      assert OnDisk(dir, dir[n]) && dir[n] !in now;
    }
  }

  lemma SameNameSameStat(s: seq<PackageStat>, p: PackageStat, q: PackageStat)
    requires StrictlySorted(ByName, s) && p in s && q in s && p.name == q.name
    ensures p == q
  {
    StringLessIrreflexive(p.name);
    var i :| 0 <= i < |s| && s[i] == p;
    var j :| 0 <= j < |s| && s[j] == q;
  }

  lemma {:induction false} KeptEntries(entries: seq<IndexEntry>, dir: Directory, file: string, n: string)
    ensures EntriesFor(Filter(StaysFor(dir, file), entries), n)
            == if n != file && n in dir then EntriesFor(entries, n) else []
  {
    if entries != [] {
      var e, rest := entries[0], entries[1..];
      assert entries == [e] + rest;
      KeptEntries(rest, dir, file, n);
      FilterCons(StaysFor(dir, file), e, rest);
      FilterCons(InFile(n), e, rest);
      FilterCons(InFile(n), e, Filter(StaysFor(dir, file), rest));
    }
  }

  lemma UpdatedEntries(was: Option<SubjectIndex>, dir: Directory, file: string, added: seq<IndexEntry>, n: string)
    requires forall e | e in added :: e.packageFile == file
    ensures EntriesFor(Updated(was, dir, file, added).entries, n)
            == if n == file then added else if n in dir then EntriesFor(Before(was).entries, n) else []
  {
    var entries := Before(was).entries;
    FilterConcat(InFile(n), Filter(StaysFor(dir, file), entries), added);
    EntriesOfOneFile(added, file, n);
    KeptEntries(entries, dir, file, n);
    assert [] + added == added && EntriesFor(entries, n) + [] == EntriesFor(entries, n);
  }

  /**
   The update keeps soundness when what it adds is what a scan of the file it saw gives. The listing
   it works from, `seen`, may differ from what is on disk by the time the index is saved.
   */
  lemma UpdateStaysSound(cat: Catalog, was: Option<SubjectIndex>, unless: set<PackageStat>, seen: Directory,
                         file: string, added: seq<IndexEntry>)
    requires WellNamed(seen) && (was.Some? ==> Sound(cat, was.value, unless))
    requires forall e | e in added :: e.packageFile == file
    requires file in seen ==> cat(seen[file]).Some? && added == ScanEntries(cat(seen[file]).value, file)
    ensures Sound(cat, Updated(was, seen, file, added), unless)
  {
    var idx := Updated(was, seen, file, added);
    UpdatedPackages(was, seen, file, added);
    forall p | p in idx.packages && p !in unless ensures Exact(cat, idx, p) {
      UpdatedEntries(was, seen, file, added, p.name);
      if p.name != file {
        assert p in Before(was).packages;
        assert Exact(cat, was.value, p);
      }
    }
  }

  /** Otherwise it is wrong about that file, and says it is fresh: the file was replaced after its unpack. */
  lemma UpdateExactIff(cat: Catalog, was: Option<SubjectIndex>, dir: Directory, file: string, added: seq<IndexEntry>)
    requires WellNamed(dir) && (was.Some? ==> StrictlySorted(ByName, was.value.packages))
    requires file in dir && cat(dir[file]).Some? && forall e | e in added :: e.packageFile == file
    ensures var idx := Updated(was, dir, file, added);
            && dir[file] in idx.packages
            && (Exact(cat, idx, dir[file]) <==> added == ScanEntries(cat(dir[file]).value, file))
  {
    UpdatedPackages(was, dir, file, added);
    UpdatedEntries(was, dir, file, added, file);
  }

  /**
   A rebuild that lists one directory and scans another is fresh for the first. Were that directory
   to come back with the same identities, the index would be served as exact, which it is for a file
   only if both directories held the same entries there.
   */
  lemma ReturningIdentity(cat: Catalog, listed: Directory, scanned: Directory, n: string)
    requires WellNamed(listed) && WellNamed(scanned) && FullScan(cat, scanned).Some?
    requires n in listed && n in scanned && cat(listed[n]).Some?
    ensures var idx := SubjectIndex(FullScan(cat, scanned).value, Listing(listed));
            cat(scanned[n]).Some?
            && (Exact(cat, idx, listed[n])
                <==> ScanEntries(cat(scanned[n]).value, n) == ScanEntries(cat(listed[n]).value, n))
  {
    SortedNamesAre(scanned.Keys);
    ScanIsExact(cat, scanned, SortedNames(scanned.Keys), n);
  }

  // ----- routing --------------------------------------------------------------------------------

  function FilesOf(idx: SubjectIndex, subject: string): set<string> {
    set e | e in idx.entries && e.subject == subject :: e.packageFile
  }

  /** Sorted names of the packages that carry a subject. */
  ghost function PackagesForSubject(idx: SubjectIndex, subject: string): seq<string> {
    SortedNames(FilesOf(idx, subject))
  }

  lemma CarriesIff(idx: SubjectIndex, subject: string, n: string)
    ensures n in FilesOf(idx, subject) <==> exists e | e in EntriesFor(idx.entries, n) :: e.subject == subject
  {
    if n in FilesOf(idx, subject) {
      var e :| e in idx.entries && e.subject == subject && e.packageFile == n;
      assert InFile(n)(e);
      assert e in EntriesFor(idx.entries, n);
    }
    if exists e | e in EntriesFor(idx.entries, n) :: e.subject == subject {
      var e :| e in EntriesFor(idx.entries, n) && e.subject == subject;
      assert InFile(n)(e);
    }
  }

  /** Two indexes with the same entries file by file route every subject alike. */
  lemma SameRouting(a: SubjectIndex, b: SubjectIndex, subject: string)
    requires forall n :: EntriesFor(a.entries, n) == EntriesFor(b.entries, n)
    ensures PackagesForSubject(a, subject) == PackagesForSubject(b, subject)
  {
    forall n ensures n in FilesOf(a, subject) <==> n in FilesOf(b, subject) {
      CarriesIff(a, subject, n);
      CarriesIff(b, subject, n);
    }
    assert FilesOf(a, subject) == FilesOf(b, subject);
  }

  /**
   Was every other file recorded as it is, the update is as good as a full rebuild: the recorded
   identities are the live listing, and every subject leads to the same packages.
   */
  lemma UpdateEqualsRebuild(cat: Catalog, was: Option<SubjectIndex>, dir: Directory, file: string, subject: string)
    requires WellNamed(dir) && file in dir && FullScan(cat, dir).Some? && cat(dir[file]).Some?
    requires was.Some? ==> Sound(cat, was.value, Gone(dir, was.value))
    requires forall n | n in dir && n != file :: dir[n] in Before(was).packages
    ensures var updated := Updated(was, dir, file, ScanEntries(cat(dir[file]).value, file));
            var full := SubjectIndex(FullScan(cat, dir).value, Listing(dir));
            && updated.packages == full.packages
            && PackagesForSubject(updated, subject) == PackagesForSubject(full, subject)
  {
    var pkg := cat(dir[file]).value;
    var added := ScanEntries(pkg, file);
    var mine := Updated(was, dir, file, added);
    var full := SubjectIndex(FullScan(cat, dir).value, Listing(dir));
    ScannedFile(pkg.packageId, pkg.claims, file);
    UpdateFreshIff(was, dir, file, added);
    SortedNamesAre(dir.Keys);
    forall n ensures EntriesFor(mine.entries, n) == EntriesFor(full.entries, n) {
      UpdatedEntries(was, dir, file, added, n);
      ScanIsExact(cat, dir, SortedNames(dir.Keys), n);
      if n in dir && n != file {
        assert OnDisk(dir, dir[n]);
        assert Exact(cat, was.value, dir[n]);
      }
    }
    SameRouting(mine, full, subject);
  }
}
