/**
 The package directory with the index file beside the packages: listing, scan, incremental update
 and the freshness-guaranteed load, on a directory that holds still during the call. The stored
 index is absent when its file is missing, unreadable, corrupt or of another schema.
 */
module PackageDirectories {

  import opened Wrappers
  import opened Ordering
  import opened SubjectIndexes

  lemma SameFilters(was: SubjectIndex, dir: Directory, file: string, onDisk: set<string>)
    requires onDisk == dir.Keys
    ensures Filter((e: IndexEntry) => e.packageFile != file && e.packageFile in onDisk, was.entries)
            == Filter(StaysFor(dir, file), was.entries)
    ensures Filter((p: PackageStat) => p.name != file && p.name in onDisk, was.packages)
            == Filter(KeptStat(dir, file), was.packages)
  {
    FilterAgree((e: IndexEntry) => e.packageFile != file && e.packageFile in onDisk, StaysFor(dir, file), was.entries);
    FilterAgree((p: PackageStat) => p.name != file && p.name in onDisk, KeptStat(dir, file), was.packages);
  }

  lemma ScanNext(cat: Catalog, dir: Directory, names: seq<string>, i: nat)
    requires i < |names| && names[i] in dir && cat(dir[names[i]]).Some? && Scan(cat, dir, names[..i]).Some?
    ensures Scan(cat, dir, names[..i + 1])
            == Some(Scan(cat, dir, names[..i]).value + ScanEntries(cat(dir[names[i]]).value, names[i]))
  {
    assert names[..i + 1][..i] == names[..i];
  }

  class PackageDirectory {
    var files: Directory
    var stored: Option<SubjectIndex>

    method Glob() returns (names: seq<string>)
      ensures names == SortedNames(files.Keys)
    {
      var left := files.Keys;
      names := [];
      while left != {}
        invariant left <= files.Keys
        invariant StrictlySorted(StringLess, names)
        invariant forall n :: n in names <==> n in files.Keys && n !in left
        decreases |left|
      {
        var n :| n in left;
        InsertName(n, names);
        names := Insert(StringLess, n, names);
        left := left - {n};
      }
      NamesSortedOnce(names, files.Keys);
    }

    method CurrentPackages() returns (stats: seq<PackageStat>)
      ensures stats == Listing(files)
    {
      var names := Glob();
      stats := [];
      var i := 0;
      assert names[..0] == [];
      while i < |names|
        invariant 0 <= i <= |names|
        invariant stats == Stats(files, names[..i])
      {
        assert names[..i + 1][..i] == names[..i];
        if names[i] in files {
          stats := stats + [files[names[i]]];
        }
        i := i + 1;
      }
      assert names[..i] == names;
    }

    /** Unpacks every package; the first that does not verify aborts the scan. */
    method ScanIndexEntries(cat: Catalog) returns (r: Option<seq<IndexEntry>>)
      ensures r == FullScan(cat, files)
    {
      var names := Glob();
      var entries: seq<IndexEntry> := [];
      var i := 0;
      assert names[..0] == [];
      while i < |names|
        invariant 0 <= i <= |names|
        invariant Scan(cat, files, names[..i]) == Some(entries)
      {
        if names[i] !in files || cat(files[names[i]]).None? {
          ScanStops(cat, files, names, i);
          return None;
        }
        ScanNext(cat, files, names, i);
        entries := entries + ScanEntries(cat(files[names[i]]).value, names[i]);
        i := i + 1;
      }
      assert names[..i] == names;
      r := Some(entries);
    }

    /** The best-effort maintenance after an ingest: one file's entries and identity are replaced. */
    method UpdateIndexForPackage(file: string, packageId: string, claims: seq<Claim>)
      requires WellNamed(files)
      modifies this`stored
      ensures stored == Some(Updated(old(stored), files, file, IngestClaims(packageId, claims, file)))
    {
      var current := CurrentPackages();
      var onDisk := set p | p in current :: p.name;
      ListingIs(files);
      assert onDisk == files.Keys by {
        forall n | n in files ensures n in onDisk {
          assert OnDisk(files, files[n]);
        }
      }
      var was := if stored.Some? then stored.value else SubjectIndex([], []);
      SameFilters(was, files, file, onDisk);
      var baseEntries := Filter((e: IndexEntry) => e.packageFile != file && e.packageFile in onDisk, was.entries);
      var basePackages := Filter((p: PackageStat) => p.name != file && p.name in onDisk, was.packages);
      var ingested := if file in onDisk then [files[file]] else [];
      stored := Some(SubjectIndex(baseEntries + IngestClaims(packageId, claims, file),
                                  Sort(ByName, basePackages + ingested)));
    }

    /**
     A fresh stored index is returned as it is; otherwise the corpus is scanned before returning, and
     a failing scan fails the read. From a sound stored index, the result agrees with a full scan of
     every package on disk.
     */
    method LoadOrRebuild(cat: Catalog, saveFails: bool) returns (r: Option<SubjectIndex>)
      requires WellNamed(files)
      modifies this`stored
      ensures old(stored).Some? && old(stored).value.packages == Listing(files) ==> r == old(stored) == stored
      ensures !(old(stored).Some? && old(stored).value.packages == Listing(files)) ==>
                && r == (if FullScan(cat, files).None? then None
                         else Some(SubjectIndex(FullScan(cat, files).value, Listing(files))))
                && stored == (if r.None? || saveFails then old(stored) else r)
      ensures r.Some? && (old(stored).Some? ==> Sound(cat, old(stored).value, Gone(files, old(stored).value))) ==>
                Sound(cat, r.value, Gone(files, r.value)) && forall n | n in files :: Exact(cat, r.value, files[n])
    {
      var current := CurrentPackages();
      if stored.Some? && stored.value.packages == current {
        if Sound(cat, stored.value, Gone(files, stored.value)) {
          FreshIsExact(cat, files, stored.value, Gone(files, stored.value));
        }
        return stored;
      }
      var entries := ScanIndexEntries(cat);
      if entries.None? {
        return None;
      }
      RebuiltIsExact(cat, files);
      var rebuilt := SubjectIndex(entries.value, current);
      if !saveFails {
        stored := Some(rebuilt);
      }
      r := Some(rebuilt);
    }
  }

  lemma {:induction false} ScanStops(cat: Catalog, dir: Directory, names: seq<string>, i: nat)
    requires i < |names| && (names[i] !in dir || cat(dir[names[i]]).None?)
    ensures Scan(cat, dir, names).None?
  {
    if i < |names| - 1 {
      ScanStops(cat, dir, names[..|names| - 1], i);
    }
  }
}
