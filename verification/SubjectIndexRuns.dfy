/**
 What care the index needs: a run for each thing that misleads a reader, all over a directory with
 one file, and the exact condition on the ingested packages.
 */
module SubjectIndexRuns {

  import opened Wrappers
  import opened SubjectIndexes
  import opened SubjectIndexProtocol

  /** Some careful run leads from one world to the other. */
  ghost predicate Reaches(cat: Catalog, ingested: iset<PackageStat>, w: World, w2: World) {
    exists actions :: CarefulRun(cat, ingested, w, actions, w2)
  }

  lemma {:induction false} CarefulRunsJoin(cat: Catalog, ingested: iset<PackageStat>, u: World, a: seq<Action>,
                                           v: World, b: seq<Action>, w: World)
    requires CarefulRun(cat, ingested, u, a, v) && CarefulRun(cat, ingested, v, b, w)
    ensures CarefulRun(cat, ingested, u, a + b, w)
    decreases |a|
  {
    if a == [] {
      assert a + b == b;
    } else {
      CarefulRunsJoin(cat, ingested, Next(cat, u, a[0]), a[1..], v, b, w);
      assert (a + b)[0] == a[0] && (a + b)[1..] == a[1..] + b;
    }
  }

  lemma ReachesOn(cat: Catalog, ingested: iset<PackageStat>, u: World, v: World, w: World)
    requires Reaches(cat, ingested, u, v) && Reaches(cat, ingested, v, w)
    ensures Reaches(cat, ingested, u, w)
  {
    var a :| CarefulRun(cat, ingested, u, a, v);
    var b :| CarefulRun(cat, ingested, v, b, w);
    CarefulRunsJoin(cat, ingested, u, a, v, b, w);
  }

  lemma ReachesNext(cat: Catalog, ingested: iset<PackageStat>, u: World, w: World, a: Action)
    requires Reaches(cat, ingested, u, w)
    requires Possible(cat, w, a) && Careful(w, a) && Ingests(w, a, ingested)
    ensures Reaches(cat, ingested, u, Next(cat, w, a))
  {
    var w2 := Next(cat, w, a);
    assert CarefulRun(cat, ingested, w2, [], w2);
    assert [a][1..] == [];
    assert CarefulRun(cat, ingested, w, [a], w2);
    ReachesOn(cat, ingested, u, w, w2);
  }

  lemma ReachesHere(cat: Catalog, ingested: iset<PackageStat>, w: World)
    ensures Reaches(cat, ingested, w, w)
  {
    assert CarefulRun(cat, ingested, w, [], w);
  }

  /** One call is at `c`, and its next step takes it to `d` in a world `v` otherwise. */
  lemma ReachesStep(cat: Catalog, ingested: iset<PackageStat>, u: World, w: World, t: nat, c: Call, v: World, d: Call)
    requires Reaches(cat, ingested, u, At(w, t, c)) && !Final(c)
    requires StepCall(cat, At(w, t, c), t, false) == At(At(v, t, c), t, d)
    ensures Reaches(cat, ingested, u, At(v, t, d))
  {
    ReachesNext(cat, ingested, u, At(w, t, c), Step(t, false));
    assert At(At(v, t, c), t, d) == At(v, t, d);
  }

  lemma OneName(dir: Directory, p: PackageStat)
    requires dir == map[p.name := p]
    ensures SortedNames(dir.Keys) == [p.name] && Listing(dir) == [p]
  {
    NamesSortedOnce([p.name], dir.Keys);
    ListedOnce([p], dir);
  }

  // ----- the pieces of a run --------------------------------------------------------------------

  /** A read lists the one file. */
  lemma ReadLists(cat: Catalog, ingested: iset<PackageStat>, w: World, t: nat, p: PackageStat)
    requires w.dir == map[p.name := p] && t !in w.calls
    ensures Reaches(cat, ingested, w, At(w, t, Loading([p], w.version)))
  {
    var k0, k1 := Walk([p.name], 0, []), Walk([p.name], 1, [p]);
    OneName(w.dir, p);
    ReachesHere(cat, ingested, w);
    ReachesNext(cat, ingested, w, w, BeginRead(t));
    ReachesStep(cat, ingested, w, w, t, Stating(k0, w.version), w, Stating(k1, w.version));
    ReachesStep(cat, ingested, w, w, t, Stating(k1, w.version), w, Loading([p], w.version));
  }

  /** It serves the stored index when that records just this file. */
  lemma ReadServes(cat: Catalog, ingested: iset<PackageStat>, w: World, t: nat, p: PackageStat)
    requires w.dir == map[p.name := p] && t !in w.calls && w.stored.Some? && w.stored.value.packages == [p]
    ensures Reaches(cat, ingested, w, At(w, t, Read(w.stored.value, w.version)))
  {
    ReadLists(cat, ingested, w, t, p);
    ReachesStep(cat, ingested, w, w, t, Loading([p], w.version), w, Read(w.stored.value, w.version));
  }

  /** With no stored index it sets out to rebuild. */
  lemma ReadRebuilds(cat: Catalog, ingested: iset<PackageStat>, w: World, t: nat, p: PackageStat)
    requires w.dir == map[p.name := p] && t !in w.calls && w.stored.None?
    ensures Reaches(cat, ingested, w, At(w, t, Globbing([p], w.version)))
  {
    ReadLists(cat, ingested, w, t, p);
    ReachesStep(cat, ingested, w, w, t, Loading([p], w.version), w, Globbing([p], w.version));
  }

  /** The rebuild scans whatever file is there by now. */
  lemma RebuildScans(cat: Catalog, ingested: iset<PackageStat>, w: World, t: nat, listed: seq<PackageStat>, since: nat,
                     q: PackageStat)
    requires w.dir == map[q.name := q] && cat(q).Some?
    ensures Reaches(cat, ingested, At(w, t, Globbing(listed, since)),
                    At(w, t, Saving(SubjectIndex(ScanEntries(cat(q).value, q.name), listed), since)))
  {
    var u := At(w, t, Globbing(listed, since));
    var found := ScanEntries(cat(q).value, q.name);
    OneName(w.dir, q);
    ReachesHere(cat, ingested, u);
    ReachesStep(cat, ingested, u, w, t, Globbing(listed, since), w, Scanning(listed, [q.name], 0, [], since));
    assert [] + found == found;
    ReachesStep(cat, ingested, u, w, t, Scanning(listed, [q.name], 0, [], since),
                w, Scanning(listed, [q.name], 1, found, since));
    ReachesStep(cat, ingested, u, w, t, Scanning(listed, [q.name], 1, found, since),
                w, Saving(SubjectIndex(found, listed), since));
  }

  lemma RebuildSaves(cat: Catalog, ingested: iset<PackageStat>, w: World, t: nat, idx: SubjectIndex, since: nat)
    ensures Reaches(cat, ingested, At(w, t, Saving(idx, since)), At(w.(stored := Some(idx)), t, Read(idx, since)))
  {
    var u := At(w, t, Saving(idx, since));
    ReachesHere(cat, ingested, u);
    ReachesStep(cat, ingested, u, w, t, Saving(idx, since), w.(stored := Some(idx)), Read(idx, since));
  }

  /** An ingest that has unpacked one file stats whatever file is there by now, */
  lemma UpdateStats(cat: Catalog, ingested: iset<PackageStat>, w: World, t: nat, p: PackageStat, q: PackageStat,
                    added: seq<IndexEntry>)
    requires w.dir == map[q.name := q] && p.name == q.name && w.stored.None?
    ensures Reaches(cat, ingested, At(w, t, Unpacked(q.name, p, added)),
                    At(w, t, Walking(q.name, p, added, None, Walk([q.name], 1, [q]))))
  {
    var u, n := At(w, t, Unpacked(q.name, p, added)), q.name;
    var k0, k1 := Walk([n], 0, []), Walk([n], 1, [q]);
    OneName(w.dir, q);
    ReachesHere(cat, ingested, u);
    ReachesStep(cat, ingested, u, w, t, Unpacked(n, p, added), w, Loaded(n, p, added, None));
    ReachesStep(cat, ingested, u, w, t, Loaded(n, p, added, None), w, Walking(n, p, added, None, k0));
    assert StatNext(At(w, t, Walking(n, p, added, None, k0)), k0) == k1;
    ReachesStep(cat, ingested, u, w, t, Walking(n, p, added, None, k0), w, Walking(n, p, added, None, k1));
  }

  lemma UpdateSaves(cat: Catalog, ingested: iset<PackageStat>, w: World, t: nat, idx: SubjectIndex)
    ensures Reaches(cat, ingested, At(w, t, Writing(idx)), At(w.(stored := Some(idx)), t, Ended))
  {
    var u := At(w, t, Writing(idx));
    ReachesHere(cat, ingested, u);
    ReachesStep(cat, ingested, u, w, t, Writing(idx), w.(stored := Some(idx)), Ended);
  }

  /** and records it with the entries it unpacked. */
  lemma UpdateRecords(cat: Catalog, ingested: iset<PackageStat>, w: World, t: nat, p: PackageStat, q: PackageStat,
                      added: seq<IndexEntry>)
    requires w.dir == map[q.name := q] && p.name == q.name && w.stored.None?
    ensures Reaches(cat, ingested, At(w, t, Unpacked(q.name, p, added)),
                    At(w.(stored := Some(SubjectIndex(added, [q]))), t, Ended))
  {
    var u, k := At(w, t, Unpacked(q.name, p, added)), Walk([q.name], 1, [q]);
    var idx := SubjectIndex(added, [q]);
    UpdateStats(cat, ingested, w, t, p, q, added);
    FirstUpdate(w.dir, k.stats, q, added);
    ReachesStep(cat, ingested, u, w, t, Walking(q.name, p, added, None, k), w, Writing(idx));
    UpdateSaves(cat, ingested, w, t, idx);
    ReachesOn(cat, ingested, u, At(w, t, Writing(idx)), At(w.(stored := Some(idx)), t, Ended));
  }

  lemma FirstUpdate(dir: Directory, stats: seq<PackageStat>, q: PackageStat, added: seq<IndexEntry>)
    requires dir == map[q.name := q] && stats == [q]
    ensures Updated(None, Seen(stats), q.name, added) == SubjectIndex(added, [q])
  {
    assert stats[..0] == [];
    assert Seen(stats) == dir;
    var idx := Updated(None, dir, q.name, added);
    UpdatedPackages(None, dir, q.name, added);
    UpdateFreshIff(None, dir, q.name, added);
    OneName(dir, q);
    assert [] + added == added;
  }

  // ----- an ingest, and a replacement in the middle of it ---------------------------------------

  ghost function OneFile(p: PackageStat): World {
    World(map[p.name := p], 0, {}, None, map[])
  }

  ghost function Handed(cat: Catalog, p: PackageStat): seq<IndexEntry>
    requires cat(p).Some?
  {
    IngestClaims(cat(p).value.packageId, cat(p).value.claims, p.name)
  }

  /** What a read of the one file q serves agrees with a scan exactly when the entries are q's. */
  lemma ServedAgreesIff(cat: Catalog, w: World, t: nat, q: PackageStat, entries: seq<IndexEntry>)
    requires w.dir == map[q.name := q] && Current(w, t) && w.calls[t].idx.entries == entries
    requires forall e | e in entries :: e.packageFile == q.name
    ensures Agrees(cat, w, t) <==> cat(q).Some? && entries == ScanEntries(cat(q).value, q.name)
  {
    EntriesOfOneFile(entries, q.name, q.name);
    assert w.dir[q.name] == q;
    assert Exact(cat, w.calls[t].idx, q) <==> cat(q).Some? && entries == ScanEntries(cat(q).value, q.name);
  }

  lemma {:induction false} HandedFile(packageId: string, claims: seq<Claim>, file: string)
    ensures forall e | e in IngestClaims(packageId, claims, file) :: e.packageFile == file
  {
    if claims != [] {
      HandedFile(packageId, claims[1..], file);
    }
  }

  lemma ServedAfterUpdate(cat: Catalog, ingested: iset<PackageStat>, v: World, p: PackageStat, q: PackageStat)
    returns (w: World)
    requires v.dir == map[q.name := q] && p.name == q.name && v.stored.None? && cat(p).Some? && v.calls == map[]
    ensures Reaches(cat, ingested, At(v, 0, Unpacked(p.name, p, Handed(cat, p))), w)
    ensures w.dir == v.dir && Current(w, 1)
    ensures Agrees(cat, w, 1) <==> cat(q).Some? && Handed(cat, p) == ScanEntries(cat(q).value, q.name)
  {
    var idx := SubjectIndex(Handed(cat, p), [q]);
    var w1 := At(v.(stored := Some(idx)), 0, Ended);
    UpdateRecords(cat, ingested, v, 0, p, q, Handed(cat, p));
    ReadServes(cat, ingested, w1, 1, q);
    w := At(w1, 1, Read(idx, w1.version));
    ReachesOn(cat, ingested, At(v, 0, Unpacked(p.name, p, Handed(cat, p))), w1, w);
    HandedFile(cat(p).value.packageId, cat(p).value.claims, p.name);
    ServedAgreesIff(cat, w, 1, q, Handed(cat, p));
  }

  /**
   One package is ingested and then read, with nothing else happening. The read serves what the
   ingest recorded, which agrees with a scan exactly when the package's claims have one name each.
   */
  lemma IngestMisleads(cat: Catalog, p: PackageStat) returns (w: World)
    requires cat(p).Some?
    ensures Init(OneFile(p)) && Reaches(cat, iset{p}, OneFile(p), w)
    ensures w.dir == OneFile(p).dir && Current(w, 1) && (Agrees(cat, w, 1) <==> Alike(cat(p).value))
  {
    var w0 := OneFile(p);
    ReachesHere(cat, iset{p}, w0);
    ReachesNext(cat, iset{p}, w0, w0, BeginUpdate(0, p.name));
    w := ServedAfterUpdate(cat, iset{p}, w0, p, p);
    ReachesOn(cat, iset{p}, w0, At(w0, 0, Unpacked(p.name, p, Handed(cat, p))), w);
    IngestScansAlikeIff(cat(p).value.packageId, cat(p).value.claims, p.name);
  }

  /**
   The file is replaced between the ingest's unpack and its stat, the only careless step: the entries
   of the file that is gone are served for the one that took its place.
   */
  lemma ReplacementMisleads(cat: Catalog, p: PackageStat, q: PackageStat) returns (w1: World, w: World)
    requires p.name == q.name && p != q && cat(p).Some?
    ensures Init(OneFile(p)) && Reaches(cat, iset{p}, OneFile(p), w1)
    ensures Possible(cat, w1, Put(q)) && !Careful(w1, Put(q)) && Reaches(cat, iset{}, Next(cat, w1, Put(q)), w)
    ensures w.dir == OneFile(q).dir && Current(w, 1)
    ensures Agrees(cat, w, 1) <==> cat(q).Some? && Handed(cat, p) == ScanEntries(cat(q).value, q.name)
  {
    var w0 := OneFile(p);
    ReachesHere(cat, iset{p}, w0);
    ReachesNext(cat, iset{p}, w0, w0, BeginUpdate(0, p.name));
    w1 := At(w0, 0, Unpacked(p.name, p, Handed(cat, p)));
    assert Between(w1.calls[0], q.name);
    var v := World(map[q.name := q], 1, {}, None, map[]);
    assert Next(cat, w1, Put(q)) == At(v, 0, Unpacked(p.name, p, Handed(cat, p)));
    w := ServedAfterUpdate(cat, iset{}, v, p, q);
  }

  // ----- an identity that returns ---------------------------------------------------------------

  lemma ReplacedWhileListed(cat: Catalog, p: PackageStat, q: PackageStat, before: World, v: World, idx: SubjectIndex)
    requires p.name == q.name && p != q && cat(q).Some?
    requires before == World(map[p.name := p], 0, {}, None, map[])
    requires v == World(map[q.name := q], 1, {p}, None, map[])
    requires idx == SubjectIndex(ScanEntries(cat(q).value, q.name), [p])
    ensures Reaches(cat, iset{}, before, At(v, 0, Saving(idx, 0)))
  {
    var w1 := At(before, 0, Globbing([p], 0));
    ReadRebuilds(cat, iset{}, before, 0, p);
    assert Unread(w1.calls[0], p);
    assert forall c | c in w1.calls :: !Between(w1.calls[c], q.name);
    ReachesNext(cat, iset{}, before, w1, Put(q));
    assert Next(cat, w1, Put(q)) == At(v, 0, Globbing([p], 0));
    RebuildScans(cat, iset{}, v, 0, [p], 0, q);
    ReachesOn(cat, iset{}, before, At(v, 0, Globbing([p], 0)), At(v, 0, Saving(idx, 0)));
  }

  /**
   A rebuild lists p; q takes its place and is what the rebuild scans; p returns, before the index is
   saved or after, the only careless step. The next read serves the saved index, which agrees with a
   scan exactly when p and q have the same entries. Once the index is saved no call holds a stat of p
   any more, so care about the calls alone would not do: the index file must be looked at too.
   */
  lemma ReturnMisleads(cat: Catalog, p: PackageStat, q: PackageStat, afterSave: bool) returns (w1: World, w: World)
    requires p.name == q.name && p != q && cat(q).Some?
    ensures Init(OneFile(p)) && Reaches(cat, iset{}, OneFile(p), w1)
    ensures afterSave ==> forall t | t in w1.calls :: Final(w1.calls[t])
    ensures Possible(cat, w1, Put(p)) && !Careful(w1, Put(p)) && Reaches(cat, iset{}, Next(cat, w1, Put(p)), w)
    ensures w.dir == OneFile(p).dir && Current(w, 1)
    ensures Agrees(cat, w, 1)
            <==> cat(p).Some? && ScanEntries(cat(q).value, q.name) == ScanEntries(cat(p).value, p.name)
  {
    var none := iset{};
    var idx := SubjectIndex(ScanEntries(cat(q).value, q.name), [p]);
    var v := World(map[q.name := q], 1, {p}, None, map[]);
    var back := World(map[p.name := p], 2, {}, Some(idx), map[]);
    var saved := At(back, 0, Read(idx, 0));
    ReplacedWhileListed(cat, p, q, OneFile(p), v, idx);
    if afterSave {
      RebuildSaves(cat, none, v, 0, idx, 0);
      w1 := At(v.(stored := Some(idx)), 0, Read(idx, 0));
      ReachesOn(cat, none, OneFile(p), At(v, 0, Saving(idx, 0)), w1);
      assert Torn(w1, p.name) == {};
      assert Next(cat, w1, Put(p)) == saved;
      ReachesHere(cat, none, saved);
    } else {
      w1 := At(v, 0, Saving(idx, 0));
      assert Records(w1.calls[0], p);
      assert Torn(w1, p.name) == {};
      assert Next(cat, w1, Put(p)) == At(back.(stored := None), 0, Saving(idx, 0));
      RebuildSaves(cat, none, back.(stored := None), 0, idx, 0);
      assert saved == At(back.(stored := None).(stored := Some(idx)), 0, Read(idx, 0));
    }
    ReadServes(cat, none, saved, 1, p);
    w := At(saved, 1, Read(idx, 2));
    ReachesOn(cat, none, Next(cat, w1, Put(p)), saved, w);
    ScannedFile(cat(q).value.packageId, cat(q).value.claims, q.name);
    ServedAgreesIff(cat, w, 1, p, idx.entries);
  }

  // ----- exactly when reads agree ---------------------------------------------------------------

  /** Whatever happens, with care, what a read returns for an unchanged directory agrees with a scan. */
  ghost predicate ReadsAgree(cat: Catalog, ingested: iset<PackageStat>) {
    forall w0, w, t | Init(w0) && Reaches(cat, ingested, w0, w) && Current(w, t) :: Agrees(cat, w, t)
  }

  lemma {:induction false} MoreIngested(cat: Catalog, few: iset<PackageStat>, many: iset<PackageStat>, w: World,
                                        actions: seq<Action>, w2: World)
    requires few <= many && CarefulRun(cat, few, w, actions, w2)
    ensures CarefulRun(cat, many, w, actions, w2)
    decreases |actions|
  {
    if actions != [] {
      MoreIngested(cat, few, many, Next(cat, w, actions[0]), actions[1..], w2);
    }
  }

  /**
   Reads agree with scans over every careful run that ingests any of these packages exactly when each
   of them that verifies names its subject-bearing claims alike in the manifest and in the claims.
   */
  lemma ReadsAgreeIff(cat: Catalog, ingested: iset<PackageStat>)
    ensures ReadsAgree(cat, ingested) <==> AllAlike(cat, ingested)
  {
    if AllAlike(cat, ingested) {
      forall w0, w, t | Init(w0) && Reaches(cat, ingested, w0, w) && Current(w, t) ensures Agrees(cat, w, t) {
        var actions :| CarefulRun(cat, ingested, w0, actions, w);
        ReadAgreesWithScan(cat, ingested, w0, actions, w, t);
      }
    } else {
      var p :| p in ingested && cat(p).Some? && !Alike(cat(p).value);
      var w := IngestMisleads(cat, p);
      var actions :| CarefulRun(cat, iset{p}, OneFile(p), actions, w);
      MoreIngested(cat, iset{p}, ingested, OneFile(p), actions, w);
      assert Reaches(cat, ingested, OneFile(p), w);
    }
  }
}
