/**
 Readers, rebuilders and ingest updates over one package directory that changes under them. Every
 file access is its own step: a glob, one stat, one unpack, the load and the atomic replacement of
 the index file. Packages come, are replaced, go and return; the index file can get lost; calls can die.
 */
module SubjectIndexProtocol {

  import opened Wrappers
  import opened Ordering
  import opened SubjectIndexes

  /** The stat'ing of a glob's names, up to and without the one at `next`. */
  datatype Walk = Walk(names: seq<string>, next: nat, stats: seq<PackageStat>)

  datatype Call =
    | Stating(walk: Walk, since: nat)
    | Loading(current: seq<PackageStat>, since: nat)
    | Globbing(current: seq<PackageStat>, since: nat)
    | Scanning(current: seq<PackageStat>, names: seq<string>, next: nat, entries: seq<IndexEntry>, since: nat)
    | Saving(idx: SubjectIndex, since: nat)
    | Read(idx: SubjectIndex, since: nat)
    | ReadFailed
    | Unpacked(file: string, p: PackageStat, added: seq<IndexEntry>)
    | Loaded(file: string, p: PackageStat, added: seq<IndexEntry>, was: Option<SubjectIndex>)
    | Walking(file: string, p: PackageStat, added: seq<IndexEntry>, was: Option<SubjectIndex>, walk: Walk)
    | Writing(idx: SubjectIndex)
    | Ended

  /**
   The directory, how often it has changed, the index file, the calls. A read remembers the version it
   began at. A history variable: the identities that went away after a rebuild had listed them and
   before it had read them, and have not returned.
   */
  datatype World = World(dir: Directory, version: nat, torn: set<PackageStat>, stored: Option<SubjectIndex>,
                         calls: map<nat, Call>)

  datatype Action =
    | Put(p: PackageStat) | Remove(name: string) | Lose
    | BeginRead(t: nat) | BeginUpdate(t: nat, file: string)
    | Step(t: nat, saveFails: bool) | Die(t: nat)

  predicate Final(c: Call) {
    c.Read? || c.ReadFailed? || c.Ended?
  }

  /** Whatever the directory, the readers and the ingests may do next. */
  ghost predicate Possible(cat: Catalog, w: World, a: Action) {
    match a
    case Put(p) => !OnDisk(w.dir, p)
    case Remove(n) => n in w.dir
    case Lose => true
    case BeginRead(t) => t !in w.calls
    case BeginUpdate(t, f) => t !in w.calls && f in w.dir && cat(w.dir[f]).Some?
    case Step(t, _) => t in w.calls && !Final(w.calls[t])
    case Die(t) => t in w.calls && !Final(w.calls[t])
  }

  /** The index file may be lost, and any unfinished call may die, at any time. */
  lemma AnytimeLost(cat: Catalog, w: World)
    ensures Possible(cat, w, Lose)
    ensures forall t | t in w.calls && !Final(w.calls[t]) :: Possible(cat, w, Die(t))
  {
  }

  /** An ingest has unpacked the file and has yet to stat it. */
  predicate Between(c: Call, file: string) {
    match c
    case Unpacked(f, _, _) => f == file
    case Loaded(f, _, _, _) => f == file
    case Walking(f, _, _, _, w) => f == file && (w.next <= |w.names| ==> file !in w.names[..w.next])
    case _ => false
  }

  /** A rebuild has listed the identity and has yet to read its file. */
  predicate Unread(c: Call, p: PackageStat) {
    match c
    case Stating(k, _) => p in k.stats
    case Loading(current, _) => p in current
    case Globbing(current, _) => p in current
    case Scanning(current, names, next, _, _) => p in current && next <= |names| && p.name !in names[..next]
    case _ => false
  }

  /** An index that a call is working on, or may still save, records the identity. */
  predicate Records(c: Call, p: PackageStat) {
    match c
    case Stating(k, _) => p in k.stats
    case Loading(current, _) => p in current
    case Globbing(current, _) => p in current
    case Scanning(current, _, _, _, _) => p in current
    case Saving(idx, _) => p in idx.packages
    case Loaded(_, _, _, was) => was.Some? && p in was.value.packages
    case Walking(_, _, _, was, _) => was.Some? && p in was.value.packages
    case Writing(idx) => p in idx.packages
    case _ => false
  }

  ghost predicate Recorded(w: World, p: PackageStat) {
    (w.stored.Some? && p in w.stored.value.packages) || exists t | t in w.calls :: Records(w.calls[t], p)
  }

  /**
   The two things that must not happen: a file is put in place between an ingest's unpack of that
   name and its stat, unless it is the very file that was unpacked; and an identity that was torn
   from a rebuild returns while the index file or a call still records it.
   */
  ghost predicate Careful(w: World, a: Action) {
    a.Put? ==>
      && (forall t | t in w.calls && Between(w.calls[t], a.p.name) :: w.calls[t].p == a.p)
      && (a.p in w.torn ==> !Recorded(w, a.p))
  }

  function At(w: World, t: nat, c: Call): World {
    w.(calls := w.calls[t := c])
  }

  ghost function Glob(w: World): Walk {
    Walk(SortedNames(w.dir.Keys), 0, [])
  }

  function StatNext(w: World, k: Walk): Walk
    requires k.next < |k.names|
  {
    Walk(k.names, k.next + 1, k.stats + if k.names[k.next] in w.dir then [w.dir[k.names[k.next]]] else [])
  }

  /** The directory as a walk saw it. */
  function Seen(stats: seq<PackageStat>): Directory {
    if stats == [] then map[] else Seen(stats[..|stats| - 1])[stats[|stats| - 1].name := stats[|stats| - 1]]
  }

  ghost function StepCall(cat: Catalog, w: World, t: nat, saveFails: bool): World
    requires t in w.calls
  {
    match w.calls[t]
    case Stating(k, since) =>
      At(w, t, if k.next < |k.names| then Stating(StatNext(w, k), since) else Loading(k.stats, since))
    case Loading(current, since) =>
      At(w, t,
         if w.stored.Some? && w.stored.value.packages == current then Read(w.stored.value, since)
         else Globbing(current, since))
    case Globbing(current, since) => At(w, t, Scanning(current, SortedNames(w.dir.Keys), 0, [], since))
    case Scanning(current, names, next, entries, since) =>
      At(w, t,
         if next >= |names| then Saving(SubjectIndex(entries, current), since)
         else if names[next] !in w.dir || cat(w.dir[names[next]]).None? then ReadFailed
         else Scanning(current, names, next + 1,
                       entries + ScanEntries(cat(w.dir[names[next]]).value, names[next]), since))
    case Saving(idx, since) => At(if saveFails then w else w.(stored := Some(idx)), t, Read(idx, since))
    case Unpacked(f, p, added) => At(w, t, Loaded(f, p, added, w.stored))
    case Loaded(f, p, added, was) => At(w, t, Walking(f, p, added, was, Glob(w)))
    case Walking(f, p, added, was, k) =>
      At(w, t,
         if k.next < |k.names| then Walking(f, p, added, was, StatNext(w, k))
         else Writing(Updated(was, Seen(k.stats), f, added)))
    case Writing(idx) => At(if saveFails then w else w.(stored := Some(idx)), t, Ended)
    case _ => w
  }

  /** The identity a name gives up, if some rebuild has listed it and not read it. */
  ghost function Torn(w: World, n: string): set<PackageStat> {
    if n in w.dir && exists t | t in w.calls :: Unread(w.calls[t], w.dir[n]) then {w.dir[n]} else {}
  }

  ghost function Next(cat: Catalog, w: World, a: Action): World
    requires Possible(cat, w, a)
  {
    match a
    case Put(p) => w.(dir := w.dir[p.name := p], version := w.version + 1, torn := w.torn - {p} + Torn(w, p.name))
    case Remove(n) => w.(dir := w.dir - {n}, version := w.version + 1, torn := w.torn + Torn(w, n))
    case Lose => w.(stored := None)
    case BeginRead(t) => At(w, t, Stating(Glob(w), w.version))
    case BeginUpdate(t, f) =>
      At(w, t, Unpacked(f, w.dir[f], IngestClaims(cat(w.dir[f]).value.packageId, cat(w.dir[f]).value.claims, f)))
    case Step(t, saveFails) => StepCall(cat, w, t, saveFails)
    case Die(t) => At(w, t, Ended)
  }

  /** A rebuild fails at a file exactly when it has gone or does not verify; a call that dies leaves nothing behind. */
  lemma FailsIff(cat: Catalog, w: World, t: nat, saveFails: bool)
    requires t in w.calls && w.calls[t].Scanning?
    ensures var c, u := w.calls[t], Next(cat, w, Step(t, saveFails));
            && (u.calls[t] == ReadFailed <==>
                  && c.next < |c.names|
                  && (c.names[c.next] !in w.dir || cat(w.dir[c.names[c.next]]).None?))
            && u == w.(calls := w.calls[t := u.calls[t]])
    ensures Next(cat, w, Die(t)) == w.(calls := w.calls[t := Ended])
  {
  }

  // ----- the invariant --------------------------------------------------------------------------

  /** Listed by a rebuild and not yet read: it is still there, or torn. */
  ghost predicate Waiting(w: World, p: PackageStat) {
    p !in w.torn ==> OnDisk(w.dir, p)
  }

  ghost predicate WalkOk(k: Walk) {
    && k.next <= |k.names| && StrictlySorted(StringLess, k.names) && StrictlySorted(ByName, k.stats)
    && forall p | p in k.stats :: p.name in k.names[..k.next]
  }

  /** While the directory has held still, a walk has seen exactly what is there. */
  ghost predicate WalkCurrent(w: World, k: Walk) {
    k.next <= |k.names| && k.names == SortedNames(w.dir.Keys) && k.stats == Stats(w.dir, k.names[..k.next])
  }

  ghost predicate ListOk(w: World, current: seq<PackageStat>, since: nat) {
    StrictlySorted(ByName, current) && since <= w.version && (since == w.version ==> current == Listing(w.dir))
  }

  /** Every listed identity has been read as it is once the scan is past it, and waits for it before. */
  ghost predicate ScanOk(cat: Catalog, w: World, current: seq<PackageStat>, names: seq<string>, next: nat,
                         entries: seq<IndexEntry>) {
    && next <= |names| && StrictlySorted(StringLess, names)
    && (forall e | e in entries :: e.packageFile in names[..next])
    && forall p | p in current && p !in w.torn ::
         if p.name in names[..next] then Exact(cat, SubjectIndex(entries, current), p)
         else OnDisk(w.dir, p) && p.name in names
  }

  ghost predicate UnpackOk(cat: Catalog, file: string, p: PackageStat, added: seq<IndexEntry>) {
    p.name == file && cat(p).Some? && added == ScanEntries(cat(p).value, file)
  }

  ghost predicate CallOk(cat: Catalog, w: World, c: Call) {
    && (forall f | Between(c, f) && f in w.dir :: w.dir[f] == c.p)
    && match c
       case Stating(k, since) =>
         && WalkOk(k) && since <= w.version && (since == w.version ==> WalkCurrent(w, k))
         && forall p | p in k.stats :: Waiting(w, p)
       case Loading(current, since) => ListOk(w, current, since) && forall p | p in current :: Waiting(w, p)
       case Globbing(current, since) => ListOk(w, current, since) && forall p | p in current :: Waiting(w, p)
       case Scanning(current, names, next, entries, since) =>
         ListOk(w, current, since) && ScanOk(cat, w, current, names, next, entries)
       case Saving(idx, since) => Sound(cat, idx, w.torn) && ListOk(w, idx.packages, since)
       case Read(idx, since) => ListOk(w, idx.packages, since) && (since == w.version ==> Sound(cat, idx, w.torn))
       case Unpacked(f, p, added) => UnpackOk(cat, f, p, added)
       case Loaded(f, p, added, was) => UnpackOk(cat, f, p, added) && (was.Some? ==> Sound(cat, was.value, w.torn))
       case Walking(f, p, added, was, k) =>
         && UnpackOk(cat, f, p, added) && (was.Some? ==> Sound(cat, was.value, w.torn))
         && WalkOk(k) && forall q | q in k.stats && q.name == f :: q == p
       case Writing(idx) => Sound(cat, idx, w.torn)
       case _ => true
  }

  ghost predicate Inv(cat: Catalog, w: World) {
    && WellNamed(w.dir) && (forall n | n in w.dir :: w.dir[n] !in w.torn)
    && (w.stored.Some? ==> Sound(cat, w.stored.value, w.torn))
    && forall t | t in w.calls :: CallOk(cat, w, w.calls[t])
  }

  // ----- the directory changes ------------------------------------------------------------------

  /** What a careful change of the directory does to the rest of the world. */
  ghost predicate Changes(w: World, w2: World) {
    && w2.version == w.version + 1 && w2.stored == w.stored && w2.calls == w.calls
    && WellNamed(w2.dir) && (forall n | n in w2.dir :: w2.dir[n] !in w2.torn)
    && (forall p | p in w.torn && p !in w2.torn :: !Recorded(w, p))
    && (forall t, p | t in w.calls && Unread(w.calls[t], p) && OnDisk(w.dir, p) && p !in w2.torn :: OnDisk(w2.dir, p))
    && (forall t, f | t in w.calls && Between(w.calls[t], f) && f in w2.dir ::
          w2.dir[f] == w.calls[t].p || (f in w.dir && w2.dir[f] == w.dir[f]))
  }

  lemma PutChanges(cat: Catalog, w: World, p: PackageStat)
    requires Inv(cat, w) && Possible(cat, w, Put(p)) && Careful(w, Put(p))
    ensures Changes(w, Next(cat, w, Put(p)))
  {
  }

  lemma RemoveChanges(cat: Catalog, w: World, n: string)
    requires Inv(cat, w) && Possible(cat, w, Remove(n))
    ensures Changes(w, Next(cat, w, Remove(n)))
  {
  }

  lemma SoundSurvives(cat: Catalog, w: World, w2: World, idx: SubjectIndex)
    requires Changes(w, w2) && Sound(cat, idx, w.torn) && forall p | p in idx.packages :: Recorded(w, p)
    ensures Sound(cat, idx, w2.torn)
  {
  }

  lemma CallSurvives(cat: Catalog, w: World, w2: World, t: nat)
    requires Changes(w, w2) && t in w.calls && CallOk(cat, w, w.calls[t])
    ensures CallOk(cat, w2, w.calls[t])
  {
    var c := w.calls[t];
    forall p | Records(c, p) ensures p in w.torn ==> p in w2.torn {
      assert Recorded(w, p);
    }
    match c
    case Saving(idx, _) => RecordsKeep(w, t, idx); SoundSurvives(cat, w, w2, idx);
    case Writing(idx) => RecordsKeep(w, t, idx); SoundSurvives(cat, w, w2, idx);
    case Loaded(_, _, _, was) => if was.Some? { RecordsKeep(w, t, was.value); SoundSurvives(cat, w, w2, was.value); }
    case Walking(_, _, _, was, _) =>
      if was.Some? { RecordsKeep(w, t, was.value); SoundSurvives(cat, w, w2, was.value); }
    case Scanning(current, names, next, entries, _) => ScanSurvives(cat, w, w2, t);
    case Stating(k, _) => WaitingSurvives(w, w2, t, k.stats);
    case Loading(current, _) => WaitingSurvives(w, w2, t, current);
    case Globbing(current, _) => WaitingSurvives(w, w2, t, current);
    case _ =>
  }

  lemma WaitingSurvives(w: World, w2: World, t: nat, listed: seq<PackageStat>)
    requires Changes(w, w2) && t in w.calls
    requires forall p | p in listed :: Unread(w.calls[t], p) && Records(w.calls[t], p) && Waiting(w, p)
    ensures forall p | p in listed :: Waiting(w2, p)
  {
    forall p | p in listed ensures Waiting(w2, p) {
      assert Recorded(w, p);
    }
  }

  lemma RecordsKeep(w: World, t: nat, idx: SubjectIndex)
    requires t in w.calls && forall p | p in idx.packages :: Records(w.calls[t], p)
    ensures forall p | p in idx.packages :: Recorded(w, p)
  {
  }

  lemma ScanSurvives(cat: Catalog, w: World, w2: World, t: nat)
    requires Changes(w, w2) && t in w.calls && w.calls[t].Scanning?
    requires forall p | Records(w.calls[t], p) :: p in w.torn ==> p in w2.torn
    requires var c := w.calls[t]; ScanOk(cat, w, c.current, c.names, c.next, c.entries)
    ensures var c := w.calls[t]; ScanOk(cat, w2, c.current, c.names, c.next, c.entries)
  {
    var c := w.calls[t];
    forall p | p in c.current && p !in w2.torn && p.name !in c.names[..c.next] ensures OnDisk(w2.dir, p) {
      assert Records(c, p) && Unread(c, p);
    }
  }

  lemma ChangeKeeps(cat: Catalog, w: World, w2: World)
    requires Inv(cat, w) && Changes(w, w2)
    ensures Inv(cat, w2)
  {
    if w.stored.Some? {
      SoundSurvives(cat, w, w2, w.stored.value);
    }
    forall t | t in w2.calls ensures CallOk(cat, w2, w2.calls[t]) {
      CallSurvives(cat, w, w2, t);
    }
  }

  // ----- one call takes a step ------------------------------------------------------------------

  lemma CallKeeps(cat: Catalog, w: World, t: nat, c: Call)
    requires Inv(cat, w) && CallOk(cat, w, c)
    ensures Inv(cat, At(w, t, c))
  {
    var w2 := At(w, t, c);
    forall q | q in w2.calls ensures CallOk(cat, w2, w2.calls[q]) {
      SameWorld(cat, w, w2, w2.calls[q]);
    }
  }

  lemma SameWorld(cat: Catalog, w: World, w2: World, c: Call)
    requires CallOk(cat, w, c) && w2.dir == w.dir && w2.version == w.version && w2.torn == w.torn
    ensures CallOk(cat, w2, c)
  {
  }

  lemma StoreKeeps(cat: Catalog, w: World, idx: SubjectIndex)
    requires Inv(cat, w) && Sound(cat, idx, w.torn)
    ensures Inv(cat, w.(stored := Some(idx)))
  {
    var w2 := w.(stored := Some(idx));
    forall q | q in w2.calls ensures CallOk(cat, w2, w2.calls[q]) {
      SameWorld(cat, w, w2, w2.calls[q]);
    }
  }

  lemma StatKeeps(w: World, k: Walk)
    requires WellNamed(w.dir) && WalkOk(k) && k.next < |k.names|
    ensures WalkOk(StatNext(w, k))
    ensures WalkCurrent(w, k) ==> WalkCurrent(w, StatNext(w, k))
    ensures forall p | p in StatNext(w, k).stats :: p in k.stats || OnDisk(w.dir, p)
  {
    var n := k.names[k.next];
    assert k.names[..k.next + 1] == k.names[..k.next] + [n];
    assert k.names[..k.next + 1][..k.next] == k.names[..k.next];
    if n in w.dir {
      forall i | 0 <= i < |k.stats| ensures ByName(k.stats[i], w.dir[n]) {
        assert k.stats[i] in k.stats;
        var j :| 0 <= j < k.next && k.names[j] == k.stats[i].name;
      }
    }
  }

  lemma GlobOk(w: World)
    requires WellNamed(w.dir)
    ensures WalkOk(Glob(w)) && WalkCurrent(w, Glob(w))
  {
    SortedNamesAre(w.dir.Keys);
    assert SortedNames(w.dir.Keys)[..0] == [];
  }

  lemma ScanBegins(cat: Catalog, w: World, current: seq<PackageStat>)
    requires forall p | p in current :: Waiting(w, p)
    ensures ScanOk(cat, w, current, SortedNames(w.dir.Keys), 0, [])
  {
    SortedNamesAre(w.dir.Keys);
  }

  lemma ScanGoesOn(cat: Catalog, w: World, current: seq<PackageStat>, names: seq<string>, next: nat,
                   entries: seq<IndexEntry>)
    requires ScanOk(cat, w, current, names, next, entries) && next < |names|
    requires names[next] in w.dir && w.dir[names[next]].name == names[next] && cat(w.dir[names[next]]).Some?
    ensures ScanOk(cat, w, current, names, next + 1, entries + ScanEntries(cat(w.dir[names[next]]).value, names[next]))
  {
    var n := names[next];
    var pkg := cat(w.dir[n]).value;
    var more := ScanEntries(pkg, n);
    assert names[..next + 1] == names[..next] + [n];
    ScannedFile(pkg.packageId, pkg.claims, n);
    assert n !in names[..next] by {
      StringLessIrreflexive(n);
    }
    forall p | p in current && p !in w.torn && p.name in names[..next + 1]
      ensures Exact(cat, SubjectIndex(entries + more, current), p)
    {
      FilterConcat(InFile(p.name), entries, more);
      EntriesOfOneFile(more, n, p.name);
      if p.name == n {
        FilterNone(InFile(n), entries);
      } else {
        assert Exact(cat, SubjectIndex(entries, current), p);
        assert EntriesFor(entries, p.name) + [] == EntriesFor(entries, p.name);
      }
    }
  }

  lemma ScanEnds(cat: Catalog, w: World, current: seq<PackageStat>, names: seq<string>, next: nat,
                 entries: seq<IndexEntry>)
    requires ScanOk(cat, w, current, names, next, entries) && next >= |names| && StrictlySorted(ByName, current)
    ensures Sound(cat, SubjectIndex(entries, current), w.torn)
  {
    assert names[..next] == names;
  }

  lemma {:induction false} SeenIs(stats: seq<PackageStat>)
    ensures WellNamed(Seen(stats)) && forall n | n in Seen(stats) :: Seen(stats)[n] in stats
  {
    if stats != [] {
      SeenIs(stats[..|stats| - 1]);
    }
  }

  lemma WalkEnds(cat: Catalog, w: World, file: string, p: PackageStat, added: seq<IndexEntry>,
                 was: Option<SubjectIndex>, k: Walk)
    requires CallOk(cat, w, Walking(file, p, added, was, k))
    ensures Sound(cat, Updated(was, Seen(k.stats), file, added), w.torn)
  {
    var seen := Seen(k.stats);
    SeenIs(k.stats);
    var pkg := cat(p).value;
    ScannedFile(pkg.packageId, pkg.claims, file);
    UpdateStaysSound(cat, was, w.torn, seen, file, added);
  }

  predicate LookingUp(c: Call) {
    c.Stating? || c.Loading? || c.Globbing?
  }

  predicate Rebuilding(c: Call) {
    c.Scanning? || c.Saving?
  }

  lemma LookUpKeeps(cat: Catalog, w: World, t: nat, saveFails: bool)
    requires Inv(cat, w) && t in w.calls && LookingUp(w.calls[t])
    ensures Inv(cat, StepCall(cat, w, t, saveFails))
  {
    var c := w.calls[t];
    assert CallOk(cat, w, c);
    match c
    case Stating(k, since) =>
      if k.next < |k.names| {
        StatKeeps(w, k);
        CallKeeps(cat, w, t, Stating(StatNext(w, k), since));
      } else {
        assert k.names[..k.next] == k.names;
        CallKeeps(cat, w, t, Loading(k.stats, since));
      }
    case Loading(current, since) =>
      if w.stored.Some? && w.stored.value.packages == current {
        CallKeeps(cat, w, t, Read(w.stored.value, since));
      } else {
        CallKeeps(cat, w, t, Globbing(current, since));
      }
    case Globbing(current, since) =>
      ScanBegins(cat, w, current);
      CallKeeps(cat, w, t, Scanning(current, SortedNames(w.dir.Keys), 0, [], since));
  }

  lemma RebuildKeeps(cat: Catalog, w: World, t: nat, saveFails: bool)
    requires Inv(cat, w) && t in w.calls && Rebuilding(w.calls[t])
    ensures Inv(cat, StepCall(cat, w, t, saveFails))
  {
    var c := w.calls[t];
    assert CallOk(cat, w, c);
    match c
    case Scanning(current, names, next, entries, since) =>
      if next >= |names| {
        ScanEnds(cat, w, current, names, next, entries);
        CallKeeps(cat, w, t, Saving(SubjectIndex(entries, current), since));
      } else if names[next] !in w.dir || cat(w.dir[names[next]]).None? {
        CallKeeps(cat, w, t, ReadFailed);
      } else {
        ScanGoesOn(cat, w, current, names, next, entries);
        CallKeeps(cat, w, t, Scanning(current, names, next + 1,
                                           entries + ScanEntries(cat(w.dir[names[next]]).value, names[next]), since));
      }
    case Saving(idx, since) =>
      StoreKeeps(cat, w, idx);
      var w2 := if saveFails then w else w.(stored := Some(idx));
      SameWorld(cat, w, w2, Read(idx, since));
      CallKeeps(cat, w2, t, Read(idx, since));
  }

  lemma UpdateStepKeeps(cat: Catalog, w: World, t: nat, saveFails: bool)
    requires Inv(cat, w) && t in w.calls && !LookingUp(w.calls[t]) && !Rebuilding(w.calls[t])
    ensures Inv(cat, StepCall(cat, w, t, saveFails))
  {
    var c := w.calls[t];
    assert CallOk(cat, w, c);
    match c
    case Unpacked(f, p, added) => CallKeeps(cat, w, t, Loaded(f, p, added, w.stored));
    case Loaded(f, p, added, was) =>
      GlobOk(w);
      CallKeeps(cat, w, t, Walking(f, p, added, was, Glob(w)));
    case Walking(f, p, added, was, k) =>
      if k.next < |k.names| {
        StatKeeps(w, k);
        WalkedFile(cat, w, c);
        CallKeeps(cat, w, t, Walking(f, p, added, was, StatNext(w, k)));
      } else {
        WalkEnds(cat, w, f, p, added, was, k);
        CallKeeps(cat, w, t, Writing(Updated(was, Seen(k.stats), f, added)));
      }
    case Writing(idx) =>
      StoreKeeps(cat, w, idx);
      CallKeeps(cat, if saveFails then w else w.(stored := Some(idx)), t, Ended);
    case _ =>
  }

  lemma StepKeeps(cat: Catalog, w: World, t: nat, saveFails: bool)
    requires Inv(cat, w) && t in w.calls
    ensures Inv(cat, StepCall(cat, w, t, saveFails))
  {
    if LookingUp(w.calls[t]) {
      LookUpKeeps(cat, w, t, saveFails);
    } else if Rebuilding(w.calls[t]) {
      RebuildKeeps(cat, w, t, saveFails);
    } else {
      UpdateStepKeeps(cat, w, t, saveFails);
    }
  }

  lemma WalkedFile(cat: Catalog, w: World, c: Call)
    requires c.Walking? && CallOk(cat, w, c) && WellNamed(w.dir) && c.walk.next < |c.walk.names|
    ensures forall q | q in StatNext(w, c.walk).stats && q.name == c.file :: q == c.p
    ensures forall f | Between(Walking(c.file, c.p, c.added, c.was, StatNext(w, c.walk)), f) && f in w.dir ::
              w.dir[f] == c.p
  {
    var k := c.walk;
    var n := k.names[k.next];
    assert k.names[..k.next + 1] == k.names[..k.next] + [n];
    if n == c.file {
      assert c.file !in k.names[..k.next] by {
        StringLessIrreflexive(n);
      }
      assert Between(c, c.file);
    }
  }

  predicate Alike(pkg: Package) {
    forall c | c in pkg.claims :: NamedAlike(c)
  }

  lemma BeginUpdateKeeps(cat: Catalog, w: World, t: nat, f: string)
    requires Inv(cat, w) && Possible(cat, w, BeginUpdate(t, f)) && Alike(cat(w.dir[f]).value)
    ensures Inv(cat, Next(cat, w, BeginUpdate(t, f)))
  {
    var pkg := cat(w.dir[f]).value;
    IngestScansAlikeIff(pkg.packageId, pkg.claims, f);
    CallKeeps(cat, w, t, Unpacked(f, w.dir[f], IngestClaims(pkg.packageId, pkg.claims, f)));
  }

  /** The ingests of a run are of packages in `ingested`. */
  ghost predicate Ingests(w: World, a: Action, ingested: iset<PackageStat>) {
    a.BeginUpdate? ==> a.file in w.dir && w.dir[a.file] in ingested
  }

  ghost predicate AllAlike(cat: Catalog, ingested: iset<PackageStat>) {
    forall p | p in ingested && cat(p).Some? :: Alike(cat(p).value)
  }

  lemma NextKeeps(cat: Catalog, w: World, a: Action, ingested: iset<PackageStat>)
    requires Inv(cat, w) && Possible(cat, w, a) && Careful(w, a) && Ingests(w, a, ingested) && AllAlike(cat, ingested)
    ensures Inv(cat, Next(cat, w, a))
  {
    match a
    case Put(p) => PutChanges(cat, w, p); ChangeKeeps(cat, w, Next(cat, w, a));
    case Remove(n) => RemoveChanges(cat, w, n); ChangeKeeps(cat, w, Next(cat, w, a));
    case Lose =>
      forall q | q in w.calls ensures CallOk(cat, Next(cat, w, a), w.calls[q]) {
        SameWorld(cat, w, Next(cat, w, a), w.calls[q]);
      }
    case BeginRead(t) =>
      GlobOk(w);
      CallKeeps(cat, w, t, Stating(Glob(w), w.version));
    case BeginUpdate(t, f) => BeginUpdateKeeps(cat, w, t, f);
    case Step(t, saveFails) => StepKeeps(cat, w, t, saveFails);
    case Die(t) => CallKeeps(cat, w, t, Ended);
  }

  // ----- whole runs -----------------------------------------------------------------------------

  ghost predicate Init(w: World) {
    WellNamed(w.dir) && w.torn == {} && w.stored == None && w.calls == map[]
  }

  /** A run of careful changes that ingests only packages in `ingested`. */
  ghost predicate CarefulRun(cat: Catalog, ingested: iset<PackageStat>, w: World, actions: seq<Action>, w2: World)
    decreases |actions|
  {
    if actions == [] then w2 == w
    else
      && Possible(cat, w, actions[0]) && Careful(w, actions[0]) && Ingests(w, actions[0], ingested)
      && CarefulRun(cat, ingested, Next(cat, w, actions[0]), actions[1..], w2)
  }

  lemma {:induction false} InvAlongRun(cat: Catalog, ingested: iset<PackageStat>, w: World, actions: seq<Action>,
                                       w2: World)
    requires Inv(cat, w) && CarefulRun(cat, ingested, w, actions, w2) && AllAlike(cat, ingested)
    ensures Inv(cat, w2)
    decreases |actions|
  {
    if actions != [] {
      NextKeeps(cat, w, actions[0], ingested);
      InvAlongRun(cat, ingested, Next(cat, w, actions[0]), actions[1..], w2);
    }
  }

  /** An index that a read has returned, with the directory unchanged since the read began. */
  ghost predicate Current(w: World, t: nat) {
    t in w.calls && w.calls[t].Read? && w.calls[t].since == w.version
  }

  /** It lists for every package on disk exactly what a full scan of that package gives. */
  ghost predicate Agrees(cat: Catalog, w: World, t: nat)
    requires Current(w, t)
  {
    forall n | n in w.dir :: Exact(cat, w.calls[t].idx, w.dir[n])
  }

  /**
   Over any interleaving of adds, replacements, removals and returns of packages, ingest updates,
   index losses, rebuilds and crashes, done with care: what a read returns agrees with a scan.
   */
  lemma ReadAgreesWithScan(cat: Catalog, ingested: iset<PackageStat>, w0: World, actions: seq<Action>, w: World, t: nat)
    requires Init(w0) && CarefulRun(cat, ingested, w0, actions, w) && AllAlike(cat, ingested) && Current(w, t)
    ensures Agrees(cat, w, t)
  {
    InvAlongRun(cat, ingested, w0, actions, w);
    assert CallOk(cat, w, w.calls[t]);
    FreshIsExact(cat, w.dir, w.calls[t].idx, w.torn);
  }

  /** The stored index itself never certifies a wrong entry, whoever wrote it and whatever happened since. */
  lemma StoredIsSound(cat: Catalog, ingested: iset<PackageStat>, w0: World, actions: seq<Action>, w: World)
    requires Init(w0) && CarefulRun(cat, ingested, w0, actions, w) && AllAlike(cat, ingested) && w.stored.Some?
    ensures forall p | p in w.stored.value.packages && OnDisk(w.dir, p) :: Exact(cat, w.stored.value, p)
    ensures w.stored.value.packages == Listing(w.dir) ==> forall n | n in w.dir :: Exact(cat, w.stored.value, w.dir[n])
  {
    InvAlongRun(cat, ingested, w0, actions, w);
    if w.stored.value.packages == Listing(w.dir) {
      FreshIsExact(cat, w.dir, w.stored.value, w.torn);
    }
  }
}
