/**
 The writers of the store, one call at a time: event recording, ingest with insert-or-ignore, claim
 transitions, replay and backfill, on a database whose tables and log change in place. Clock
 readings and minted ids are parameters. Every writer keeps the log sufficient to rebuild the tables.
 */
module Databases {

  import opened Wrappers
  import opened Ordering
  import opened EventLog
  import opened Replay
  import opened Backfill
  import opened LiveStore
  import opened Hashing

  datatype RecordError = HalfTarget | Orphan

  datatype IngestError = ForeignDirectSource | InvalidState

  const DIRECT := "direct:"

  /** Direct input belongs to the user's own synthetic source; the namespace of others is refused. */
  function ResolveSource(userId: string, sourceId: Option<string>): Result<string, IngestError> {
    if sourceId.None? then Ok(DIRECT + userId)
    else if DIRECT <= sourceId.value && sourceId.value != DIRECT + userId then Err(ForeignDirectSource)
    else Ok(sourceId.value)
  }

  function MemoryCandidate(h: Hasher, id: string, userId: string, title: Option<string>, summary: Option<string>,
                           vaultPath: string, source: string, now: string): Row {
    Memory(id, userId, Some(source), vaultPath, title, summary,
           ContentHash(h, [title, summary, Some(vaultPath)]), Active, now, now)
  }

  function ClaimCandidate(h: Hasher, id: string, userId: string, subject: string, relation: string, target: string,
                          source: string, confidence: Option<real>, state: State, now: string): Row {
    Claim(id, userId, subject, relation, target, source,
          ContentHash(h, [Some(subject), Some(relation), Some(target), Some(source), Some(userId)]),
          confidence, state, now, now)
  }

  /** Where direct input of a user is said to come from. */
  function SourceOf(userId: string, sourceId: Option<string>): string {
    if sourceId == None then "direct:" + userId else sourceId.value
  }

  /** Only the direct source of another user is refused. */
  lemma ResolveIs(userId: string, sourceId: Option<string>)
    ensures var source := SourceOf(userId, sourceId);
            ResolveSource(userId, sourceId)
            == if "direct:" <= source && source != "direct:" + userId then Err(ForeignDirectSource) else Ok(source)
  {
  }

  /** A new memory: active, dated now, with the given texts, and a hash of title, summary and path. */
  ghost predicate NewMemory(h: Hasher, row: Row, id: string, userId: string, title: Option<string>,
                            summary: Option<string>, vaultPath: string, source: string, now: string) {
    && row.Memory? && row.id == id && row.userId == userId && row.source == Some(source)
    && row.title == title && row.summary == summary && row.vaultPath == vaultPath
    && row.contentHash == h.digest(Part(h, title) + "||" + Part(h, summary) + "||" + Part(h, Some(vaultPath)))
    && row.state == Active && row.createdAt == now && row.updatedAt == now
  }

  /** A new claim: in the given state, dated now, and a hash of subject, predicate, object, source and user. */
  ghost predicate NewClaim(h: Hasher, row: Row, id: string, userId: string, subject: string, relation: string,
                           target: string, source: string, confidence: Option<real>, state: State, now: string) {
    && row.Claim? && row.id == id && row.userId == userId && row.sourceId == source
    && row.subject == subject && row.relation == relation && row.target == target && row.confidence == confidence
    && row.contentHash == h.digest(Part(h, Some(subject)) + "||" + Part(h, Some(relation)) + "||"
                                   + Part(h, Some(target)) + "||" + Part(h, Some(source)) + "||"
                                   + Part(h, Some(userId)))
    && row.state == state && row.createdAt == now && row.updatedAt == now
  }

  lemma CandidatesAreNew(h: Hasher, id: string, userId: string, title: Option<string>, summary: Option<string>,
                         vaultPath: string, source: string, now: string)
    ensures NewMemory(h, MemoryCandidate(h, id, userId, title, summary, vaultPath, source, now),
                      id, userId, title, summary, vaultPath, source, now)
  {
    DigestOfThree(h, title, summary, Some(vaultPath));
  }

  lemma ClaimCandidatesAreNew(h: Hasher, id: string, userId: string, subject: string, relation: string, target: string,
                              source: string, confidence: Option<real>, state: State, now: string)
    ensures NewClaim(h, ClaimCandidate(h, id, userId, subject, relation, target, source, confidence, state, now),
                     id, userId, subject, relation, target, source, confidence, state, now)
  {
    DigestOfFive(h, Some(subject), Some(relation), Some(target), Some(source), Some(userId));
  }

  /** An event of that writer, naming its row. */
  predicate EventFor(e: Event, id: string, now: string, userId: string, eventType: EventType, kind: Kind,
                     rowId: string, payload: Payload) {
    && e.id == id && e.createdAt == now && e.userId == userId && e.eventType == eventType
    && e.targetKind == Some(kind) && e.targetId == Some(rowId) && e.payload == payload
  }

  /** What is logged for content that was there before. */
  lemma ReaffirmationIs(kind: Kind, userId: string, rowId: string, id: string, now: string)
    ensures EventFor(ReaffirmEvent(kind, userId, rowId, id, now), id, now, userId,
                     if kind == ClaimKind then ClaimReaffirmed else MemoryReaffirmed, kind, rowId, OtherPayload)
  {
  }

  function OfKind(refs: set<Ref>, k: Kind): set<Ref> {
    set r | r in refs && r.kind == k
  }

  lemma MissingOfKind(rows: Rows, log: seq<Event>, k: Kind)
    ensures OfKind(Missing(rows, log), k) == set r | r in rows && r.kind == k && !HasCreation(log, r)
  {
  }

  /** Counters of one replay. */
  datatype ReplaySummary = ReplaySummary(
    memoriesRebuilt: nat, claimsRebuilt: nat, memoryUpdates: nat, claimUpdates: nat,
                                         consumed: nat, skipped: nat, skippedTypes: set<EventType>)

  predicate RebuildsMemory(e: Event) {
    e.eventType.MemoryCreated? && CreatedRow(e).Some?
  }

  predicate RebuildsClaim(e: Event) {
    e.eventType.ClaimCreated? && CreatedRow(e).Some?
  }

  predicate UpdatesMemory(e: Event) {
    e.eventType.MemoryStateChanged? && ChangedRef(e).Some?
  }

  predicate UpdatesClaim(e: Event) {
    e.eventType.ClaimStateChanged? && ChangedRef(e).Some?
  }

  predicate Reaffirms(e: Event) {
    e.eventType.MemoryReaffirmed? || e.eventType.ClaimReaffirmed?
  }

  predicate Skips(e: Event) {
    CreatedRow(e).None? && ChangedRef(e).None? && !Reaffirms(e)
  }

  /** What replay reports of a log: every event counted once, under what it did. */
  ghost predicate Reports(s: ReplaySummary, es: seq<Event>) {
    && s.consumed == |es|
    && s.memoriesRebuilt == |Filter(RebuildsMemory, es)|
    && s.claimsRebuilt == |Filter(RebuildsClaim, es)|
    && s.memoryUpdates == |Filter(UpdatesMemory, es)|
    && s.claimUpdates == |Filter(UpdatesClaim, es)|
    && s.skipped == |Filter(Skips, es)|
    && SkippedIn(s.skippedTypes, es)
  }

  ghost predicate SkippedIn(types: set<EventType>, es: seq<Event>) {
    forall t :: t in types <==> exists e | e in es :: Skips(e) && e.eventType == t
  }

  function Skip(s: ReplaySummary, e: Event): ReplaySummary {
    s.(skipped := s.skipped + 1, skippedTypes := s.skippedTypes + {e.eventType})
  }

  lemma CountNext(p: Event -> bool, es: seq<Event>, e: Event)
    ensures |Filter(p, es + [e])| == |Filter(p, es)| + if p(e) then 1 else 0
  {
    FilterConcat(p, es, [e]);
    FilterOne(p, e);
  }

  /** The counters after one more event. */
  function Noted(s: ReplaySummary, e: Event): ReplaySummary {
    ReplaySummary(
      s.memoriesRebuilt + (if RebuildsMemory(e) then 1 else 0), s.claimsRebuilt + (if RebuildsClaim(e) then 1 else 0),
      s.memoryUpdates + (if UpdatesMemory(e) then 1 else 0), s.claimUpdates + (if UpdatesClaim(e) then 1 else 0),
      s.consumed + 1, s.skipped + (if Skips(e) then 1 else 0),
      s.skippedTypes + (if Skips(e) then {e.eventType} else {}))
  }

  lemma SkippedNext(types: set<EventType>, es: seq<Event>, e: Event)
    requires SkippedIn(types, es)
    ensures SkippedIn(types + (if Skips(e) then {e.eventType} else {}), es + [e])
  {
    assert forall x | x in es + [e] :: x in es || x == e;
    assert forall x | x in es :: x in es + [e];
    assert e in es + [e];
  }

  lemma ReportNext(s: ReplaySummary, es: seq<Event>, e: Event)
    requires Reports(s, es)
    ensures Reports(Noted(s, e), es + [e])
  {
    CountNext(RebuildsMemory, es, e);
    CountNext(RebuildsClaim, es, e);
    CountNext(UpdatesMemory, es, e);
    CountNext(UpdatesClaim, es, e);
    CountNext(Skips, es, e);
    SkippedNext(s.skippedTypes, es, e);
  }

  lemma ReplayStep(start: Rows, es: seq<Event>, i: nat, s: ReplaySummary)
    requires i < |es| && Reports(s, es[..i])
    ensures Reports(Noted(s, es[i]), es[..i + 1])
    ensures ReplayLog(start, es[..i + 1]) == ApplyEvent(ReplayLog(start, es[..i]), es[i])
  {
    assert es[..i + 1] == es[..i] + [es[i]];
    ReplayAppend(start, es[..i], es[i]);
    ReportNext(s, es[..i], es[i]);
  }

  /** Nothing is consumed without being counted: what is left over are the reaffirmations. */
  lemma EveryEventCounted(s: ReplaySummary, es: seq<Event>)
    requires Reports(s, es)
    ensures var reaffirmed := Filter((e: Event) => e.eventType in {MemoryReaffirmed, ClaimReaffirmed}, es);
            s.consumed == s.memoriesRebuilt + s.claimsRebuilt + s.memoryUpdates + s.claimUpdates + s.skipped
                          + |reaffirmed|
  {
    CountsAddUp(es);
    FilterAgree(Reaffirms, (e: Event) => e.eventType in {MemoryReaffirmed, ClaimReaffirmed}, es);
  }

  /** The event is a creation of that table with a whole row, or its change with a target and a new state. */
  predicate CarriesRow(e: Event, k: Kind) {
    && e.payload.RowPayload?
    && if k.MemoryKind? then e.eventType == MemoryCreated && e.payload.row.Memory?
       else e.eventType == ClaimCreated && e.payload.row.Claim?
  }

  predicate CarriesChange(e: Event, k: Kind) {
    && e.eventType == (if k.MemoryKind? then MemoryStateChanged else ClaimStateChanged)
    && e.targetId.Some? && e.targetId.value != "" && e.payload.ChangePayload? && e.payload.to.Some?
  }

  /** Each counter by what it counts. */
  lemma CountersAre(s: ReplaySummary, es: seq<Event>)
    requires Reports(s, es)
    ensures s.memoriesRebuilt == |Filter((e: Event) => CarriesRow(e, MemoryKind), es)|
    ensures s.claimsRebuilt == |Filter((e: Event) => CarriesRow(e, ClaimKind), es)|
    ensures s.memoryUpdates == |Filter((e: Event) => CarriesChange(e, MemoryKind), es)|
    ensures s.claimUpdates == |Filter((e: Event) => CarriesChange(e, ClaimKind), es)|
  {
    FilterAgree(RebuildsMemory, (e: Event) => CarriesRow(e, MemoryKind), es);
    FilterAgree(RebuildsClaim, (e: Event) => CarriesRow(e, ClaimKind), es);
    FilterAgree(UpdatesMemory, (e: Event) => CarriesChange(e, MemoryKind), es);
    FilterAgree(UpdatesClaim, (e: Event) => CarriesChange(e, ClaimKind), es);
  }

  predicate Creating(e: Event) {
    CreatedRow(e).Some?
  }

  predicate Changing(e: Event) {
    ChangedRef(e).Some?
  }

  predicate Touching(e: Event) {
    Creating(e) || Changing(e)
  }

  predicate Consumed(e: Event) {
    Touching(e) || Reaffirms(e)
  }

  predicate Any(e: Event) {
    true
  }

  lemma {:induction false} CountUnion(p: Event -> bool, q: Event -> bool, r: Event -> bool, es: seq<Event>)
    requires forall e | e in es :: (r(e) <==> p(e) || q(e)) && !(p(e) && q(e))
    ensures |Filter(r, es)| == |Filter(p, es)| + |Filter(q, es)|
  {
    if es != [] {
      CountUnion(p, q, r, es[1..]);
    }
  }

  lemma CountsAddUp(es: seq<Event>)
    ensures |es| == |Filter(RebuildsMemory, es)| + |Filter(RebuildsClaim, es)| + |Filter(UpdatesMemory, es)|
                    + |Filter(UpdatesClaim, es)| + |Filter(Skips, es)| + |Filter(Reaffirms, es)|
  {
    CountUnion(RebuildsMemory, RebuildsClaim, Creating, es);
    CountUnion(UpdatesMemory, UpdatesClaim, Changing, es);
    CountUnion(Creating, Changing, Touching, es);
    CountUnion(Touching, Reaffirms, Consumed, es);
    CountUnion(Consumed, Skips, Any, es);
    FilterAll(Any, es);
  }

  /** `ids` are the first ids that `mint` gave out. */
  ghost predicate Minted(ids: seq<string>, mint: nat -> string) {
    forall i | 0 <= i < |ids| :: ids[i] == mint(i)
  }

  ghost predicate NeverTwice(mint: nat -> string) {
    forall i: nat, j: nat | mint(i) == mint(j) :: i == j
  }

  lemma MintedIds(log: seq<Event>, mint: nat -> string, ids: seq<string>)
    requires NeverTwice(mint) && Minted(ids, mint)
    requires forall e, i: nat | e in log :: e.id != mint(i)
    ensures FreshIds(log, ids)
  {
  }

  lemma MintNext(refs: seq<Ref>, ids: seq<string>, mint: nat -> string, r: Ref)
    requires NoRepeats(refs) && r !in refs && Minted(ids, mint)
    ensures NoRepeats(refs + [r]) && Minted(ids + [mint(|ids|)], mint)
    ensures forall q :: q in refs + [r] <==> q in refs || q == r
  {
  }

  lemma AddedNext(rows: Rows, refs: seq<Ref>, ids: seq<string>, r: Ref, id: string)
    requires |refs| == |ids| && r in rows && forall q | q in refs :: q in rows
    ensures forall q | q in refs + [r] :: q in rows
    ensures Added(rows, refs + [r], ids + [id]) == Added(rows, refs, ids) + [Synthesized(rows[r], id)]
  {
    var n := |refs|;
    assert (refs + [r])[..n] == refs && (ids + [id])[..n] == ids;
  }

  class Database {
    var rows: Rows
    var log: seq<Event>

    /** An empty, schema-only database. */
    constructor ()
      ensures rows == map[] && log == [] && Live(rows, log)
    {
      rows, log := map[], [];
    }

    /** Appends one event; a target that is named must exist and belong to the writing user. */
    method RecordEvent(userId: string, eventType: EventType, targetKind: Option<Kind>, targetId: Option<string>,
                       payload: Payload, eventId: string, now: string) returns (r: Result<string, RecordError>)
      modifies this`log
      ensures r == (if targetKind.Some? != targetId.Some? then Err(HalfTarget)
                    else if targetKind.Some? && targetId.value != ""
                            && (Ref(targetKind.value, targetId.value) !in rows
                                || rows[Ref(targetKind.value, targetId.value)].userId != userId) then Err(Orphan)
                    else Ok(eventId))
      ensures log == if r.Ok? then old(log) + [Event(eventId, now, userId, eventType, targetKind, targetId, payload)]
                     else old(log)
    {
      if targetKind.None? != targetId.None? {
        return Err(HalfTarget);
      }
      if targetKind.Some? && targetId.Some? && targetId.value != "" {
        var target := Ref(targetKind.value, targetId.value);
        if !(target in rows && rows[target].userId == userId) {
          return Err(Orphan);
        }
      }
      log := log + [Event(eventId, now, userId, eventType, targetKind, targetId, payload)];
      r := Ok(eventId);
    }

    method InsertRow(row: Row)
      modifies this`rows
      ensures rows == InsertOrIgnore(old(rows), row)
    {
      if !Conflicts(rows, row) {
        rows := rows[RefOf(row) := row];
      }
    }

    /**
     The caller gets the id of the row that holds the key, its own candidate only when the key was
     free; a first write logs its row, a repeated one a reaffirmation and changes no row.
     */
    method IngestMemory(h: Hasher, userId: string, title: Option<string>, summary: Option<string>, vaultPath: string,
                        sourceId: Option<string>, newId: string, now: string, eventId: string, eventTime: string)
      returns (r: Result<(string, bool), IngestError>)
      requires WellKeyed(rows) && newId != "" && Ref(MemoryKind, newId) !in rows && NewId(log, eventId)
      modifies this
      ensures r.Err? <==> ResolveSource(userId, sourceId).Err?
      ensures r.Err? ==> r.error == ResolveSource(userId, sourceId).error && rows == old(rows) && log == old(log)
      ensures r.Ok? ==>
                var c := MemoryCandidate(h, newId, userId, title, summary, vaultPath,
                                          ResolveSource(userId, sourceId).value, now);
                var (id, deduped) := r.value;
                && Ref(MemoryKind, id) in rows && KeyOf(rows[Ref(MemoryKind, id)]) == KeyOf(c)
                && deduped == HoldsKey(old(rows), KeyOf(c))
                && (deduped ==>
                      && rows == old(rows)
                      && log == old(log) + [ReaffirmEvent(MemoryKind, userId, id, eventId, eventTime)])
                && (!deduped ==> id == newId && rows == old(rows)[Ref(MemoryKind, newId) := c]
                                 && log == old(log) + [CreationEvent(c, eventId, eventTime)])
      ensures var source := SourceOf(userId, sourceId);
              && (r == Err(ForeignDirectSource) <==> "direct:" <= source && source != "direct:" + userId)
              && (r.Ok? ==>
                    var (id, deduped) := r.value;
                    && (deduped || NewMemory(h, rows[Ref(MemoryKind, id)], newId, userId, title, summary, vaultPath,
                                             source, now))
                    && |log| == |old(log)| + 1
                    && EventFor(log[|log| - 1], eventId, eventTime, userId,
                                if deduped then MemoryReaffirmed else MemoryCreated, MemoryKind, id,
                                if deduped then OtherPayload else RowPayload(rows[Ref(MemoryKind, id)])))
      ensures WellKeyed(rows)
      ensures old(Live(rows, log)) ==> Live(rows, log)
    {
      ResolveIs(userId, sourceId);
      CandidatesAreNew(h, newId, userId, title, summary, vaultPath, SourceOf(userId, sourceId), now);
      var source := ResolveSource(userId, sourceId);
      if source.Err? {
        return Err(source.error);
      }
      var candidate := MemoryCandidate(h, newId, userId, title, summary, vaultPath, source.value, now);
      ghost var before := rows;
      InsertRow(candidate);
      assert HoldsKey(rows, KeyOf(candidate)) by {
        if !Conflicts(before, candidate) {
          assert KeyOf(rows[RefOf(candidate)]) == KeyOf(candidate);
        }
      }
      var persisted :| persisted in rows && KeyOf(rows[persisted]) == KeyOf(candidate);
      var deduped := persisted.id != newId;
      if deduped {
        var e := RecordEvent(userId, MemoryReaffirmed, Some(MemoryKind), Some(persisted.id),
                             OtherPayload, eventId, eventTime);
        if old(Live(rows, log)) { LiveAfterOther(rows, old(log), log[|log| - 1]); }
      } else {
        var e := RecordEvent(userId, MemoryCreated, Some(MemoryKind), Some(persisted.id),
                             RowPayload(candidate), eventId, eventTime);
        if old(Live(rows, log)) { LiveAfterCreation(before, old(log), candidate, eventId, eventTime); }
      }
      r := Ok((persisted.id, deduped));
    }

    /** As for memories, keyed by hash, source and user; a repeated claim logs nothing. */
    method IngestClaim(h: Hasher, userId: string, subject: string, relation: string, target: string,
                       sourceId: Option<string>, confidence: Option<real>, state: State, newId: string, now: string,
                       eventId: string, eventTime: string)
      returns (r: Result<(string, bool), IngestError>)
      requires WellKeyed(rows) && newId != "" && Ref(ClaimKind, newId) !in rows && NewId(log, eventId)
      modifies this
      ensures r.Err? <==> !ClaimState(state) || ResolveSource(userId, sourceId).Err?
      ensures r.Err? ==> r.error == (if !ClaimState(state) then InvalidState else ForeignDirectSource)
      ensures r.Err? ==> rows == old(rows) && log == old(log)
      ensures r.Ok? ==>
                var c := ClaimCandidate(h, newId, userId, subject, relation, target,
                                        ResolveSource(userId, sourceId).value,
                                        confidence, state, now);
                var (id, deduped) := r.value;
                && Ref(ClaimKind, id) in rows && KeyOf(rows[Ref(ClaimKind, id)]) == KeyOf(c)
                && deduped == HoldsKey(old(rows), KeyOf(c))
                && (deduped ==> rows == old(rows) && log == old(log))
                && (!deduped ==> id == newId && rows == old(rows)[Ref(ClaimKind, newId) := c]
                                 && log == old(log) + [CreationEvent(c, eventId, eventTime)])
      ensures var source := SourceOf(userId, sourceId);
              && (r == Err(InvalidState) <==> Standing(state) == None)
              && (r == Err(ForeignDirectSource) <==>
                    Standing(state) != None && "direct:" <= source && source != "direct:" + userId)
              && (r.Ok? ==>
                    var (id, deduped) := r.value;
                    if deduped then log == old(log)
                    else
                      && NewClaim(h, rows[Ref(ClaimKind, id)], newId, userId, subject, relation, target, source,
                                  confidence, state, now)
                      && |log| == |old(log)| + 1
                      && EventFor(log[|log| - 1], eventId, eventTime, userId, ClaimCreated, ClaimKind, id,
                                  RowPayload(rows[Ref(ClaimKind, id)])))
      ensures WellKeyed(rows)
      ensures old(Live(rows, log)) ==> Live(rows, log)
    {
      ResolveIs(userId, sourceId);
      AllowedIsOnward(state, state);
      ClaimCandidatesAreNew(h, newId, userId, subject, relation, target, SourceOf(userId, sourceId), confidence,
                            state, now);
      if !ClaimState(state) {
        return Err(InvalidState);
      }
      var source := ResolveSource(userId, sourceId);
      if source.Err? {
        return Err(source.error);
      }
      var candidate := ClaimCandidate(h, newId, userId, subject, relation, target, source.value,
                                      confidence, state, now);
      ghost var before := rows;
      InsertRow(candidate);
      assert HoldsKey(rows, KeyOf(candidate)) by {
        if !Conflicts(before, candidate) {
          assert KeyOf(rows[RefOf(candidate)]) == KeyOf(candidate);
        }
      }
      var persisted :| persisted in rows && KeyOf(rows[persisted]) == KeyOf(candidate);
      var deduped := persisted.id != newId;
      if !deduped {
        var e := RecordEvent(userId, ClaimCreated, Some(ClaimKind), Some(persisted.id),
                             RowPayload(candidate), eventId, eventTime);
        if old(Live(rows, log)) { LiveAfterCreation(before, old(log), candidate, eventId, eventTime); }
      }
      r := Ok((persisted.id, deduped));
    }

    /** Read, judge, compare-and-set with its event; an error changes nothing. */
    method TransitionClaimState(claimId: string, to: State, expectedUser: Option<string>,
                                updatedAt: string, eventId: string, eventTime: string)
      returns (r: Result<string, TransitionError>)
      requires WellKeyed(rows) && NewId(log, eventId)
      modifies this
      ensures var v := Verdict(old(rows), claimId, to, expectedUser);
              && r == (if v.Ok? then Ok(eventId) else Err(v.error))
              && (v.Err? ==> rows == old(rows) && log == old(log))
              && (v.Ok? ==> var row := old(rows)[Ref(ClaimKind, claimId)];
                            && rows == old(rows)[Ref(ClaimKind, claimId) := Moved(row, to, Some(updatedAt))]
                            && log == old(log) + [ChangeEvent(row, row.state, to, updatedAt, eventId, eventTime)])
      ensures var claim := Ref(ClaimKind, claimId);
              && (r.Ok? <==>
                    && claim in old(rows)
                    && (expectedUser == None || expectedUser == Some(old(rows)[claim].userId))
                    && Onward(old(rows)[claim].state, to))
              && (r.Ok? ==> claim in rows && rows[claim].state == to && rows[claim].updatedAt == updatedAt)
      ensures r.Ok? ==>
                && |log| == |old(log)| + 1
                && var row := old(rows)[Ref(ClaimKind, claimId)];
                   EventFor(log[|log| - 1], eventId, eventTime, row.userId, ClaimStateChanged, ClaimKind, row.id,
                            ChangePayload(Some(row.state), Some(to), Some(updatedAt)))
      ensures old(Live(rows, log)) ==> Live(rows, log)
    {
      VerdictIs(rows, claimId, to, expectedUser);
      var target := Ref(ClaimKind, claimId);
      if target !in rows {
        return Err(ClaimNotFound);
      }
      var row := rows[target];
      if expectedUser.Some? && row.userId != expectedUser.value {
        return Err(OtherUser);
      }
      if !ClaimState(row.state) {
        return Err(UnknownState);
      }
      if !AllowedClaim(row.state, to) {
        return Err(NotAllowed);
      }
      rows := rows[target := Moved(row, to, Some(updatedAt))];
      var e := RecordEvent(row.userId, ClaimStateChanged, Some(ClaimKind), Some(claimId),
                           ChangePayload(Some(row.state), Some(to), Some(updatedAt)), eventId, eventTime);
      if old(Live(rows, log)) {
        LiveAfterChange(old(rows), old(log), target, row.state, to, updatedAt, eventId, eventTime);
      }
      r := Ok(eventId);
    }

    /** Dispatch of one event: what it does to the tables, and under which counter it goes. */
    method Apply(e: Event, s: ReplaySummary) returns (t: ReplaySummary)
      modifies this`rows
      ensures rows == ApplyEvent(old(rows), e)
      ensures t == Noted(s, e)
    {
      t := s.(consumed := s.consumed + 1);
      match e.eventType {
        case MemoryCreated =>
          if e.payload.RowPayload? && e.payload.row.Memory? {
            InsertRow(e.payload.row);
            t := t.(memoriesRebuilt := t.memoriesRebuilt + 1);
          } else {
            t := Skip(t, e);
          }
        case ClaimCreated =>
          if e.payload.RowPayload? && e.payload.row.Claim? {
            InsertRow(e.payload.row);
            t := t.(claimsRebuilt := t.claimsRebuilt + 1);
          } else {
            t := Skip(t, e);
          }
        case ClaimStateChanged =>
          if ChangedRef(e).Some? {
            rows := UpdateState(rows, ChangedRef(e).value, e.payload.to.value, e.payload.updatedAt);
            t := t.(claimUpdates := t.claimUpdates + 1);
          } else {
            t := Skip(t, e);
          }
        case MemoryStateChanged =>
          if ChangedRef(e).Some? {
            rows := UpdateState(rows, ChangedRef(e).value, e.payload.to.value, e.payload.updatedAt);
            t := t.(memoryUpdates := t.memoryUpdates + 1);
          } else {
            t := Skip(t, e);
          }
        case MemoryReaffirmed =>
        case ClaimReaffirmed =>
        case OtherType(_) =>
          t := Skip(t, e);
      }
    }

    /** Reads this database's log in order and applies it to the tables of `into`, possibly this one. */
    method ReplayEvents(into: Database) returns (s: ReplaySummary)
      modifies into`rows
      ensures into.rows == ReplayLog(old(into.rows), InOrder(log))
      ensures Reports(s, InOrder(log))
    {
      var events := InOrder(log);
      s := ReplaySummary(0, 0, 0, 0, 0, 0, {});
      var i := 0;
      assert events[..0] == [];
      while i < |events|
        invariant 0 <= i <= |events|
        invariant into.rows == ReplayLog(old(into.rows), events[..i])
        invariant Reports(s, events[..i])
      {
        ReplayStep(old(into.rows), events, i, s);
        s := into.Apply(events[i], s);
        i := i + 1;
      }
      assert events[..i] == events;
    }

    /** One synthesized creation for every row that has none, memories first; the tables do not change. */
    method BackfillCreationEvents(mint: nat -> string) returns (memories: nat, claims: nat)
      requires WellKeyed(rows)
      requires NeverTwice(mint)
      requires forall e, i: nat | e in log :: e.id != mint(i)
      modifies this`log
      ensures IsBackfill(rows, old(log), log)
      ensures memories == |set r | r in rows && r.kind == MemoryKind && !HasCreation(old(log), r)|
      ensures claims == |set r | r in rows && r.kind == ClaimKind && !HasCreation(old(log), r)|
    {
      var missing := Missing(rows, log);
      MissingOfKind(rows, log, MemoryKind);
      MissingOfKind(rows, log, ClaimKind);
      ghost var refs: seq<Ref>, ids: seq<string> := [], [];
      var next := 0;
      memories, next, refs, ids := BackfillKind(OfKind(missing, MemoryKind), mint, next, old(log), refs, ids);
      claims, next, refs, ids := BackfillKind(OfKind(missing, ClaimKind), mint, next, old(log), refs, ids);
      MintedIds(old(log), mint, ids);
      assert BackfillBy(rows, old(log), log, refs, ids);
    }

    /** Appends the synthesized creations of one table's rows. */
    method BackfillKind(todo: set<Ref>, mint: nat -> string, start: nat,
                        ghost base: seq<Event>, ghost done: seq<Ref>, ghost used: seq<string>)
      returns (count: nat, next: nat, ghost refs: seq<Ref>, ghost ids: seq<string>)
      requires |done| == |used| == start && NoRepeats(done) && Minted(used, mint)
      requires forall r | r in todo :: r in rows && r !in done
      requires forall r | r in done :: r in rows
      requires log == base + Added(rows, done, used)
      modifies this`log
      ensures count == |todo| && next == start + count == |refs| == |ids| && NoRepeats(refs) && Minted(ids, mint)
      ensures forall r :: r in refs <==> r in done || r in todo
      ensures log == base + Added(rows, refs, ids)
    {
      var left := todo;
      count, next, refs, ids := 0, start, done, used;
      while left != {}
        invariant left <= todo && count + |left| == |todo|
        invariant next == start + count == |refs| == |ids| && NoRepeats(refs) && Minted(ids, mint)
        invariant forall r :: r in refs <==> r in done || (r in todo && r !in left)
        invariant log == base + Added(rows, refs, ids)
        decreases |left|
      {
        var r :| r in left;
        AddedNext(rows, refs, ids, r, mint(next));
        MintNext(refs, ids, mint, r);
        log := log + [Synthesized(rows[r], mint(next))];
        refs, ids := refs + [r], ids + [mint(next)];
        left := left - {r};
        count, next := count + 1, next + 1;
      }
    }
  }
}
