/**
 `by_file`: one query, two plans.  With the trigram index and a path of three characters or more the
 rows come from a user-scoped MATCH joined back to the events; otherwise from a LIKE scan.  Both are
 compared with the reference: the user's own file events whose payload contains the path.
 */
module FileSearch {
  import opened Wrappers
  import opened TextMatch

  datatype Event = Event(eventId: nat, userId: string, eventType: string, payload: string)

  const TRIGRAM_MIN_CHARS := 3

  predicate IsFileEvent(eventType: string) {
    eventType == "tool.edit" || eventType == "tool.write" || eventType == "file.edit"
  }

  /** The reference. */
  ghost predicate Refers(f: Fold, e: Event, userId: string, path: string) {
    e.userId == userId && IsFileEvent(e.eventType) && Contains(Folded(f, e.payload), Folded(f, path))
  }

  predicate LikeSelects(f: Fold, e: Event, userId: string, path: string) {
    e.userId == userId && IsFileEvent(e.eventType) && Like(f, "%" + LikeEscape(path) + "%", e.payload)
  }

  /** MATCH against the index row the insert trigger stored for this event. */
  ghost predicate IndexMatches(f: Fold, e: Event, pattern: string) {
    match ParseScoped(pattern)
    case None => false
    case Some((tag, text)) => PhraseMatches(f, FtsUserTag(e.userId), tag) && PhraseMatches(f, e.payload, text)
  }

  ghost predicate FtsSelects(f: Fold, e: Event, userId: string, path: string) {
    && e.userId == userId
    && IsFileEvent(e.eventType)
    && IndexMatches(f, e, FtsScopedMatch(userId, FtsPhrase(path)))
  }

  /** Which rows `by_file` selects, before ordering and limit. */
  ghost predicate Selects(likeFold: Fold, ftsFold: Fold, ftsAvailable: bool, e: Event, userId: string, path: string) {
    path != "" &&
    if |path| >= TRIGRAM_MIN_CHARS && ftsAvailable then FtsSelects(ftsFold, e, userId, path)
    else LikeSelects(likeFold, e, userId, path)
  }

  lemma LikeSelectsExactly(f: Fold, e: Event, userId: string, path: string)
    ensures LikeSelects(f, e, userId, path) <==> Refers(f, e, userId, path)
  {
    LikeIsSubstring(f, path, e.payload);
  }

  lemma ContainsSelf(s: string)
    ensures Contains(s, s)
  {
    assert s[0..|s|] == s;
    assert OccursAt(s, s, 0);
  }

  lemma TagMatchesOwn(f: Fold, userId: string)
    ensures PhraseMatches(f, FtsUserTag(userId), FtsUserTag(userId)) <==> userId != ""
  {
    var tag := FtsUserTag(userId);
    if userId != "" {
      PhraseIsSubstring(f, tag, tag);
      ContainsSelf(Folded(f, tag));
    } else {
      ShortPhraseMatchesNothing(f, tag, tag);
    }
  }

  /**
   From three characters on the indexed branch selects exactly the reference rows, for every path,
   quotes and wildcards included, and every user id but the empty one, whose tag has no trigram.
   */
  lemma FtsSelectsExactly(f: Fold, e: Event, userId: string, path: string)
    requires |path| >= TRIGRAM_MIN_CHARS
    ensures FtsSelects(f, e, userId, path) <==> userId != "" && Refers(f, e, userId, path)
  {
    ScopedMatchRoundTrip(userId, path);
    TagMatchesOwn(f, userId);
    PhraseIsSubstring(f, e.payload, path);
  }

  /** `by_file` with either plan, when both engines fold alike. */
  lemma ByFileExact(f: Fold, ftsAvailable: bool, e: Event, userId: string, path: string)
    requires userId != ""
    ensures Selects(f, f, ftsAvailable, e, userId, path) <==> path != "" && Refers(f, e, userId, path)
  {
    LikeSelectsExactly(f, e, userId, path);
    if |path| >= TRIGRAM_MIN_CHARS {
      FtsSelectsExactly(f, e, userId, path);
    }
  }

  // ----- when the engines fold differently -------------------------------------------------------------

  /** Two foldings identify the same characters with the characters of `part`. */
  ghost predicate FoldAlike(f: Fold, g: Fold, part: string) {
    forall i, d: char | 0 <= i < |part| :: f(d) == f(part[i]) <==> g(d) == g(part[i])
  }

  lemma OccursFoldAlike(f: Fold, g: Fold, text: string, part: string, k: int)
    requires forall i, j | 0 <= i < |part| && 0 <= j < |text| :: f(text[j]) == f(part[i]) <==> g(text[j]) == g(part[i])
    requires OccursAt(Folded(f, text), Folded(f, part), k)
    ensures OccursAt(Folded(g, text), Folded(g, part), k)
  {
    forall i | 0 <= i < |part| ensures Folded(g, text)[k + i] == Folded(g, part)[i] {
      assert Folded(f, text)[k..k + |part|][i] == Folded(f, part)[i];
    }
    assert Folded(g, text)[k..k + |part|] == Folded(g, part);
  }

  lemma ContainsFoldAlike(f: Fold, g: Fold, text: string, part: string)
    requires forall i, j | 0 <= i < |part| && 0 <= j < |text| :: f(text[j]) == f(part[i]) <==> g(text[j]) == g(part[i])
    ensures Contains(Folded(f, text), Folded(f, part)) <==> Contains(Folded(g, text), Folded(g, part))
  {
    if Contains(Folded(f, text), Folded(f, part)) {
      var k :| OccursAt(Folded(f, text), Folded(f, part), k);
      OccursFoldAlike(f, g, text, part, k);
    }
    if Contains(Folded(g, text), Folded(g, part)) {
      var k :| OccursAt(Folded(g, text), Folded(g, part), k);
      OccursFoldAlike(g, f, text, part, k);
    }
  }

  ghost predicate BranchesAgree(likeFold: Fold, ftsFold: Fold, userId: string, path: string) {
    forall e: Event :: LikeSelects(likeFold, e, userId, path) <==> FtsSelects(ftsFold, e, userId, path)
  }

  lemma SameLengthContains(f: Fold, text: string, part: string)
    requires |text| == |part|
    ensures Contains(Folded(f, text), Folded(f, part)) <==> Folded(f, text) == Folded(f, part)
  {
    var t, p := Folded(f, text), Folded(f, part);
    assert t[0..|t|] == t;
    assert forall k :: OccursAt(t, p, k) ==> k == 0;
    assert OccursAt(t, p, 0) <==> t == p;
  }

  /** One character of the path on which the foldings differ gives a payload the branches disagree on. */
  lemma FoldGapShows(f: Fold, g: Fold, userId: string, path: string, i: nat, d: char)
    returns (e: Event)
    requires i < |path| && |path| >= TRIGRAM_MIN_CHARS && userId != ""
    requires f(d) == f(path[i]) <==> g(d) != g(path[i])
    ensures LikeSelects(f, e, userId, path) <==> !FtsSelects(g, e, userId, path)
  {
    var payload := path[i := d];
    e := Event(0, userId, "file.edit", payload);
    LikeSelectsExactly(f, e, userId, path);
    FtsSelectsExactly(g, e, userId, path);
    SameLengthContains(f, payload, path);
    SameLengthContains(g, payload, path);
    EqualButOne(f, path, i, d);
    EqualButOne(g, path, i, d);
  }

  lemma EqualButOne(f: Fold, path: string, i: nat, d: char)
    requires i < |path|
    ensures Folded(f, path[i := d]) == Folded(f, path) <==> f(d) == f(path[i])
  {
    assert Folded(f, path[i := d])[i] == f(d) && Folded(f, path)[i] == f(path[i]);
  }

  lemma AgreeWhenFoldAlike(likeFold: Fold, ftsFold: Fold, e: Event, userId: string, path: string)
    requires |path| >= TRIGRAM_MIN_CHARS && userId != "" && FoldAlike(likeFold, ftsFold, path)
    ensures LikeSelects(likeFold, e, userId, path) <==> FtsSelects(ftsFold, e, userId, path)
  {
    LikeSelectsExactly(likeFold, e, userId, path);
    FtsSelectsExactly(ftsFold, e, userId, path);
    ContainsFoldAlike(likeFold, ftsFold, e.payload, path);
  }

  /** The two plans select the same rows exactly when no character of the path is folded differently. */
  lemma BranchesAgreeIff(likeFold: Fold, ftsFold: Fold, userId: string, path: string)
    requires |path| >= TRIGRAM_MIN_CHARS && userId != ""
    ensures BranchesAgree(likeFold, ftsFold, userId, path) <==> FoldAlike(likeFold, ftsFold, path)
  {
    if FoldAlike(likeFold, ftsFold, path) {
      forall e: Event ensures LikeSelects(likeFold, e, userId, path) <==> FtsSelects(ftsFold, e, userId, path) {
        AgreeWhenFoldAlike(likeFold, ftsFold, e, userId, path);
      }
    } else {
      var i, d := FoldGap(likeFold, ftsFold, path);
      var e := FoldGapShows(likeFold, ftsFold, userId, path, i, d);
    }
  }

  lemma FoldGap(f: Fold, g: Fold, path: string) returns (i: nat, d: char)
    requires !FoldAlike(f, g, path)
    ensures i < |path| && (f(d) == f(path[i]) <==> g(d) != g(path[i]))
  {
    i, d :| 0 <= i < |path| && !(f(d) == f(path[i]) <==> g(d) == g(path[i]));
  }

  predicate Ascii(s: string) {
    forall i | 0 <= i < |s| :: s[i] as int < 128
  }

  /**
   Payloads written by `record_event` are ASCII, since its JSON escapes everything else; for an
   ASCII path both plans then agree as soon as the foldings agree on ASCII.
   */
  lemma AsciiRowsAgree(likeFold: Fold, ftsFold: Fold, e: Event, userId: string, path: string)
    requires |path| >= TRIGRAM_MIN_CHARS && userId != "" && Ascii(path) && Ascii(e.payload)
    requires forall c: char | c as int < 128 :: likeFold(c) == ftsFold(c)
    ensures LikeSelects(likeFold, e, userId, path) <==> FtsSelects(ftsFold, e, userId, path)
  {
    LikeSelectsExactly(likeFold, e, userId, path);
    FtsSelectsExactly(ftsFold, e, userId, path);
    ContainsFoldAlike(likeFold, ftsFold, e.payload, path);
  }

  // ----- tenant isolation inside the index -----------------------------------------------------------------

  /** The sentinel occurs in neither id and folds to nothing else. */
  ghost predicate Clean(f: Fold, userId: string) {
    forall i | 0 <= i < |userId| :: f(userId[i]) != f(SENTINEL)
  }

  /**
   The tag filter alone already scopes the match to one user, up to case: ids free of the sentinel
   match exactly when they fold alike, so a prefix or substring of an id never leaks.
   */
  lemma TagScopesToUser(f: Fold, rowUser: string, userId: string)
    requires userId != "" && Clean(f, rowUser)
    ensures PhraseMatches(f, FtsUserTag(rowUser), FtsUserTag(userId)) <==> Folded(f, rowUser) == Folded(f, userId)
  {
    var t, p := Folded(f, FtsUserTag(rowUser)), Folded(f, FtsUserTag(userId));
    PhraseIsSubstring(f, FtsUserTag(rowUser), FtsUserTag(userId));
    assert t[1..|t| - 1] == Folded(f, rowUser) && p[1..|p| - 1] == Folded(f, userId);
    if Contains(t, p) {
      var k :| OccursAt(t, p, k);
      assert t[k..k + |p|][0] == p[0] == f(SENTINEL);
      assert t[k..k + |p|][|p| - 1] == p[|p| - 1] == f(SENTINEL);
      assert k == 0 && |p| == |t|;
      assert t[0..|p|] == t;
    }
    if Folded(f, rowUser) == Folded(f, userId) {
      assert t == p;
      ContainsSelf(t);
    }
  }

  /** Why the sentinel must not occur in ids: such a row would match another user's tag in the index. */
  lemma SentinelLeaks(f: Fold, userId: string, other: string)
    requires userId != ""
    ensures PhraseMatches(f, FtsUserTag(userId + [SENTINEL] + other), FtsUserTag(userId))
  {
    var row := FtsUserTag(userId + [SENTINEL] + other);
    var t, p := Folded(f, row), Folded(f, FtsUserTag(userId));
    PhraseIsSubstring(f, row, FtsUserTag(userId));
    assert t[0..|p|] == p;
    assert OccursAt(t, p, 0);
  }

  ghost predicate TagSelects(f: Fold, rowUser: string, userId: string) {
    PhraseMatches(f, FtsUserTag(rowUser), FtsUserTag(userId))
  }

  /** An id with a sentinel inside matches the tag of the part before it, or of the part after it. */
  lemma DirtyRowLeaks(f: Fold, rowUser: string) returns (userId: string)
    requires !Clean(f, rowUser) && |rowUser| > 1
    ensures userId != "" && TagSelects(f, rowUser, userId) && Folded(f, rowUser) != Folded(f, userId)
  {
    var i :| 0 <= i < |rowUser| && f(rowUser[i]) == f(SENTINEL);
    var k := if i > 0 then 0 else 1;
    userId := if i > 0 then rowUser[..i] else rowUser[1..];
    var t, p := Folded(f, FtsUserTag(rowUser)), Folded(f, FtsUserTag(userId));
    PhraseIsSubstring(f, FtsUserTag(rowUser), FtsUserTag(userId));
    forall j | 0 <= j < |p| ensures t[k + j] == p[j] {
      assert i > 0 && j > i ==> p[j] == f(SENTINEL) && t[j] == f(rowUser[i]);
    }
    assert t[k..k + |p|] == p;
    assert OccursAt(t, p, k);
    assert |userId| < |rowUser|;
  }

  /** An id that is nothing but a sentinel has a tag too short to hold any other. */
  lemma OneCharacterRow(f: Fold, rowUser: string, userId: string)
    requires |rowUser| == 1 && userId != ""
    ensures TagSelects(f, rowUser, userId) <==> Folded(f, rowUser) == Folded(f, userId)
  {
    var t, p := Folded(f, FtsUserTag(rowUser)), Folded(f, FtsUserTag(userId));
    PhraseIsSubstring(f, FtsUserTag(rowUser), FtsUserTag(userId));
    assert t[1..2] == Folded(f, rowUser) && p[1..|p| - 1] == Folded(f, userId);
    if |userId| == 1 {
      SameLengthContains(f, FtsUserTag(rowUser), FtsUserTag(userId));
      assert t == [t[0]] + t[1..2] + [t[2]] && p == [p[0]] + p[1..2] + [p[2]];
    } else {
      assert |p| > |t| && |Folded(f, userId)| > 1;
      assert forall k :: !OccursAt(t, p, k);
    }
  }

  /** The tag filter scopes a row to its own user, up to case, exactly when its id holds no sentinel, or is one. */
  lemma TagScopesIff(f: Fold, rowUser: string)
    ensures (forall userId | userId != "" ::
               TagSelects(f, rowUser, userId) <==> Folded(f, rowUser) == Folded(f, userId))
            <==> Clean(f, rowUser) || |rowUser| == 1
  {
    if Clean(f, rowUser) {
      forall userId | userId != "" ensures TagSelects(f, rowUser, userId) <==> Folded(f, rowUser) == Folded(f, userId) {
        TagScopesToUser(f, rowUser, userId);
      }
    } else if |rowUser| == 1 {
      forall userId | userId != "" ensures TagSelects(f, rowUser, userId) <==> Folded(f, rowUser) == Folded(f, userId) {
        OneCharacterRow(f, rowUser, userId);
      }
    } else {
      var userId := DirtyRowLeaks(f, rowUser);
    }
  }

  /** From that place on the text reads like the part, character by character, up to folding. */
  predicate ReadsAt(f: Fold, text: string, part: string, k: int) {
    0 <= k <= |text| - |part| && forall i | 0 <= i < |part| :: f(text[k + i]) == f(part[i])
  }

  lemma ReadsIff(f: Fold, text: string, part: string, k: int)
    ensures ReadsAt(f, text, part, k) <==> OccursAt(Folded(f, text), Folded(f, part), k)
  {
    var t, p := Folded(f, text), Folded(f, part);
    if 0 <= k <= |text| - |part| {
      assert forall i | 0 <= i < |part| :: t[k..k + |p|][i] == f(text[k + i]) && p[i] == f(part[i]);
      assert t[k..k + |p|] == p <==> forall i | 0 <= i < |part| :: t[k..k + |p|][i] == p[i];
    }
  }

  /**
   The search in plain terms, with the index there or not: the user's own tool edits, tool writes and
   file edits whose payload reads like the path somewhere, for any nonempty path.
   */
  lemma ByFileIs(f: Fold, ftsAvailable: bool, e: Event, userId: string, path: string)
    requires userId != ""
    ensures Selects(f, f, ftsAvailable, e, userId, path) <==>
              && path != "" && e.userId == userId && e.eventType in ["tool.edit", "tool.write", "file.edit"]
              && exists k :: ReadsAt(f, e.payload, path, k)
  {
    ByFileExact(f, ftsAvailable, e, userId, path);
    forall k ensures ReadsAt(f, e.payload, path, k) <==> OccursAt(Folded(f, e.payload), Folded(f, path), k) {
      ReadsIff(f, e.payload, path, k);
    }
  }

  /** Which engine is asked, and so whose folding counts: the index from three characters on, if it is there. */
  lemma PlanIs(likeFold: Fold, ftsFold: Fold, ftsAvailable: bool, e: Event, userId: string, path: string)
    requires userId != "" && path != ""
    ensures var f := if ftsAvailable && |path| >= 3 then ftsFold else likeFold;
            Selects(likeFold, ftsFold, ftsAvailable, e, userId, path) <==> Selects(f, f, ftsAvailable, e, userId, path)
  {
  }

  /** The tag put before and after an id is the control character STX. */
  lemma TagIs(userId: string)
    ensures FtsUserTag(userId) == "\U{2}" + userId + "\U{2}"
  {
    assert SENTINEL == '\U{2}';
  }
}
