/**
 When two ingests are of one content: the keys under which rows are deduplicated, traced back through
 the hash to the texts themselves.
 */
module Contents {

  import opened Wrappers
  import opened JoinedText
  import opened Hashing
  import opened EventLog
  import opened Databases

  ghost predicate Injective(h: Hasher) {
    forall s, t | h.digest(s) == h.digest(t) :: s == t
  }

  /** Both missing, or the same up to cleaning. */
  predicate SamePart(h: Hasher, a: Option<string>, b: Option<string>) {
    match (a, b)
    case (None, None) => true
    case (Some(s), Some(t)) => Clean(h, s) == Clean(h, t)
    case _ => false
  }

  /** One text of a list tells the list, given that no digest is met twice. */
  lemma OneHashOneList(h: Hasher, a: seq<Option<string>>, b: seq<Option<string>>)
    requires Regular(h) && Injective(h) && |a| == |b| && Accepted(h, a) && Accepted(h, b)
    requires Separable(h.blank, Canon(h, a))
    ensures ContentHash(h, a) == ContentHash(h, b) <==> Alike(h, a, b)
  {
    NormalizeReadsBackIff(h, a);
    if Alike(h, a, b) {
      AlikeCanon(h, a, b);
    }
  }

  /** The parts of a row that its hash is taken of. */
  function PartsOf(row: Row): seq<Option<string>> {
    match row
    case Memory(_, _, _, path, title, summary, _, _, _, _) => [title, summary, Some(path)]
    case Claim(_, user, subject, relation, target, source, _, _, _, _, _) =>
      [Some(subject), Some(relation), Some(target), Some(source), Some(user)]
  }

  /** The row carries the hash that ingest gives it. */
  ghost predicate Hashed(h: Hasher, row: Row) {
    match row
    case Memory(_, _, _, path, title, summary, hash, _, _, _) =>
      hash == h.digest(Part(h, title) + "||" + Part(h, summary) + "||" + Part(h, Some(path)))
    case Claim(_, user, subject, relation, target, source, hash, _, _, _, _) =>
      hash == h.digest(Part(h, Some(subject)) + "||" + Part(h, Some(relation)) + "||" + Part(h, Some(target))
                       + "||" + Part(h, Some(source)) + "||" + Part(h, Some(user)))
  }

  lemma HashIsOfParts(h: Hasher, row: Row)
    requires Hashed(h, row)
    ensures row.contentHash == ContentHash(h, PartsOf(row))
  {
    match row {
      case Memory(_, _, _, path, title, summary, _, _, _, _) => DigestOfThree(h, title, summary, Some(path));
      case Claim(_, user, subject, relation, target, source, _, _, _, _, _) =>
        DigestOfFive(h, Some(subject), Some(relation), Some(target), Some(source), Some(user));
    }
  }

  /** What ingest stores is so hashed. */
  lemma CandidatesAreHashed(h: Hasher, row: Row, id: string, user: string, source: string, now: string)
    ensures forall title, summary, path |
              NewMemory(h, row, id, user, title, summary, path, source, now) :: Hashed(h, row)
    ensures forall subject, relation, target, confidence, state |
              NewClaim(h, row, id, user, subject, relation, target, source, confidence, state, now) :: Hashed(h, row)
  {
  }

  /**
   Two memories compete for one key exactly when they are of one user and agree in title, summary and
   path, up to cleaning - as long as no text is the sentinel and the parts of one are separable.
   */
  lemma SameMemoryIff(h: Hasher, a: Row, b: Row)
    requires Regular(h) && Injective(h) && a.Memory? && b.Memory? && Hashed(h, a) && Hashed(h, b)
    requires Accepted(h, PartsOf(a)) && Accepted(h, PartsOf(b)) && Separable(h.blank, Canon(h, PartsOf(a)))
    ensures KeyOf(a) == KeyOf(b)
            <==> a.userId == b.userId && SamePart(h, a.title, b.title) && SamePart(h, a.summary, b.summary)
                 && Clean(h, a.vaultPath) == Clean(h, b.vaultPath)
  {
    var p, q := PartsOf(a), PartsOf(b);
    HashIsOfParts(h, a);
    HashIsOfParts(h, b);
    OneHashOneList(h, p, q);
    assert p[0] == a.title && p[1] == a.summary && p[2] == Some(a.vaultPath);
    assert q[0] == b.title && q[1] == b.summary && q[2] == Some(b.vaultPath);
  }

  /** Two claims: of one user and one source, and agreeing in subject, predicate and object. */
  lemma SameClaimIff(h: Hasher, a: Row, b: Row)
    requires Regular(h) && Injective(h) && a.Claim? && b.Claim? && Hashed(h, a) && Hashed(h, b)
    requires Accepted(h, PartsOf(a)) && Accepted(h, PartsOf(b)) && Separable(h.blank, Canon(h, PartsOf(a)))
    ensures KeyOf(a) == KeyOf(b)
            <==> a.userId == b.userId && a.sourceId == b.sourceId && Clean(h, a.subject) == Clean(h, b.subject)
                 && Clean(h, a.relation) == Clean(h, b.relation) && Clean(h, a.target) == Clean(h, b.target)
  {
    var p, q := PartsOf(a), PartsOf(b);
    HashIsOfParts(h, a);
    HashIsOfParts(h, b);
    OneHashOneList(h, p, q);
    assert p[0] == Some(a.subject) && p[1] == Some(a.relation) && p[2] == Some(a.target);
    assert p[3] == Some(a.sourceId) && p[4] == Some(a.userId);
    assert q[0] == Some(b.subject) && q[1] == Some(b.relation) && q[2] == Some(b.target);
    assert q[3] == Some(b.sourceId) && q[4] == Some(b.userId);
  }
}
