/**
 How calls end when they race: which of two transitions that have read the same state wins, what the
 other is told, and that no ingest finds its row missing.
 */
module StoreRaces {

  import opened Wrappers
  import opened EventLog
  import opened LiveStore
  import opened StoreProtocol

  /** Not before it in auto, pending, confirmed, rejected. */
  predicate NotBefore(later: State, earlier: State) {
    Standing(earlier).Some? && Standing(later).Some? && Standing(earlier).value <= Standing(later).value
  }

  /** The compare-and-set, in plain terms. */
  lemma SwapIs(s: Machine, t: string, claim: string, to: State, user: Option<string>, from: State,
               id: string, now: string, updatedAt: string)
    requires Inv(s) && Enabled(s, Step(t, id, now, updatedAt))
    requires s.threads[t] == Thread(Transition(claim, to, user), Writing(from))
    ensures var u, r := Next(s, Step(t, id, now, updatedAt)), Ref(ClaimKind, claim);
            && r in s.rows
            && if s.rows[r].state != from then
                 u == s.(threads := s.threads[t := Thread(s.threads[t].call, Refused(ChangedConcurrently))])
               else
                 && u.threads == s.threads[t := Thread(s.threads[t].call, Applied)]
                 && u.rows == s.rows[r := s.rows[r].(state := to, updatedAt := updatedAt)]
                 && u.log == s.log + [Event(id, now, s.rows[r].userId, ClaimStateChanged, Some(ClaimKind), Some(claim),
                                            ChangePayload(Some(from), Some(to), Some(updatedAt)))]
  {
    assert ThreadOk(s, t);
    assert RefOf(s.rows[Ref(ClaimKind, claim)]) == Ref(ClaimKind, claim);
  }

  /** A row that stands among the claim states never goes back in one step. */
  lemma RowNotBefore(s: Machine, a: Action, r: Ref)
    requires Inv(s) && Enabled(s, a) && r in s.rows && Standing(s.rows[r].state).Some?
    ensures r in Next(s, a).rows && NotBefore(Next(s, a).rows[r].state, s.rows[r].state)
  {
    if a.Step? {
      assert ThreadOk(s, a.t);
      match s.threads[a.t] {
        case Thread(Transition(claim, to, user), Writing(from)) =>
          SwapIs(s, a.t, claim, to, user, from, a.eventId, a.eventTime, a.updatedAt);
          AllowedIsOnward(from, to);
        case _ =>
      }
    }
  }

  /** A call moves in its own turns alone. */
  lemma NotItsTurn(s: Machine, a: Action, t: string)
    requires Enabled(s, a) && t != a.t && t in s.threads
    ensures t in Next(s, a).threads && Next(s, a).threads[t] == s.threads[t]
  {
  }

  lemma NotBegun(s: Machine, a: Action, t: string)
    requires Enabled(s, a) && t != a.t && t !in s.threads
    ensures t !in Next(s, a).threads
  {
  }

  /** What a transition has read is not ahead of what is there. */
  ghost predicate ReadPast(rows: Rows, thread: Thread) {
    match thread
    case Thread(Transition(claim, _, _), Writing(from)) =>
      var r := Ref(ClaimKind, claim);
      r in rows && NotBefore(rows[r].state, from)
    case _ => true
  }

  lemma FirstRead(s: Machine, a: Action)
    requires Inv(s) && Enabled(s, a)
    requires a.t in s.threads ==> !s.threads[a.t].pc.Writing?
    ensures ReadPast(Next(s, a).rows, Next(s, a).threads[a.t])
  {
    if a.Step? {
      match s.threads[a.t] {
        case Thread(Transition(claim, to, user), Reading) =>
          VerdictIs(s.rows, claim, to, user);
        case _ =>
      }
    }
  }

  lemma LastWrite(s: Machine, a: Action)
    requires Inv(s) && Enabled(s, a) && a.t in s.threads && s.threads[a.t].pc.Writing?
    ensures !Next(s, a).threads[a.t].pc.Writing?
  {
    if a.Step? {
      assert ThreadOk(s, a.t);
      var c := s.threads[a.t].call;
      SwapIs(s, a.t, c.claimId, c.to, c.expectedUser, s.threads[a.t].pc.from, a.eventId, a.eventTime, a.updatedAt);
    }
  }

  lemma ReadPastNext(s: Machine, a: Action, t: string)
    requires Inv(s) && Enabled(s, a) && t in s.threads && ReadPast(s.rows, s.threads[t]) && a.t != t
    ensures t in Next(s, a).threads && ReadPast(Next(s, a).rows, Next(s, a).threads[t])
  {
    NotItsTurn(s, a, t);
    match s.threads[t] {
      case Thread(Transition(claim, to, user), Writing(from)) => RowNotBefore(s, a, Ref(ClaimKind, claim));
      case _ =>
    }
  }

  lemma {:induction false} ReadPastAlongRun(s: Machine, actions: seq<Action>, u: Machine)
    requires Inv(s) && Run(s, actions, u) && forall t | t in s.threads :: ReadPast(s.rows, s.threads[t])
    ensures forall t | t in u.threads :: ReadPast(u.rows, u.threads[t])
    decreases |actions|
  {
    if actions != [] {
      var a, s2 := actions[0], Next(s, actions[0]);
      forall t | t in s2.threads ensures ReadPast(s2.rows, s2.threads[t]) {
        if t != a.t {
          if t !in s.threads {
            NotBegun(s, a, t);
          }
          ReadPastNext(s, a, t);
        } else if a.t in s.threads && s.threads[a.t].pc.Writing? {
          LastWrite(s, a);
        } else {
          FirstRead(s, a);
        }
      }
      NextKeeps(s, a);
      ReadPastAlongRun(s2, actions[1..], u);
    }
  }

  // ----- two transitions that have read the same state --------------------------------------------

  /** The call has read `from` and wants the claim somewhere else. */
  predicate Leaving(s: Machine, t: string, claim: string, from: State) {
    && t in s.threads && s.threads[t].call.Transition?
    && s.threads[t].call.claimId == claim && s.threads[t].call.to != from
  }

  /** How far it has come since: as long as the claim stands where it was read, nobody has won or lost. */
  ghost predicate Racing(s: Machine, t: string, claim: string, from: State) {
    var r := Ref(ClaimKind, claim);
    && Leaving(s, t, claim, from) && r in s.rows && NotBefore(s.rows[r].state, from)
    && (match s.threads[t].pc
        case Writing(f) => f == from
        case Applied => s.rows[r].state != from
        case Refused(e) => e == ChangedConcurrently && s.rows[r].state != from
        case Crashed => true
        case _ => false)
  }

  /** One step of a race: the call stays as it is, or dies, or writes where it finds the claim as it was read. */
  ghost predicate Moves(s: Machine, u: Machine, mover: string, t: string, claim: string, from: State) {
    var r := Ref(ClaimKind, claim);
    && t in s.threads && t in u.threads && u.threads[t].call == s.threads[t].call
    && r in s.rows && r in u.rows && NotBefore(u.rows[r].state, s.rows[r].state)
    && (mover != t ==> u.threads[t] == s.threads[t])
    && (mover == t ==> !Final(s.threads[t].pc))
    && (mover == t && u.threads[t].pc != Crashed ==>
          && s.threads[t].call.Transition?
          && if s.rows[r].state == from then u.threads[t].pc == Applied && u.rows[r].state == s.threads[t].call.to
             else u.threads[t].pc == Refused(ChangedConcurrently))
  }

  lemma RaceMoves(s: Machine, a: Action, t: string, claim: string, from: State)
    requires Inv(s) && Enabled(s, a) && Racing(s, t, claim, from)
    ensures Moves(s, Next(s, a), a.t, t, claim, from)
  {
    if a.t != t {
      NotItsTurn(s, a, t);
    }
    RowNotBefore(s, a, Ref(ClaimKind, claim));
    if a.Step? && a.t == t {
      var c := s.threads[t].call;
      SwapIs(s, t, claim, c.to, c.expectedUser, from, a.eventId, a.eventTime, a.updatedAt);
    }
  }

  lemma RacingNext(s: Machine, u: Machine, mover: string, t: string, claim: string, from: State)
    requires Racing(s, t, claim, from) && Moves(s, u, mover, t, claim, from)
    ensures Racing(u, t, claim, from)
  {
  }

  /** Only who finds the claim where it was read can win, and then the claim is elsewhere. */
  lemma WinsAlone(s: Machine, u: Machine, mover: string, t: string, q: string, claim: string, from: State)
    requires t != q && OneAtMost(s, t, q)
    requires Racing(s, t, claim, from) && Moves(s, u, mover, t, claim, from)
    requires Racing(s, q, claim, from) && Moves(s, u, mover, q, claim, from)
    ensures OneAtMost(u, t, q)
  {
  }

  predicate OneAtMost(s: Machine, t: string, q: string) {
    t in s.threads && q in s.threads && !(s.threads[t].pc == Applied && s.threads[q].pc == Applied)
  }

  lemma {:induction false} RaceAlongRun(s: Machine, actions: seq<Action>, u: Machine, t: string, q: string,
                                        claim: string, from: State)
    requires Inv(s) && Run(s, actions, u) && t != q && OneAtMost(s, t, q)
    requires Racing(s, t, claim, from) && Racing(s, q, claim, from)
    ensures Racing(u, t, claim, from) && Racing(u, q, claim, from) && OneAtMost(u, t, q)
    decreases |actions|
  {
    if actions != [] {
      var a, s2 := actions[0], Next(s, actions[0]);
      RaceMoves(s, a, t, claim, from);
      RaceMoves(s, a, q, claim, from);
      RacingNext(s, s2, a.t, t, claim, from);
      RacingNext(s, s2, a.t, q, claim, from);
      WinsAlone(s, s2, a.t, t, q, claim, from);
      NextKeeps(s, a);
      RaceAlongRun(s2, actions[1..], u, t, q, claim, from);
    }
  }

  /**
   Two transitions that have read one claim in the same state and want it elsewhere: whatever happens
   from there on, at most one of them is applied. One that has ended was applied, or was told that the
   claim has changed meanwhile, which it has, or its process died.
   */
  lemma OneWinner(s0: Machine, before: seq<Action>, s: Machine, after: seq<Action>, u: Machine,
                  t: string, q: string, claim: string, from: State)
    requires Init(s0) && Run(s0, before, s) && Run(s, after, u) && t != q
    requires Leaving(s, t, claim, from) && s.threads[t].pc == Writing(from)
    requires Leaving(s, q, claim, from) && s.threads[q].pc == Writing(from)
    ensures t in u.threads && q in u.threads && Ref(ClaimKind, claim) in u.rows
    ensures !(u.threads[t].pc == Applied && u.threads[q].pc == Applied)
    ensures forall x | x in {t, q} :: u.threads[x].pc in {Writing(from), Applied, Refused(ChangedConcurrently), Crashed}
    ensures (exists x | x in {t, q} :: u.threads[x].pc in {Applied, Refused(ChangedConcurrently)})
            ==> u.rows[Ref(ClaimKind, claim)].state != from
  {
    InitInv(s0);
    InvAlongRun(s0, before, s);
    ReadPastAlongRun(s0, before, s);
    assert ReadPast(s.rows, s.threads[t]) && ReadPast(s.rows, s.threads[q]);
    RaceAlongRun(s, after, u, t, q, claim, from);
  }

  /** Over every interleaving, with any crashes: no ingest misses the row it re-selects or logs. */
  lemma NothingBreaks(s0: Machine, actions: seq<Action>, s: Machine, t: string)
    requires Init(s0) && Run(s0, actions, s) && t in s.threads
    ensures s.threads[t].pc != Broken
    ensures s.threads[t].call.Ingest? ==>
              match s.threads[t].pc
              case Returned(p, deduped) =>
                && p in s.rows && KeyOf(s.rows[p]) == KeyOf(s.threads[t].call.candidate) && (deduped <==> p.id != t)
              case pc => pc == Crashed || !Final(pc)
  {
    InitInv(s0);
    InvAlongRun(s0, actions, s);
    assert ThreadOk(s, t);
  }
}
