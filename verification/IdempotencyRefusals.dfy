/**
 Calls with a malformed event id: refused at once, whatever else goes on, and nobody else is. A call's
 beginning is an action of the run, so what is said of it is said of the run alone.
 */
module IdempotencyRefusals {
  import opened Wrappers
  import opened Idempotency

  ghost predicate Begun(actions: seq<Action>, c: CallId, id: EventId, wellFormed: bool) {
    Begin(c, id, wellFormed) in actions
  }

  /** A call that is refused, or on its way out with a refusal. */
  predicate Refused(pc: Pc) {
    match pc
    case Unlock(_, o) => o.InvalidEventId?
    case Release(_, o) => o.InvalidEventId?
    case Done(o) => o.InvalidEventId?
    case _ => false
  }

  predicate Sane(s: State) {
    forall c | c in s.calls && Refused(s.calls[c].pc) :: s.calls[c].pc == Done(InvalidEventId)
  }

  lemma SaneNext(s: State, a: Action)
    requires Possible(s, a) && Sane(s)
    ensures var t := Next(s, a);
            && Sane(t)
            && (forall c | c in s.calls :: c in t.calls && t.calls[c].event == s.calls[c].event
                                           && (Refused(t.calls[c].pc) <==> Refused(s.calls[c].pc)))
            && (forall c | c in t.calls && c !in s.calls ::
                  || (a == Begin(c, t.calls[c].event, true) && !Refused(t.calls[c].pc))
                  || (a == Begin(c, t.calls[c].event, false) && t.calls[c].pc == Done(InvalidEventId)))
            && (a.Begin? ==> a.call in t.calls && t.calls[a.call].event == a.event)
  {
  }

  /** Every call of the run is as its beginning made it. */
  lemma {:induction false} RefusedAlongRun(s: State, actions: seq<Action>, t: State, c: CallId)
    requires IsRun(s, actions, t) && Sane(s)
    ensures Sane(t)
    ensures c in s.calls ==> c in t.calls && t.calls[c].event == s.calls[c].event
    ensures c in s.calls ==> (Refused(t.calls[c].pc) <==> Refused(s.calls[c].pc))
    ensures c in s.calls ==> forall id, w :: !Begun(actions, c, id, w)
    ensures c !in s.calls && c in t.calls ==>
              && Begun(actions, c, t.calls[c].event, !Refused(t.calls[c].pc))
              && forall id, w | Begun(actions, c, id, w) :: id == t.calls[c].event && w == !Refused(t.calls[c].pc)
    ensures c !in t.calls ==> forall id, w :: !Begun(actions, c, id, w)
    decreases |actions|
  {
    if actions != [] {
      var a, rest := actions[0], actions[1..];
      assert actions == [a] + rest;
      SaneNext(s, a);
      RefusedAlongRun(Next(s, a), rest, t, c);
      assert forall id, w :: Begun(actions, c, id, w) <==> a == Begin(c, id, w) || Begun(rest, c, id, w);
    }
  }

  /** A call ends with a refusal exactly when it was begun with a malformed event id, and then it has ended already. */
  lemma RefusedIff(audit: Audit, actions: seq<Action>, t: State, c: CallId)
    requires IsRun(Initial(audit), actions, t) && c in t.calls
    ensures var id := t.calls[c].event;
            && (t.calls[c].pc == Done(InvalidEventId) <==> Begin(c, id, false) in actions)
            && (t.calls[c].pc != Done(InvalidEventId) <==> Begin(c, id, true) in actions)
  {
    RefusedAlongRun(Initial(audit), actions, t, c);
    assert Begun(actions, c, t.calls[c].event, !Refused(t.calls[c].pc));
    assert Begun(actions, c, t.calls[c].event, true) != Begun(actions, c, t.calls[c].event, false);
  }

  lemma {:induction false} DoneForGood(s: State, actions: seq<Action>, t: State, c: CallId)
    requires IsRun(s, actions, t) && c in s.calls && s.calls[c].pc.Done?
    ensures c in t.calls && t.calls[c] == s.calls[c]
    ensures forall luck :: Advance(c, luck) !in actions
    ensures forall i | |s.completed| <= i < |t.completed| :: t.completed[i].call != c
    ensures |s.completed| <= |t.completed| && t.completed[..|s.completed|] == s.completed
    decreases |actions|
  {
    if actions != [] {
      var a, u := actions[0], Next(s, actions[0]);
      assert actions == [a] + actions[1..];
      assert |s.completed| <= |u.completed| && u.completed[..|s.completed|] == s.completed;
      DoneForGood(u, actions[1..], t, c);
      forall i | |s.completed| <= i < |t.completed| ensures t.completed[i].call != c {
        if i < |u.completed| {
          assert t.completed[i] == u.completed[i];
        }
      }
      assert t.completed[..|s.completed|] == t.completed[..|u.completed|][..|s.completed|];
    }
  }

  lemma {:induction false} UnbegunCompletes(s: State, actions: seq<Action>, t: State, c: CallId)
    requires IsRun(s, actions, t) && c !in t.calls && forall x | x in s.completed :: x.call != c
    ensures forall x | x in t.completed :: x.call != c
    decreases |actions|
  {
    if actions != [] {
      CallsStay(Next(s, actions[0]), actions[1..], t, c);
      UnbegunCompletes(Next(s, actions[0]), actions[1..], t, c);
    }
  }

  lemma {:induction false} CallsStay(s: State, actions: seq<Action>, t: State, c: CallId)
    requires IsRun(s, actions, t) && c !in t.calls
    ensures c !in s.calls
    decreases |actions|
  {
    if actions != [] {
      CallsStay(Next(s, actions[0]), actions[1..], t, c);
    }
  }

  /**
   The beginning of a call with a malformed event id, anywhere in a run: nothing but the call itself
   is touched, neither then nor ever after, and the worker never runs for it.
   */
  lemma MalformedTouchesNothing(audit: Audit, before: seq<Action>, s: State, c: CallId, id: EventId, after: seq<Action>,
                                t: State) returns (u: State)
    requires IsRun(Initial(audit), before, s) && IsRun(Initial(audit), before + [Begin(c, id, false)] + after, t)
    ensures IsRun(Initial(audit), before + [Begin(c, id, false)], u)
    ensures u == s.(calls := s.calls[c := Call(id, Done(InvalidEventId))])
    ensures c in t.calls && t.calls[c] == Call(id, Done(InvalidEventId))
    ensures forall luck :: Advance(c, luck) !in after
    ensures forall x | x in t.completed :: x.call != c
  {
    var begin := Begin(c, id, false);
    u := Split(Initial(audit), before + [begin], after, t);
    var v := Split(Initial(audit), before, [begin], u);
    assert v == s && [begin][0] == begin && [begin][1..] == [];
    assert After(s, [begin]) == After(Next(s, begin), []);
    UnbegunCompletes(Initial(audit), before, s, c);
    DoneForGood(u, after, t, c);
    forall x | x in t.completed ensures x.call != c {
      var i :| 0 <= i < |t.completed| && t.completed[i] == x;
      assert i < |u.completed| ==> t.completed[..|u.completed|][i] == x;
    }
  }

  lemma {:induction false} Split(s: State, first: seq<Action>, second: seq<Action>, t: State) returns (u: State)
    requires IsRun(s, first + second, t)
    ensures IsRun(s, first, u) && IsRun(u, second, t)
    decreases |first|
  {
    if first == [] {
      assert first + second == second;
      u := s;
    } else {
      assert (first + second)[0] == first[0] && (first + second)[1..] == first[1..] + second;
      u := Split(Next(s, first[0]), first[1..], second, t);
    }
  }
}
