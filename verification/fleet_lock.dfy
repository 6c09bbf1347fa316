/**
 The fleet lock under any number of concurrent start calls. Each call checks a dedicated session out
 of the pool; the advisory lock belongs to the session, counts its acquisitions, and outlives the
 call if it is not given back. Any query may fail, with or without effect, and a session may be lost.
 */
module FleetLock {
  type Call = nat
  type Session = nat

  // Where a call is: the query it awaits next.
  datatype Pc =
    | TryLock           // pg_try_advisory_lock
    | Preparing         // reading the tenants, inserting the rows
    | Finalizing        // no eligible tenant: finalizing at once
    | UnlockingEmpty    // ... and giving the lock back
    | Running           // the orchestrator
    | UnlockingFinal    // its finally block
    | Cleaning          // the catch block of the start
    | Done

  // releases counts client.release(); got says whether the call holds an acquisition that it has not
  // given back.
  datatype Start = Start(session: Session, pc: Pc, releases: nat, got: bool)

  // held counts the acquisitions of each session as the database sees them. owed counts those that
  // calls which are over never gave back, less those that later calls gave back in their stead.
  datatype State = State(starts: map<Call, Start>, held: map<Session, nat>, lost: set<Session>, owed: map<Session, nat>)

  datatype Outcome = Succeeds | FailsApplied | FailsUnapplied

  // Query is the next query of a call: on success of Preparing or Running, next says where it goes.
  datatype Event =
    | Connect(call: Call, session: Session)
    | Query(call: Call, outcome: Outcome, next: Pc)
    | Lose(session: Session)

  function Held(s: State, session: Session): nat {
    if session in s.held then s.held[session] else 0
  }

  predicate FreeFor(s: State, session: Session) {
    forall other | other in s.held && other != session :: s.held[other] == 0
  }

  function Owed(s: State, session: Session): nat {
    if session in s.owed then s.owed[session] else 0
  }

  // A call, and the counts of its session.
  datatype Books = Books(start: Start, held: nat, owed: nat)

  // pg_try_advisory_lock with effect.
  function Acquire(b: Books, free: bool): Books {
    if free then b.(held := b.held + 1, start := b.start.(got := true)) else b
  }

  // pg_advisory_unlock with effect: it gives back one acquisition of the session, the call's own if it
  // has one; unlocking what is not held does nothing.
  function GiveBack(b: Books): Books {
    if b.held == 0 then b.(start := b.start.(got := false))
    else if b.start.got then b.(held := b.held - 1, start := b.start.(got := false))
    else b.(held := b.held - 1, owed := if b.owed > 0 then b.owed - 1 else 0)
  }

  function Unlock(b: Books, outcome: Outcome): Books {
    if outcome.FailsUnapplied? then b else GiveBack(b)
  }

  function Goto(b: Books, pc: Pc): Books {
    b.(start := b.start.(pc := pc))
  }

  // client.release() as the last thing a call does. What it still has it will never give back.
  function End(b: Books): Books {
    Books(Start(b.start.session, Done, b.start.releases + 1, false), b.held, b.owed + if b.start.got then 1 else 0)
  }

  // The next query of a call; free says whether its session may take the lock.
  function Turn(b: Books, free: bool, outcome: Outcome, next: Pc): Books {
    match b.start.pc
    case TryLock =>
      if outcome.Succeeds? then if free then Goto(Acquire(b, free), Preparing) else End(b)
      else Goto(if outcome.FailsApplied? then Acquire(b, free) else b, Cleaning)
    case Preparing => Goto(b, if outcome.Succeeds? then next else Cleaning)
    case Finalizing => Goto(b, if outcome.Succeeds? then UnlockingEmpty else Cleaning)
    case UnlockingEmpty => if outcome.Succeeds? then End(Unlock(b, outcome)) else Goto(Unlock(b, outcome), Cleaning)
    case Running => Goto(b, next)
    case UnlockingFinal => End(Unlock(b, outcome))
    case Cleaning => End(Unlock(b, outcome))
    case Done => b
  }

  function BooksOf(s: State, c: Call): Books
    requires c in s.starts
  {
    Books(s.starts[c], Held(s, s.starts[c].session), Owed(s, s.starts[c].session))
  }

  predicate OnClient(pc: Pc) {
    pc.TryLock? || pc.UnlockingEmpty? || pc.UnlockingFinal? || pc.Cleaning?
  }

  predicate Enabled(s: State, e: Event) {
    match e
    case Connect(c, session) =>
      c !in s.starts && session !in s.lost && forall d | d in s.starts && !s.starts[d].pc.Done? ::
        s.starts[d].session != session
    case Query(c, outcome, next) =>
      && c in s.starts && !s.starts[c].pc.Done?
      && (OnClient(s.starts[c].pc) && s.starts[c].session in s.lost ==> outcome.FailsUnapplied?)
      && (s.starts[c].pc.Preparing? ==> next.Preparing? || next.Finalizing? || next.Running?)
      && (s.starts[c].pc.Running? ==> next.Running? || next.UnlockingFinal?)
    case Lose(session) => session !in s.lost
  }

  function Step(s: State, e: Event): State
    requires Enabled(s, e)
  {
    match e
    case Connect(c, session) => s.(starts := s.starts[c := Start(session, TryLock, 0, false)])
    case Lose(session) => s.(held := s.held[session := 0], lost := s.lost + {session})
    case Query(c, outcome, next) =>
      var session := s.starts[c].session;
      var b := Turn(BooksOf(s, c), FreeFor(s, session), outcome, next);
      s.(starts := s.starts[c := b.start], held := s.held[session := b.held], owed := s.owed[session := b.owed])
  }

  const FREE := State(map[], map[], {}, map[])

  ghost predicate Runs(trace: seq<State>, events: seq<Event>) {
    && |trace| == |events| + 1
    && trace[0] == FREE
    && forall i | 0 <= i < |events| :: Enabled(trace[i], events[i]) && trace[i + 1] == Step(trace[i], events[i])
  }

  // ------------------------------------------------------------------------------------------

  // From the moment the lock is granted until it is given back.
  predicate Owning(pc: Pc) {
    pc.Preparing? || pc.Finalizing? || pc.UnlockingEmpty? || pc.Running? || pc.UnlockingFinal?
  }

  ghost predicate OneHolder(s: State) {
    forall a, b | a in s.held && b in s.held && s.held[a] > 0 && s.held[b] > 0 :: a == b
  }

  ghost predicate Exclusive(s: State) {
    forall c, d | c in s.starts && d in s.starts && c != d && !s.starts[c].pc.Done? && !s.starts[d].pc.Done? ::
      s.starts[c].session != s.starts[d].session
  }

  ghost predicate ReleasedOnce(s: State) {
    forall c | c in s.starts :: s.starts[c].releases == if s.starts[c].pc.Done? then 1 else 0
  }

  predicate Keeps(s: State, c: Call, session: Session) {
    c in s.starts && s.starts[c].session == session && s.starts[c].got
  }

  // Whoever owns the lock has got it; before the try and after the end nobody has.
  ghost predicate OwnersGot(s: State) {
    forall c | c in s.starts ::
      && (Owning(s.starts[c].pc) ==> s.starts[c].got)
      && (s.starts[c].pc.TryLock? || s.starts[c].pc.Done? ==> !s.starts[c].got)
  }

  // The books of a session that is alive balance: what it holds is what is owed on it and what a call in
  // progress has got. A lost one holds nothing.
  ghost predicate Balanced(s: State) {
    && (forall c | c in s.starts && s.starts[c].got && s.starts[c].session !in s.lost ::
          Held(s, s.starts[c].session) == Owed(s, s.starts[c].session) + 1)
    && (forall x | x !in s.lost && (forall c :: !Keeps(s, c, x)) :: Held(s, x) == Owed(s, x))
    && (forall x | x in s.lost :: Held(s, x) == 0)
  }

  ghost predicate Inv(s: State) {
    OneHolder(s) && Exclusive(s) && OwnersGot(s) && ReleasedOnce(s) && Balanced(s)
  }

  function Own(start: Start): nat {
    if start.got then 1 else 0
  }

  // What a query changes: its own call and its own session's counts, and nothing else.
  lemma QueryEffect(s: State, e: Event)
    requires Enabled(s, e) && e.Query?
    ensures var t, was := Step(s, e), s.starts[e.call];
      var b := Turn(BooksOf(s, e.call), FreeFor(s, was.session), e.outcome, e.next);
      && t.starts == s.starts[e.call := b.start] && t.lost == s.lost && BooksOf(t, e.call) == b
      && b.start.session == was.session
      && forall x | x != was.session ::
           (x in t.held <==> x in s.held) && Held(t, x) == Held(s, x) && Owed(t, x) == Owed(s, x)
  {
    TurnSession(BooksOf(s, e.call), FreeFor(s, s.starts[e.call].session), e.outcome, e.next);
    hide Turn, FreeFor, OnClient;
  }

  lemma TurnSession(b: Books, free: bool, outcome: Outcome, next: Pc)
    ensures Turn(b, free, outcome, next).start.session == b.start.session
  {
  }

  // The books balance after a turn as they did before.
  lemma TurnBalances(s: State, e: Event)
    requires Enabled(s, e) && e.Query? && OwnersGot(s)
    ensures var b := BooksOf(s, e.call);
      var free := FreeFor(s, b.start.session);
      var now := Turn(b, free, e.outcome, e.next);
      && now.start.releases == b.start.releases + (if now.start.pc.Done? then 1 else 0)
      && (b.held == b.owed + Own(b.start) ==> now.held == now.owed + Own(now.start))
      && (now.held > b.held ==> free && b.start.session !in s.lost)
      && (Owning(now.start.pc) ==> now.start.got) && (now.start.pc.TryLock? || now.start.pc.Done? ==> !now.start.got)
  {
    hide FreeFor, Held, Owed;
  }

  lemma StepHolder(s: State, e: Event)
    requires Inv(s) && Enabled(s, e)
    ensures OneHolder(Step(s, e))
  {
    hide ReleasedOnce, Balanced, Exclusive;
    if e.Query? {
      QueryEffect(s, e);
      TurnBalances(s, e);
      hide Step, Enabled, Turn;
      var t, session := Step(s, e), s.starts[e.call].session;
      forall a, b | a in t.held && b in t.held && t.held[a] > 0 && t.held[b] > 0 ensures a == b {
        assert Held(t, a) > 0 && Held(t, b) > 0;
        assert a != session ==> Held(s, a) > 0;
        assert b != session ==> Held(s, b) > 0;
      }
    }
  }

  lemma QueryReleases(s: State, e: Event)
    requires Enabled(s, e) && e.Query?
    ensures var t, was := Step(s, e), s.starts[e.call];
      && e.call in t.starts && t.starts == s.starts[e.call := t.starts[e.call]]
      && t.starts[e.call].session == was.session
      && t.starts[e.call].releases == was.releases + (if t.starts[e.call].pc.Done? then 1 else 0)
  {
    hide FreeFor, Held, Owed, OnClient;
  }

  lemma StepSessions(s: State, e: Event)
    requires Inv(s) && Enabled(s, e)
    ensures Exclusive(Step(s, e)) && ReleasedOnce(Step(s, e))
  {
    hide Balanced, OwnersGot, OneHolder;
    if e.Query? {
      QueryReleases(s, e);
      var _ := s.starts[e.call];
      hide Step;
    }
  }

  lemma StepGot(s: State, e: Event)
    requires Inv(s) && Enabled(s, e)
    ensures OwnersGot(Step(s, e))
  {
    hide Balanced, ReleasedOnce, OneHolder, Exclusive;
    if e.Query? {
      QueryEffect(s, e);
      TurnBalances(s, e);
      hide Step, Turn;
    }
  }

  lemma StepBalances(s: State, e: Event)
    requires Inv(s) && Enabled(s, e)
    ensures Balanced(Step(s, e))
  {
    match e {
      case Connect(c, session) =>
        var t := Step(s, e);
        forall x | x !in t.lost && (forall d :: !Keeps(t, d, x)) ensures Held(t, x) == Owed(t, x) {
          assert forall d :: Keeps(s, d, x) ==> Keeps(t, d, x);
        }
      case Query(_, _, _) => QueryKeepsBalance(s, e);
      case Lose(session) =>
        var t := Step(s, e);
        forall x | x !in t.lost && (forall d :: !Keeps(t, d, x)) ensures Held(t, x) == Owed(t, x) {
          assert forall d :: Keeps(s, d, x) ==> Keeps(t, d, x);
        }
    }
  }

  // On the session of a call in progress only that call can have got anything.
  lemma SessionBalance(s: State, c: Call)
    requires Inv(s) && c in s.starts && !s.starts[c].pc.Done? && s.starts[c].session !in s.lost
    ensures Held(s, s.starts[c].session) == Owed(s, s.starts[c].session) + Own(s.starts[c])
  {
    if !s.starts[c].got {
      forall d ensures !Keeps(s, d, s.starts[c].session) {
      }
    }
  }

  lemma QueryKeepsBalance(s: State, e: Event)
    requires Inv(s) && Enabled(s, e) && e.Query?
    ensures Balanced(Step(s, e))
  {
    var t, session := Step(s, e), s.starts[e.call].session;
    QueryEffect(s, e);
    TurnBalances(s, e);
    if session !in s.lost {
      SessionBalance(s, e.call);
    }
    assert Exclusive(s) && OwnersGot(s) && !s.starts[e.call].pc.Done?;
    hide Step, Enabled, Turn, OneHolder, ReleasedOnce, Held, Owed, FreeFor;
    forall c | c in t.starts && t.starts[c].got && t.starts[c].session !in t.lost
      ensures Held(t, t.starts[c].session) == Owed(t, t.starts[c].session) + 1
    {
      assert c != e.call ==> s.starts[c].session != session;
    }
    forall x | x !in t.lost && (forall c :: !Keeps(t, c, x)) ensures Held(t, x) == Owed(t, x) {
      if x == session {
        assert !Keeps(t, e.call, x);
      } else {
        assert forall c :: Keeps(s, c, x) ==> Keeps(t, c, x);
      }
    }
  }

  lemma {:induction false} AlwaysInv(trace: seq<State>, events: seq<Event>, i: nat)
    requires Runs(trace, events) && i < |trace|
    ensures Inv(trace[i])
  {
    hide Enabled, Step, OneHolder, Exclusive, OwnersGot, ReleasedOnce, Balanced;
    if i > 0 {
      AlwaysInv(trace, events, i - 1);
      StepHolder(trace[i - 1], events[i - 1]);
      StepSessions(trace[i - 1], events[i - 1]);
      StepGot(trace[i - 1], events[i - 1]);
      StepBalances(trace[i - 1], events[i - 1]);
    } else {
      InitInv();
    }
  }

  lemma InitInv()
    ensures Inv(FREE)
  {
  }

  // At every moment of every run at most one call whose session is alive owns the lock, preparing
  // or running a rollout, and a client is released exactly when its call is over, once.
  lemma AtMostOneOwner(trace: seq<State>, events: seq<Event>, i: nat)
    requires Runs(trace, events) && i < |trace|
    ensures forall c, d | c in trace[i].starts && d in trace[i].starts
              && Owning(trace[i].starts[c].pc) && Owning(trace[i].starts[d].pc)
              && trace[i].starts[c].session !in trace[i].lost && trace[i].starts[d].session !in trace[i].lost :: c == d
    ensures forall c | c in trace[i].starts ::
      trace[i].starts[c].releases == if trace[i].starts[c].pc.Done? then 1 else 0
  {
    hide Step, Enabled;
    AlwaysInv(trace, events, i);
  }

  // A call changes no lock but its own session's, and the call that is refused changes none.
  lemma LoserKeepsLock(s: State, e: Event)
    requires Enabled(s, e) && e.Query? && OwnersGot(s)
    ensures var start, t := s.starts[e.call], Step(s, e);
      && (forall x | x != start.session :: Held(t, x) == Held(s, x))
      && (start.pc.TryLock? && t.starts[e.call].pc.Done? ==>
            !FreeFor(s, start.session) && forall x :: Held(t, x) == Held(s, x) && Owed(t, x) == Owed(s, x))
  {
  }

  // A start gets the lock if and only if no other session holds it; one that holds it already may take it
  // again.
  lemma TryExactly(s: State, c: Call)
    requires c in s.starts && s.starts[c].pc == TryLock && s.starts[c].session !in s.lost
    ensures FreeFor(s, s.starts[c].session) <==> forall x | x != s.starts[c].session :: Held(s, x) == 0
    ensures var t, was := Step(s, Query(c, Succeeds, Done)), s.starts[c];
      var free := FreeFor(s, was.session);
      && t.starts[c].pc == (if free then Preparing else Done) && (t.starts[c].got <==> free)
      && Held(t, was.session) == Held(s, was.session) + if free then 1 else 0
  {
    if FreeFor(s, s.starts[c].session) {
      forall x | x != s.starts[c].session ensures Held(s, x) == 0 {
      }
    }
    if forall x | x != s.starts[c].session :: Held(s, x) == 0 {
      forall other | other in s.held && other != s.starts[c].session ensures s.held[other] == 0 {
        assert Held(s, other) == 0;
      }
    }
  }

  // How a call goes on. It cleans up after any failure between the attempt on the lock and its last unlock;
  // the orchestrator's own failures end in its finally block. Whatever needs the session fails once that is lost.
  lemma GoesOnExactly(s: State, e: Event)
    requires Enabled(s, e) && e.Query?
    ensures var was, now := s.starts[e.call], Step(s, e).starts[e.call];
      && (now.pc == Cleaning && !(was.pc == Preparing && e.outcome == Succeeds) <==>
            e.outcome != Succeeds && (was.pc == TryLock || was.pc == Preparing || was.pc == Finalizing
                                      || was.pc == UnlockingEmpty))
      && (was.pc == Preparing && e.outcome == Succeeds ==>
            now.pc == e.next && (now.pc == Preparing || now.pc == Finalizing || now.pc == Running))
      && (was.pc == Finalizing && e.outcome == Succeeds ==> now.pc == UnlockingEmpty)
      && (was.pc == UnlockingEmpty && e.outcome == Succeeds ==> now.pc == Done)
      && (was.pc == Running ==> now.pc == e.next && (now.pc == Running || now.pc == UnlockingFinal))
      && (was.pc == UnlockingFinal || was.pc == Cleaning ==> now.pc == Done)
      && (was.session in s.lost && was.pc != Preparing && was.pc != Finalizing && was.pc != Running ==>
            e.outcome == FailsUnapplied)
  {
    hide FreeFor, Held, Owed;
  }

  // Where a prepared call may go, and a running one: to more of the same, to finalizing at once or to the
  // orchestrator; and to more of the same or to its finally block.
  lemma MayGoOn(s: State, c: Call, outcome: Outcome, next: Pc)
    requires c in s.starts
    ensures s.starts[c].pc == Preparing ==>
      (Enabled(s, Query(c, outcome, next)) <==> next == Preparing || next == Finalizing || next == Running)
    ensures s.starts[c].pc == Running ==>
      (Enabled(s, Query(c, outcome, next)) <==> next == Running || next == UnlockingFinal)
  {
  }

  // An unlock that takes effect gives back one acquisition of the call's session, if it has one; one that does
  // not takes back none. No other query changes what is held, but an attempt on a free lock that takes effect.
  lemma HeldExactly(s: State, e: Event)
    requires Enabled(s, e) && e.Query?
    ensures var was, x := s.starts[e.call], s.starts[e.call].session;
      var unlocks := was.pc == UnlockingEmpty || was.pc == UnlockingFinal || was.pc == Cleaning;
      var takes := was.pc == TryLock && FreeFor(s, x);
      Held(Step(s, e), x) == Held(s, x)
        + (if takes && e.outcome != FailsUnapplied then 1 else 0)
        - (if unlocks && e.outcome != FailsUnapplied && Held(s, x) > 0 then 1 else 0)
  {
    hide FreeFor;
  }

  // A call begins on a session of its own, and a session that is lost holds nothing.
  lemma BeginsExactly(s: State, e: Event)
    requires Enabled(s, e) && !e.Query?
    ensures var t := Step(s, e);
      && t.owed == s.owed
      && (e.Connect? ==>
            && t == s.(starts := t.starts) && t.starts == s.starts[e.call := Start(e.session, TryLock, 0, false)]
            && e.call !in s.starts && e.session !in s.lost
            && forall d | d in s.starts && s.starts[d].session == e.session :: s.starts[d].pc == Done)
      && (e.Lose? ==>
            && t.starts == s.starts && t.lost == s.lost + {e.session}
            && forall x :: Held(t, x) == if x == e.session then 0 else Held(s, x))
  {
  }

  // ------------------------------------------------------------------------------------------
  // When the lock is free again.

  // Once all calls are over, no session holds the lock if and only if nothing is owed on a session that
  // is alive: every acquisition was given back, by its own call or by a later one in its stead.
  lemma FreeWhenOver(trace: seq<State>, events: seq<Event>, i: nat)
    requires Runs(trace, events) && i < |trace|
    requires forall c | c in trace[i].starts :: trace[i].starts[c].pc.Done?
    ensures (forall session :: FreeFor(trace[i], session) && Held(trace[i], session) == 0)
       <==> forall session | session !in trace[i].lost :: Owed(trace[i], session) == 0
  {
    hide Step, Enabled;
    AlwaysInv(trace, events, i);
    var s := trace[i];
    assert forall x | x !in s.lost :: Held(s, x) == Owed(s, x) by {
      assert forall x, c :: !Keeps(s, c, x);
    }
    if forall session | session !in s.lost :: Owed(s, session) == 0 {
      forall session ensures FreeFor(s, session) && Held(s, session) == 0 {
        assert forall other | other in s.held :: s.held[other] == Held(s, other);
      }
    }
  }

  // What is owed on a session changes only at the end of a call, and exactly so: it grows when the call
  // ends with what it got, and shrinks when a start that got nothing unlocks all the same. In particular
  // a failed unlock before the end is made good by one that succeeds at the end.
  lemma OwedExactly(s: State, e: Event)
    requires Inv(s) && Enabled(s, e) && e.Query? && s.starts[e.call].session !in s.lost
    ensures var was, t, x := s.starts[e.call], Step(s, e), s.starts[e.call].session;
      && (Owed(t, x) == Owed(s, x) + 1 <==>
            (was.pc.UnlockingFinal? || was.pc.Cleaning?) && was.got && e.outcome.FailsUnapplied?)
      && (Owed(t, x) == Owed(s, x) - 1 <==>
            was.pc.Cleaning? && !was.got && Owed(s, x) > 0 && !e.outcome.FailsUnapplied?)
      && Owed(s, x) - 1 <= Owed(t, x) <= Owed(s, x) + 1
  {
    SessionBalance(s, e.call);
    hide FreeFor, OneHolder, Exclusive, ReleasedOnce, Balanced;
  }

  // The last unlock of a call decides about the next start on another session: it is refused if and only
  // if the call's session still holds the lock after that unlock.
  lemma LastUnlockDecides(s: State, c: Call, d: Call, outcome: Outcome)
    requires Inv(s) && c in s.starts && (s.starts[c].pc.UnlockingFinal? || s.starts[c].pc.Cleaning?)
    requires s.starts[c].session !in s.lost && Held(s, s.starts[c].session) > 0
    requires d in s.starts && s.starts[d].pc.TryLock? && s.starts[d].session !in s.lost
    ensures var unlock, tryLock := Query(c, outcome, Done), Query(d, Succeeds, Done);
      && d != c && Enabled(s, unlock) && Enabled(Step(s, unlock), tryLock)
      && var t := Step(Step(s, unlock), tryLock);
         && t.starts[c].pc.Done?
         && (t.starts[d].pc.Done? <==> outcome.FailsUnapplied? || Held(s, s.starts[c].session) > 1)
         && (!t.starts[d].pc.Done? ==> t.starts[d].pc.Preparing?)
  {
    var x, y, unlock := s.starts[c].session, s.starts[d].session, Query(c, outcome, Done);
    assert x != y;
    var mid := Step(s, unlock);
    QueryEffect(s, unlock);
    assert Held(mid, x) == Held(s, x) - (if outcome.FailsUnapplied? then 0 else 1);
    assert FreeFor(mid, y) <==> Held(mid, x) == 0 by {
      assert forall other | other in mid.held && other != x :: Held(mid, other) == Held(s, other) == 0;
    }
    hide FreeFor, Held, Balanced, OneHolder;
  }

  // The finally block of a rollout that ran: on a session that owes nothing else, starts elsewhere are
  // refused from then on if and only if its unlock was without effect.
  lemma FinallyDecides(s: State, c: Call, d: Call, outcome: Outcome)
    requires Inv(s) && c in s.starts && s.starts[c].pc.UnlockingFinal? && s.starts[c].session !in s.lost
    requires Owed(s, s.starts[c].session) == 0
    requires d in s.starts && s.starts[d].pc.TryLock? && s.starts[d].session !in s.lost
    ensures var unlock, tryLock := Query(c, outcome, Done), Query(d, Succeeds, Done);
      && Enabled(s, unlock) && Enabled(Step(s, unlock), tryLock)
      && (Step(Step(s, unlock), tryLock).starts[d].pc.Done? <==> outcome.FailsUnapplied?)
  {
    SessionBalance(s, c);
    hide Step, Enabled, Balanced;
    LastUnlockDecides(s, c, d, outcome);
  }

  // The catch block of a start that got the lock and then failed: the same. The session does not die with
  // the failed unlock, it goes back to the pool with the lock.
  lemma CatchDecides(s: State, c: Call, d: Call, outcome: Outcome)
    requires Inv(s) && c in s.starts && s.starts[c].pc.Cleaning? && s.starts[c].got && s.starts[c].session !in s.lost
    requires Owed(s, s.starts[c].session) == 0
    requires d in s.starts && s.starts[d].pc.TryLock? && s.starts[d].session !in s.lost
    ensures var unlock, tryLock := Query(c, outcome, Done), Query(d, Succeeds, Done);
      && Enabled(s, unlock) && Enabled(Step(s, unlock), tryLock)
      && (Step(Step(s, unlock), tryLock).starts[d].pc.Done? <==> outcome.FailsUnapplied?)
  {
    SessionBalance(s, c);
    hide Step, Enabled, Balanced;
    LastUnlockDecides(s, c, d, outcome);
  }

  // ------------------------------------------------------------------------------------------
  // Where the lock does not reach.

  // The orchestrator does not notice that its session is lost: another may then run beside it.
  lemma LostSessionAdmitsTwo(s: State, c: Call, d: Call)
    requires Inv(s) && c in s.starts && s.starts[c].pc.Running? && s.starts[c].session !in s.lost
    requires d in s.starts && s.starts[d].pc.TryLock? && s.starts[d].session !in s.lost
    ensures var lose, tryLock, prepare := Lose(s.starts[c].session), Query(d, Succeeds, Done),
      Query(d, Succeeds, Running);
      && Enabled(s, lose) && Enabled(Step(s, lose), tryLock) && Enabled(Step(Step(s, lose), tryLock), prepare)
      && var t := Step(Step(Step(s, lose), tryLock), prepare);
         c != d && t.starts[c].pc.Running? && t.starts[d].pc.Running?
  {
    var afterLoss := Step(s, Lose(s.starts[c].session));
    assert FreeFor(afterLoss, s.starts[d].session) by { SessionBalance(s, c); }
  }
}
