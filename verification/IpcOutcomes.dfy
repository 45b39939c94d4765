/** How every lifecycle call of the IPC client ends, whatever its calls bring back and whoever comes meanwhile. */
module IpcOutcomes {
  import opened Words
  import opened IpcLifecycle

  // ---- others

  /** In the middle of a change. */
  ghost predicate Changing(s: Proxy, c: nat) { c in s.callers && s.callers[c] != Operating }

  predicate Answers(e: Event, c: nat) { e.Reply? && e.c == c }

  /** While one caller changes the state, whatever another one tries leaves everything as it is. */
  lemma OthersTurnedAway(s: Proxy, e: Event, c: nat)
    requires Good(s) && Changing(s, c) && Enabled(s, e) && !Answers(e, c)
    ensures Next(s, e) == s
  {
    assert CallerOk(s, s.callers[c]);
  }

  /** In a run the caller `c` is at work in, its calls bring back `outcomes`. */
  predicate Follows(s: Proxy, c: nat, outcomes: Caller -> Outcome, run: seq<Event>)
    requires Possible(s, run)
    decreases |run|
  {
    run == []
    || (&& c in s.callers && s.callers[c] != Operating
        && (Answers(run[0], c) ==>
              var o := outcomes(s.callers[c]); run[0].ok == o.ok && run[0].answer == o.answer && run[0].up == o.up)
        && Follows(Next(s, run[0]), c, outcomes, run[1..]))
  }

  /** So every interleaving in which a caller returns ends as if it had been alone. */
  lemma {:induction false} AsIfAlone(s: Proxy, c: nat, outcomes: Caller -> Outcome, run: seq<Event>)
    requires Good(s) && Changing(s, c) && Possible(s, run) && Follows(s, c, outcomes, run) && c !in After(s, run).callers
    ensures After(s, run) == Carried(s, c, outcomes)
    decreases |run|
  {
    assert run != [];
    var t := Next(s, run[0]);
    if Answers(run[0], c) {
      ReplyGood(s, run[0]);
      CarriedStep(s, c, outcomes, t);
      hide Carried, Next, Good;
      if c in t.callers {
        AsIfAlone(t, c, outcomes, run[1..]);
      } else {
        assert run[1..] == [] by { assert Follows(t, c, outcomes, run[1..]); }
        CarriedDone(t, c, outcomes);
      }
    } else {
      OthersTurnedAway(s, run[0], c);
      hide Carried, Next, Good;
      AsIfAlone(t, c, outcomes, run[1..]);
    }
  }

  // ---- how each call ends

  /** A client up or down, in a state, and nobody at work. */
  ghost predicate Ends(s: Proxy, state: State, started: bool) {
    s.state == state && s.started == started && s.callers == map[]
  }

  /** After a stop. */
  ghost predicate EndsStopped(s: Proxy, stop: Outcome, state: State) {
    if stop.ok then Ends(s, state, false) else Ends(s, FailedStopping, stop.up)
  }

  ghost predicate Idle(s: Proxy) { s.callers == map[] && ClientOk(s.state, s.started) }

  ghost predicate SuspendSays(s: Proxy, t: Proxy, outcomes: Caller -> Outcome) {
    if s.state == FailedStopping || (s.state in {Running, FailedSuspending} && outcomes(SuspendCall(s.state)).answer == Accepted) then
      EndsStopped(t, outcomes(SuspendStop), Suspended)
    else if s.state == Running && outcomes(SuspendCall(Running)).answer == TransportError then Ends(t, FailedSuspending, true)
    else t == s
  }

  /** After the remote call of a resume, the client being up. */
  ghost predicate AnswerSays(t: Proxy, entry: State, outcomes: Caller -> Outcome) {
    match outcomes(ResumeCall(entry)).answer
    case Accepted => Ends(t, Running, true)
    case TransportError => Ends(t, FailedResuming, true)
    case Rejected =>
      if entry == FailedSuspending then Ends(t, FailedSuspending, true) else EndsStopped(t, outcomes(ResumeReject), Suspended)
  }

  ghost predicate ResumeSays(s: Proxy, t: Proxy, outcomes: Caller -> Outcome) {
    if s.state == FailedStopping && !outcomes(ResumeStop).ok then Ends(t, FailedStopping, outcomes(ResumeStop).up)
    else if s.state in {Suspended, FailedStopping} && !outcomes(ResumeStart(s.state)).ok then Ends(t, Suspended, false)
    else if s.state in {Suspended, FailedStopping} && !outcomes(ResumeHandler(s.state)).ok then
      EndsStopped(t, outcomes(ResumeUndo), Suspended)
    else if s.state in {Suspended, FailedStopping, FailedSuspending, FailedResuming} then
      AnswerSays(t, s.state, outcomes)
    else t == s
  }

  ghost predicate DestroySays(s: Proxy, t: Proxy, outcomes: Caller -> Outcome) {
    if s.state in {Uninitialized, Suspending, Resuming, Finalizing} then t == s
    else EndsStopped(t, outcomes(DestroyStop), Uninitialized)
  }

  ghost predicate InitializeSays(s: Proxy, t: Proxy, outcomes: Caller -> Outcome) {
    if s.state != Uninitialized || !outcomes(InitStart).ok then t == s
    else if outcomes(InitHandler).ok then Ends(t, Running, true)
    else Ends(t, Uninitialized, !outcomes(InitStop).ok && outcomes(InitStop).up)
  }

  lemma SuspendEnds(s: Proxy, c: nat, outcomes: Caller -> Outcome)
    requires Idle(s)
    ensures SuspendSays(s, Carried(Next(s, Suspend(c)), c, outcomes), outcomes)
  {
    var a := Suspends(s, c);
    hide Carried;
    if s.state == Running {
      SuspendOutcome(s, c, outcomes);
    } else if s.state == FailedStopping {
      StopEnds(a, c, outcomes, Suspended, outcomes(SuspendStop), true);
    } else if s.state == FailedSuspending {
      if outcomes(a.callers[c]).answer == Accepted {
        var b := At(a, c, SuspendStop);
        CarriedStep(a, c, outcomes, b);
        StopEnds(b, c, outcomes, Suspended, outcomes(SuspendStop), true);
      } else {
        SetOutcome(a, c, outcomes, FailedSuspending, false, true, s);
      }
    } else {
      CarriedDone(s, c, outcomes);
    }
  }

  /** A caller whose last call is a stop. */
  lemma StopEnds(a: Proxy, c: nat, outcomes: Caller -> Outcome, state: State, stop: Outcome, ok: bool)
    requires a.callers.Keys == {c} && a.callers[c] != Operating && stop == outcomes(a.callers[c])
    requires Proceeds(a, c, stop.ok, stop.answer, stop.up)
      == At(a, c, Setting(if stop.ok then state else FailedStopping, stop.ok && ok)).(started := !stop.ok && stop.up)
    ensures EndsStopped(Carried(a, c, outcomes), stop, state)
  {
    var s := a.(callers := map[]);
    assert a.callers - {c} == map[];
    SetOutcome(a, c, outcomes, if stop.ok then state else FailedStopping, stop.ok && ok, !stop.ok && stop.up, s);
  }

  /** The part of a resume after the client is up. */
  lemma CallEnds(a: Proxy, c: nat, outcomes: Caller -> Outcome, entry: State)
    requires a.callers == map[c := ResumeCall(entry)] && a.started
    ensures AnswerSays(Carried(a, c, outcomes), entry, outcomes)
  {
    hide Carried;
    var s := a.(callers := map[]);
    assert a.callers - {c} == map[];
    match outcomes(ResumeCall(entry)).answer
    case Accepted => SetOutcome(a, c, outcomes, Running, true, true, s);
    case TransportError => SetOutcome(a, c, outcomes, FailedResuming, false, true, s);
    case Rejected =>
      if entry == FailedSuspending {
        SetOutcome(a, c, outcomes, FailedSuspending, false, true, s);
      } else {
        var b := At(a, c, ResumeReject);
        CarriedStep(a, c, outcomes, b);
        StopEnds(b, c, outcomes, Suspended, outcomes(ResumeReject), false);
      }
  }

  /** The part of a resume that starts a client that is down. */
  lemma StartEnds(a: Proxy, c: nat, outcomes: Caller -> Outcome, entry: State)
    requires a.callers == map[c := ResumeStart(entry)] && !a.started
    ensures var t := Carried(a, c, outcomes);
      if !outcomes(ResumeStart(entry)).ok then Ends(t, Suspended, false)
      else if !outcomes(ResumeHandler(entry)).ok then EndsStopped(t, outcomes(ResumeUndo), Suspended)
      else AnswerSays(t, entry, outcomes)
  {
    hide Carried;
    if !outcomes(ResumeStart(entry)).ok {
      assert a.callers - {c} == map[];
      SetOutcome(a, c, outcomes, Suspended, false, false, a.(callers := map[]));
    } else {
      var b := At(a, c, ResumeHandler(entry)).(started := true);
      CarriedStep(a, c, outcomes, b);
      var d := At(b, c, if outcomes(ResumeHandler(entry)).ok then ResumeCall(entry) else ResumeUndo);
      CarriedStep(b, c, outcomes, d);
      if !outcomes(ResumeHandler(entry)).ok {
        StopEnds(d, c, outcomes, Suspended, outcomes(ResumeUndo), false);
      } else {
        CallEnds(d, c, outcomes, entry);
      }
    }
  }

  lemma ResumeEnds(s: Proxy, c: nat, outcomes: Caller -> Outcome)
    requires Idle(s)
    ensures ResumeSays(s, Carried(Next(s, Resume(c)), c, outcomes), outcomes)
  {
    var a := Resumes(s, c);
    hide Carried;
    if s.state in {FailedSuspending, FailedResuming} {
      CallEnds(a, c, outcomes, s.state);
    } else if s.state in {Suspended, FailedStopping} {
      var b := a;
      var stop := outcomes(ResumeStop);
      if s.state == FailedStopping {
        if !stop.ok {
          assert a.callers - {c} == map[];
          SetOutcome(a, c, outcomes, FailedStopping, false, stop.up, s);
          return;
        }
        b := At(a, c, ResumeStart(FailedStopping)).(started := false);
        CarriedStep(a, c, outcomes, b);
      }
      assert b.callers == map[c := ResumeStart(s.state)];
      StartEnds(b, c, outcomes, s.state);
    } else {
      CarriedDone(s, c, outcomes);
    }
  }

  lemma DestroyEnds(s: Proxy, c: nat, outcomes: Caller -> Outcome)
    requires Idle(s)
    ensures DestroySays(s, Carried(Next(s, Destroy(c)), c, outcomes), outcomes)
  {
    hide Carried;
    if s.state in {Uninitialized, Suspending, Resuming, Finalizing} {
      CarriedDone(s, c, outcomes);
    } else {
      StopEnds(Destroys(s, c), c, outcomes, Uninitialized, outcomes(DestroyStop), true);
    }
  }

  lemma InitializeEnds(s: Proxy, c: nat, outcomes: Caller -> Outcome)
    requires Idle(s)
    ensures InitializeSays(s, Carried(Next(s, Initialize(c)), c, outcomes), outcomes)
  {
    hide Carried;
    if s.state != Uninitialized {
      CarriedDone(s, c, outcomes);
    } else {
      var a := At(s, c, InitStart);
      assert a.callers - {c} == map[];
      if !outcomes(InitStart).ok {
        CarriedStep(a, c, outcomes, s);
        CarriedDone(s, c, outcomes);
      } else {
        var b := At(s, c, InitHandler).(started := true);
        CarriedStep(a, c, outcomes, b);
        HandlerEnds(b, c, outcomes);
      }
    }
  }

  lemma HandlerEnds(a: Proxy, c: nat, outcomes: Caller -> Outcome)
    requires a.state == Uninitialized && a.started && a.callers == map[c := InitHandler]
    ensures var t := Carried(a, c, outcomes);
      if outcomes(InitHandler).ok then Ends(t, Running, true)
      else Ends(t, Uninitialized, !outcomes(InitStop).ok && outcomes(InitStop).up)
  {
    hide Carried;
    var none: map<nat, Caller> := map[];
    assert a.callers - {c} == none;
    if outcomes(InitHandler).ok {
      var b := Proxy(Running, true, none);
      CarriedStep(a, c, outcomes, b);
      CarriedDone(b, c, outcomes);
    } else {
      var b := At(a, c, InitStop);
      assert b.callers - {c} == none;
      CarriedStep(a, c, outcomes, b);
      var d := Proxy(Uninitialized, !outcomes(InitStop).ok && outcomes(InitStop).up, none);
      CarriedStep(b, c, outcomes, d);
      CarriedDone(d, c, outcomes);
    }
  }

  // ---- in every run

  ghost predicate CallSays(s: Proxy, e: Event, t: Proxy, outcomes: Caller -> Outcome)
    requires IsCall(e)
  {
    match e
    case Suspend(_) => SuspendSays(s, t, outcomes)
    case Resume(_) => ResumeSays(s, t, outcomes)
    case Destroy(_) => DestroySays(s, t, outcomes)
    case Initialize(_) => InitializeSays(s, t, outcomes)
  }

  /**
    From a fresh start, after anything at all: a lifecycle call leaves what its own calls decide,
    whatever other callers attempt before it returns.
    */
  lemma CallInRun(before: seq<Event>, e: Event, outcomes: Caller -> Outcome, run: seq<Event>)
    requires Possible(START, before) && IsCall(e) && Enabled(After(START, before), e)
    requires var s := After(START, before); Possible(Next(s, e), run) && Follows(Next(s, e), e.c, outcomes, run)
    requires e.c !in After(Next(After(START, before), e), run).callers
    ensures var s := After(START, before); CallSays(s, e, After(Next(s, e), run), outcomes)
  {
    var s := After(START, before);
    RunGood(START, before);
    EnterGood(s, e);
    var t := Next(s, e);
    if Changing(t, e.c) {
      AsIfAlone(t, e.c, outcomes, run);
    } else {
      assert run == [];
      CarriedDone(t, e.c, outcomes);
    }
    if !Moving(s.state) {
      NobodyAtWork(s);
      hide Carried, Next, Good, SuspendSays, ResumeSays, DestroySays, InitializeSays;
      match e
      case Suspend(c) => SuspendEnds(s, c, outcomes);
      case Resume(c) => ResumeEnds(s, c, outcomes);
      case Destroy(c) => DestroyEnds(s, c, outcomes);
      case Initialize(c) => InitializeEnds(s, c, outcomes);
    }
  }

  /** When the lock is free and no change is under way, nobody is at work. */
  lemma NobodyAtWork(s: Proxy)
    requires Good(s) && Writable(s) && !Moving(s.state)
    ensures Idle(s)
  {
    assert forall c :: c !in s.callers;
    assert s.callers == map[];
  }

  /** An operation is let in exactly when the client is running or was never set up; else it is told why not. */
  lemma OperationSays(s: Proxy, c: nat)
    requires Enabled(s, Operate(c))
    ensures var t, told := Next(s, Operate(c)), OperationError(s.state);
      && (told == None <==> s.state == Running || s.state == Uninitialized)
      && (told == None ==> c in t.callers && t.callers[c] == Operating && t.callers - {c} == s.callers)
      && (told != None ==> t == s)
      && (told == Some("suspended") <==> s.state == Suspended)
      && (told == Some("busy") <==> s.state in {Suspending, Resuming, Finalizing})
      && (told == Some("failed") <==> s.state in {FailedSuspending, FailedStopping, FailedResuming})
  {
    assert "suspended"[0] == 's' && "busy"[0] == 'b' && "failed"[0] == 'f';
  }

  // ---- nobody waits in vain

  /** While a change is under way, another lifecycle call and an operation are answered at once, and told so. */
  lemma BusyAtOnce(s: Proxy, c: nat)
    requires Good(s) && Moving(s.state) && c !in s.callers
    ensures forall e: Event :: (IsCall(e) || e.Operate?) && e.c == c ==> Enabled(s, e) && Next(s, e) == s
    ensures forall e: Event :: IsCall(e) && e.c == c && Enabled(s, e) ==> Reported(s, e) == Some(false)
    ensures OperationError(s.state) == Some("busy")
  {
    var d :| d in s.callers && s.callers[d] != Operating;
    assert CallerOk(s, s.callers[d]);
    assert forall x :: x in s.callers ==> x == d;
  }

  /** Operations run side by side: one is let in however many are inside. */
  lemma OperationsShare(s: Proxy, c: nat)
    requires Good(s) && s.state == Running && c !in s.callers
    ensures Enabled(s, Operate(c))
    ensures var t := Next(s, Operate(c));
      && t.state == Running && t.started && t.callers.Keys == s.callers.Keys + {c}
      && forall d :: d in t.callers ==> t.callers[d] == Operating
  {
    assert forall d :: d in s.callers ==> CallerOk(s, s.callers[d]);
  }
}
