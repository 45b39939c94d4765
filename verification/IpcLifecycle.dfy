/**
  The lifecycle of the IPC client under concurrent callers: the shared state guarded by a
  read-write lock, and the fallible start, stop and remote calls made between lock sections.
  */
module IpcLifecycle {
  import opened Words

  datatype State =
    | Uninitialized | Running | Suspending | Suspended | Resuming | Finalizing
    | FailedSuspending | FailedStopping | FailedResuming

  /** The result of a remote call. */
  datatype Answer = Accepted | Rejected | TransportError

  /** What a caller is in the middle of; Initialize keeps the write lock throughout. */
  datatype Caller =
    | Operating
    | InitStart | InitHandler | InitStop
    | SuspendCall(entry: State) | SuspendStop
    | ResumeStop | ResumeStart(entry: State) | ResumeHandler(entry: State) | ResumeUndo
    | ResumeCall(entry: State) | ResumeReject
    | DestroyStop
    | Setting(to: State, ok: bool)

  /** `started` tells whether the local client is up. */
  datatype Proxy = Proxy(state: State, started: bool, callers: map<nat, Caller>)

  const START := Proxy(Uninitialized, false, map[])

  datatype Event =
    | Operate(c: nat) | Initialize(c: nat) | Suspend(c: nat) | Resume(c: nat) | Destroy(c: nat)
    | Done(c: nat)
    | Reply(c: nat, ok: bool, answer: Answer, up: bool)

  predicate Initializing(x: Caller) { x.InitStart? || x.InitHandler? || x.InitStop? }

  /** Nobody holds the write lock across a call. */
  predicate Readable(s: Proxy) {
    forall c :: c in s.callers ==> !Initializing(s.callers[c])
  }

  /** Nobody holds the lock at all. */
  predicate Writable(s: Proxy) {
    Readable(s) && forall c :: c in s.callers ==> s.callers[c] != Operating
  }

  predicate Enabled(s: Proxy, e: Event) {
    match e
    case Operate(c) => c !in s.callers && Readable(s)
    case Initialize(c) => c !in s.callers && Writable(s)
    case Suspend(c) => c !in s.callers && Writable(s)
    case Resume(c) => c !in s.callers && Writable(s)
    case Destroy(c) => c !in s.callers && Writable(s)
    case Done(c) => c in s.callers && s.callers[c] == Operating
    case Reply(c, _, _, _) => c in s.callers && s.callers[c] != Operating && (s.callers[c].Setting? ==> Writable(s))
  }

  function At(s: Proxy, c: nat, x: Caller): Proxy { s.(callers := s.callers[c := x]) }

  function Gone(s: Proxy, c: nat): Proxy { s.(callers := s.callers - {c}) }

  /** What an operation is told before it may use the client; None lets it run. */
  function OperationError(state: State): Option<string> {
    match state
    case Running => None
    case Uninitialized => None
    case Suspended => Some("suspended")
    case Suspending => Some("busy")
    case Resuming => Some("busy")
    case Finalizing => Some("busy")
    case _ => Some("failed")
  }

  function Suspends(s: Proxy, c: nat): Proxy {
    match s.state
    case Running => At(s, c, SuspendCall(Running)).(state := Suspending)
    case FailedSuspending => At(s, c, SuspendCall(FailedSuspending)).(state := Suspending)
    case FailedStopping => At(s, c, SuspendStop).(state := Suspending)
    case _ => s
  }

  function Resumes(s: Proxy, c: nat): Proxy {
    match s.state
    case FailedSuspending => At(s, c, ResumeCall(FailedSuspending)).(state := Resuming)
    case FailedResuming => At(s, c, ResumeCall(FailedResuming)).(state := Resuming)
    case FailedStopping => At(s, c, ResumeStop).(state := Resuming)
    case Suspended => At(s, c, ResumeStart(Suspended)).(state := Resuming)
    case _ => s
  }

  function Destroys(s: Proxy, c: nat): Proxy {
    match s.state
    case Uninitialized => s
    case Suspending => s
    case Resuming => s
    case Finalizing => s
    case _ => At(s, c, DestroyStop).(state := Finalizing)
  }

  /** A stop either brings the client down, or fails and leaves it in whatever condition `up` says. */
  function Stopped(s: Proxy, ok: bool, up: bool): Proxy { s.(started := !ok && up) }

  /** A start either brings the client up, or fails and leaves it as it was. */
  function Started(s: Proxy, ok: bool): Proxy { s.(started := ok || s.started) }

  /** A call of a caller returns, and the caller goes on. */
  function Proceeds(s: Proxy, c: nat, ok: bool, answer: Answer, up: bool): Proxy
    requires c in s.callers
  {
    match s.callers[c]
    case Operating => s
    case InitStart => if ok then At(Started(s, ok), c, InitHandler) else Gone(Started(s, ok), c)
    case InitHandler => if ok then Gone(s, c).(state := Running) else At(s, c, InitStop)
    case InitStop => Gone(Stopped(s, ok, up), c)
    case SuspendCall(entry) =>
      if answer == Accepted then At(s, c, SuspendStop)
      else At(s, c, Setting(if entry == Running && answer == Rejected then Running else FailedSuspending, false))
    case SuspendStop => At(Stopped(s, ok, up), c, Setting(if ok then Suspended else FailedStopping, ok))
    case ResumeStop =>
      At(Stopped(s, ok, up), c, if ok then ResumeStart(FailedStopping) else Setting(FailedStopping, false))
    case ResumeStart(entry) => At(Started(s, ok), c, if ok then ResumeHandler(entry) else Setting(Suspended, false))
    case ResumeHandler(entry) => At(s, c, if ok then ResumeCall(entry) else ResumeUndo)
    case ResumeUndo => At(Stopped(s, ok, up), c, Setting(if ok then Suspended else FailedStopping, false))
    case ResumeCall(entry) =>
      (match answer
       case Accepted => At(s, c, Setting(Running, true))
       case TransportError => At(s, c, Setting(FailedResuming, false))
       case Rejected => At(s, c, if entry == FailedSuspending then Setting(FailedSuspending, false) else ResumeReject))
    case ResumeReject => At(Stopped(s, ok, up), c, Setting(if ok then Suspended else FailedStopping, false))
    case DestroyStop => At(Stopped(s, ok, up), c, Setting(if ok then Uninitialized else FailedStopping, ok))
    case Setting(to, _) => Gone(s, c).(state := to)
  }

  function Next(s: Proxy, e: Event): Proxy
    requires Enabled(s, e)
  {
    match e
    case Operate(c) => if OperationError(s.state) == None then At(s, c, Operating) else s
    case Initialize(c) => if s.state == Uninitialized then At(s, c, InitStart) else s
    case Suspend(c) => Suspends(s, c)
    case Resume(c) => Resumes(s, c)
    case Destroy(c) => Destroys(s, c)
    case Done(c) => Gone(s, c)
    case Reply(c, ok, answer, up) => Proceeds(s, c, ok, answer, up)
  }

  predicate Possible(s: Proxy, run: seq<Event>)
    decreases |run|
  {
    run == [] || (Enabled(s, run[0]) && Possible(Next(s, run[0]), run[1..]))
  }

  function After(s: Proxy, run: seq<Event>): Proxy
    requires Possible(s, run)
    decreases |run|
  {
    if run == [] then s else After(Next(s, run[0]), run[1..])
  }

  // ---- invariant

  predicate Moving(state: State) { state == Suspending || state == Resuming || state == Finalizing }

  /** What a state promises about the local client. */
  predicate ClientOk(state: State, started: bool) {
    && (state == Running || state == FailedSuspending || state == FailedResuming ==> started)
    && (state == Suspended ==> !started)
  }

  /** A success is reported only with the state the caller asked for. */
  predicate ReportOk(state: State, to: State, ok: bool) {
    && !Moving(to)
    && (state == Suspending ==> (ok <==> to == Suspended))
    && (state == Resuming ==> (ok <==> to == Running))
    && (state == Finalizing ==> (ok <==> to == Uninitialized))
  }

  /** Where a caller that changes the state can be, given state and client. */
  ghost predicate CallerOk(s: Proxy, x: Caller) {
    match x
    case Operating => s.state == Running || s.state == Uninitialized
    case InitStart => s.state == Uninitialized
    case InitHandler => s.state == Uninitialized && s.started
    case InitStop => s.state == Uninitialized
    case SuspendCall(_) => s.state == Suspending && s.started
    case SuspendStop => s.state == Suspending
    case ResumeStop => s.state == Resuming
    case ResumeStart(_) => s.state == Resuming && !s.started
    case ResumeHandler(_) => s.state == Resuming && s.started
    case ResumeUndo => s.state == Resuming
    case ResumeCall(_) => s.state == Resuming && s.started
    case ResumeReject => s.state == Resuming
    case DestroyStop => s.state == Finalizing
    case Setting(to, ok) => Moving(s.state) && ClientOk(to, s.started) && ReportOk(s.state, to, ok)
  }

  /** Operations share the client; anything that changes it is alone. */
  ghost predicate Good(s: Proxy) {
    && ClientOk(s.state, s.started)
    && (forall c :: c in s.callers ==> CallerOk(s, s.callers[c]))
    && (forall c, d :: c in s.callers && d in s.callers && c != d ==> s.callers[c] == Operating && s.callers[d] == Operating)
    && (Moving(s.state) ==> exists c :: c in s.callers && s.callers[c] != Operating)
  }

  /** Entering and leaving: no caller is in the middle of a change. */
  lemma EnterGood(s: Proxy, e: Event)
    requires Good(s) && Enabled(s, e) && !e.Reply?
    ensures Good(Next(s, e))
  {
    var t := Next(s, e);
    if Moving(t.state) {
      if Moving(s.state) {
        var c :| c in s.callers && s.callers[c] != Operating;
        assert c in t.callers && t.callers[c] != Operating;
      } else {
        assert e.c in t.callers && t.callers[e.c] != Operating;
      }
    }
  }

  lemma ReplyGood(s: Proxy, e: Event)
    requires Good(s) && Enabled(s, e) && e.Reply?
    ensures Good(Next(s, e))
  {
    var t, c := Next(s, e), e.c;
    assert forall d :: d in s.callers ==> d == c;
    assert CallerOk(s, s.callers[c]);
    ProceedsOk(s, c, e.ok, e.answer, e.up);
    hide Proceeds, CallerOk;
    assert forall d :: d in t.callers ==> d == c;
    if Moving(t.state) {
      assert c in t.callers && t.callers[c] != Operating;
    }
  }

  lemma ProceedsOk(s: Proxy, c: nat, ok: bool, answer: Answer, up: bool)
    requires c in s.callers && s.callers[c] != Operating && CallerOk(s, s.callers[c]) && ClientOk(s.state, s.started)
    ensures var t := Proceeds(s, c, ok, answer, up);
      && ClientOk(t.state, t.started) && t.callers.Keys <= s.callers.Keys
      && (c in t.callers ==> CallerOk(t, t.callers[c]) && t.callers[c] != Operating)
      && (Moving(t.state) ==> c in t.callers)
  {
  }

  lemma {:induction false} RunGood(s: Proxy, run: seq<Event>)
    requires Good(s) && Possible(s, run)
    ensures Good(After(s, run))
    decreases |run|
  {
    if run != [] {
      if run[0].Reply? {
        ReplyGood(s, run[0]);
      } else {
        EnterGood(s, run[0]);
      }
      RunGood(Next(s, run[0]), run[1..]);
    }
  }

  // ---- results

  /** A call that starts or stops the client, or sets its handler. */
  predicate TouchesClient(x: Caller) {
    x.InitStart? || x.InitHandler? || x.InitStop? || x.SuspendStop? || x.ResumeStop? || x.ResumeStart?
    || x.ResumeHandler? || x.ResumeUndo? || x.ResumeReject? || x.DestroyStop?
  }

  /** In every run: one state change at a time, never beside an operation, and the state tells the truth about the client. */
  lemma OneAtATime(run: seq<Event>)
    requires Possible(START, run)
    ensures var s := After(START, run);
      && ClientOk(s.state, s.started)
      && (forall c, d :: c in s.callers && d in s.callers && s.callers[c] != Operating ==> c == d)
      && (forall c :: c in s.callers && s.callers[c] == Operating ==> s.state == Running || s.state == Uninitialized)
      && (Moving(s.state) <==> exists c :: c in s.callers && s.callers[c] != Operating && !Initializing(s.callers[c]))
  {
    RunGood(START, run);
    var s := After(START, run);
    if Moving(s.state) {
      var c :| c in s.callers && s.callers[c] != Operating;
      assert CallerOk(s, s.callers[c]);
    }
  }

  /** No operation runs while some caller starts or stops the client. */
  lemma NoOverlap(run: seq<Event>, c: nat, d: nat)
    requires Possible(START, run)
    requires c in After(START, run).callers && TouchesClient(After(START, run).callers[c])
    requires d in After(START, run).callers
    ensures After(START, run).callers[d] != Operating
  {
    OneAtATime(run);
  }

  predicate IsCall(e: Event) { e.Initialize? || e.Suspend? || e.Resume? || e.Destroy? }

  /** The state a lifecycle call is named after. */
  function Wanted(s: Proxy, e: Event): State
    requires Enabled(s, e) && (IsCall(e) || e.Reply?)
  {
    match e
    case Initialize(_) => Running
    case Suspend(_) => Suspended
    case Resume(_) => Running
    case Destroy(_) => Uninitialized
    case Reply(c, _, _, _) =>
      if s.state == Suspending then Suspended else if s.state == Finalizing then Uninitialized else Running
  }

  /** What a lifecycle call reports when this step ends it: at once, or after its last call or lock section. */
  function Reported(s: Proxy, e: Event): Option<bool>
    requires Enabled(s, e) && (IsCall(e) || e.Reply?)
  {
    match e
    case Initialize(_) => if s.state == Running then Some(true) else if s.state == Uninitialized then None else Some(false)
    case Suspend(_) =>
      if s.state == Suspended then Some(true)
      else if s.state in {Running, FailedSuspending, FailedStopping} then None else Some(false)
    case Resume(_) =>
      if s.state == Running then Some(true)
      else if s.state == Uninitialized || Moving(s.state) then Some(false) else None
    case Destroy(_) => if s.state == Uninitialized then Some(true) else if Moving(s.state) then Some(false) else None
    case Reply(c, ok, _, _) =>
      match s.callers[c]
      case Setting(_, success) => Some(success)
      case InitStart => if ok then None else Some(false)
      case InitHandler => if ok then Some(true) else None
      case InitStop => Some(false)
      case _ => None
  }

  /**
    In every run, a lifecycle call reports exactly when it ends, and it reports success exactly
    when the state is the one it is named after, with the client up or down as that state says.
    */
  lemma ReportsTruth(run: seq<Event>, e: Event)
    requires Possible(START, run) && Enabled(After(START, run), e) && (IsCall(e) || e.Reply?)
    ensures var s := After(START, run); var t := Next(s, e); var r := Reported(s, e);
      && (r.Some? <==> e.c !in t.callers)
      && (r == Some(true) ==> t.state == Wanted(s, e) && ClientOk(t.state, t.started))
      && (r == Some(false) ==> t.state != Wanted(s, e))
  {
    RunGood(START, run);
    var s := After(START, run);
    if e.Reply? {
      assert CallerOk(s, s.callers[e.c]);
    }
  }

  // ---- whole transitions

  /** What a call of a caller brings back. */
  datatype Outcome = Outcome(ok: bool, answer: Answer, up: bool)

  function Rank(x: Caller): nat {
    match x
    case Operating => 0
    case InitStart => 3
    case InitHandler => 2
    case InitStop => 1
    case SuspendCall(_) => 3
    case SuspendStop => 2
    case ResumeStop => 6
    case ResumeStart(_) => 5
    case ResumeHandler(_) => 4
    case ResumeUndo => 2
    case ResumeCall(_) => 3
    case ResumeReject => 2
    case DestroyStop => 2
    case Setting(_, _) => 1
  }

  /** Whatever its calls bring back, a caller is done after a bounded number of them. */
  lemma CallsReturn(s: Proxy, c: nat, o: Outcome)
    requires c in s.callers && s.callers[c] != Operating
    ensures var t := Proceeds(s, c, o.ok, o.answer, o.up);
      c in t.callers ==> t.callers[c] != Operating && Rank(t.callers[c]) < Rank(s.callers[c])
    ensures Proceeds(s, c, o.ok, o.answer, o.up).callers - {c} == s.callers - {c}
  {
  }

  /** A caller carried through to its return, when nobody else steps in. */
  function Carried(s: Proxy, c: nat, outcomes: Caller -> Outcome): Proxy
    requires c in s.callers ==> s.callers[c] != Operating
    decreases if c in s.callers then Rank(s.callers[c]) else 0
  {
    if c !in s.callers then s
    else
      var o := outcomes(s.callers[c]);
      CallsReturn(s, c, o);
      Carried(Proceeds(s, c, o.ok, o.answer, o.up), c, outcomes)
  }

  lemma CarriedStep(s: Proxy, c: nat, outcomes: Caller -> Outcome, t: Proxy)
    requires c in s.callers && s.callers[c] != Operating
    requires var o := outcomes(s.callers[c]); t == Proceeds(s, c, o.ok, o.answer, o.up)
    ensures c in t.callers ==> t.callers[c] != Operating
    ensures Carried(s, c, outcomes) == Carried(t, c, outcomes)
  {
    CallsReturn(s, c, outcomes(s.callers[c]));
    hide Proceeds;
  }

  /** Suspending a running client ends in exactly one of four ways, decided by the remote call and the stop. */
  lemma SuspendOutcome(s: Proxy, c: nat, outcomes: Caller -> Outcome)
    requires s.state == Running && s.callers == map[]
    ensures var call, stop := outcomes(SuspendCall(Running)).answer, outcomes(SuspendStop);
      Carried(Suspends(s, c), c, outcomes) ==
        if call == Rejected then s
        else if call == TransportError then s.(state := FailedSuspending)
        else if stop.ok then s.(state := Suspended, started := false)
        else s.(state := FailedStopping, started := stop.up)
  {
    var call, stop := outcomes(SuspendCall(Running)).answer, outcomes(SuspendStop);
    var a := Suspends(s, c);
    hide Carried;
    if call == Accepted {
      var b := At(a, c, SuspendStop);
      assert b == a.(callers := map[c := SuspendStop]);
      CarriedStep(a, c, outcomes, b);
      SetOutcome(b, c, outcomes, if stop.ok then Suspended else FailedStopping, stop.ok, !stop.ok && stop.up, s);
    } else {
      var to := if call == Rejected then Running else FailedSuspending;
      SetOutcome(a, c, outcomes, to, false, s.started, s);
    }
  }

  /** The last call of a transition, and the state it leaves. */
  lemma SetOutcome(a: Proxy, c: nat, outcomes: Caller -> Outcome, to: State, ok: bool, started: bool, s: Proxy)
    requires c in a.callers && a.callers[c] != Operating && a.callers - {c} == map[] && s.callers == map[]
    requires var o := outcomes(a.callers[c]);
      Proceeds(a, c, o.ok, o.answer, o.up) == At(a, c, Setting(to, ok)).(started := started)
    ensures Carried(a, c, outcomes) == s.(state := to, started := started)
  {
    var b := At(a, c, Setting(to, ok)).(started := started);
    var e := Gone(b, c).(state := to);
    assert e == s.(state := to, started := started);
    hide Carried;
    CarriedStep(a, c, outcomes, b);
    CarriedStep(b, c, outcomes, e);
    CarriedDone(e, c, outcomes);
  }

  lemma CarriedDone(s: Proxy, c: nat, outcomes: Caller -> Outcome)
    requires c !in s.callers
    ensures Carried(s, c, outcomes) == s
  {
  }

  /** Resuming a suspended client that is granted everything gives the running client back. */
  lemma SuspendResume(s: Proxy, c: nat, outcomes: Caller -> Outcome)
    requires s.state == Running && s.started && s.callers == map[]
    requires forall x :: outcomes(x).ok && outcomes(x).answer == Accepted
    ensures var t := Carried(Suspends(s, c), c, outcomes);
      t == s.(state := Suspended, started := false) && Carried(Resumes(t, c), c, outcomes) == s
  {
    SuspendOutcome(s, c, outcomes);
    var t := s.(state := Suspended, started := false);
    var a := Resumes(t, c);
    var b := At(a.(started := true), c, ResumeHandler(Suspended));
    var d := At(b, c, ResumeCall(Suspended));
    hide Carried;
    CarriedStep(a, c, outcomes, b);
    CarriedStep(b, c, outcomes, d);
    assert d.callers == map[c := ResumeCall(Suspended)];
    SetOutcome(d, c, outcomes, Running, true, true, s);
  }
}
