/**
  The daemon: one store, with the lease manager and the shared-memory manager on top of it. A lease
  call and a step of a request on shared memory each hold their own manager's mutex while their
  store operations go through one by one, so the operations of the two interleave freely, with
  region calls in between. The process may die at any point, also while it recovers.
  */
module Daemon {
  import opened Words
  import opened StoreSpec
  import opened StoreTheorems
  import opened StoreResults
  import opened StoreCalls
  import opened PendingCalls
  import opened Engine
  import IdPool
  import L = LeaseSpec
  import R = LeaseRecovery
  import S = ShareSpec
  import T = ShareTheorems
  import U = ShareRuns

  /** What a manager is doing: nothing, or a call with some store operations still to do. */
  datatype Doing<C> = Idle | Doing(call: C, todo: seq<Op>)

  datatype Turn = Turn(n: string, r: S.Reply)

  /** The orders in which the two recoveries walk the stored and the kept names, and the engine's answers. */
  datatype Walk = Walk(leases: seq<string>, enabled: bool, leaseAnswers: string -> Answer,
                       imports: seq<string>, kept: seq<string>, answers: string -> Answer)

  /** Running; recovering from the records it found; or dead with nothing left but the store. */
  datatype Daemon =
    | Up(st: Store, lease: L.Manager, leaseWork: Doing<R.Call>, share: S.System, shareWork: Doing<Turn>)
    | Rising(st: Store, maxBuffered: nat, walk: Walk, found: View, todo: seq<Op>)
    | Down(st: Store, maxBuffered: nat)

  datatype Event =
    | Region(op: Op)
    | LeaseCalled(c: R.Call) | LeaseOp | LeaseReturns
    | Begin(n: string, t: S.Task)
    /** `users` is the order in which a forced removal walks the users of the name. */
    | Advance(n: string, r: S.Reply, users: seq<i32>) | ShareOp | ShareReturns
    | Rise(walk: Walk) | RiseOp | Risen
    | Die

  ghost predicate Walks(users: seq<i32>, s: S.Shm, n: string) {
    Distinct(users) && (n in s.attached ==> Elems(users) == s.attached[n].pids)
  }

  ghost predicate Lists(w: Walk, v: View) {
    && R.Lists(w.leases, v.leases) && Listed(w.imports, v.imports)
    && Listed(w.kept, S.FromRecords(v.imports, v.refs, w.answers).attached)
  }

  predicate ListedNames(w: Walk, v: View) {
    && (forall i :: 0 <= i < |w.leases| ==> w.leases[i] in v.leases)
    && (forall i :: 0 <= i < |w.imports| ==> w.imports[i] in v.imports)
  }

  lemma ListsNames(w: Walk, v: View)
    requires Lists(w, v)
    ensures ListedNames(w, v) && R.Lists(w.leases, v.leases)
  {
  }

  function RecoveryOps(w: Walk, v: View): seq<Op>
    requires ListedNames(w, v)
  {
    [Op.Restart] + RecoverOps(v.leases, w.leases, w.leaseAnswers) + ShareRecoverOps(v.imports, v.refs, w.imports, w.kept, w.answers)
  }

  /** A new name is a C string, and what a call takes for the answer about room is the store's. */
  ghost predicate Runs(st: Store, op: Op, room: bool) {
    Bounded(st) && WellFormed(st, op) && (NeedsRoom(op) ==> (room <==> Fits(st, op)))
  }

  ghost predicate Enabled(d: Daemon, e: Event) {
    match e
    case Region(op) => d.Up? && (op.AddRegion? || op.DelRegion?) && Runs(d.st, op, Fits(d.st, op))
    case LeaseCalled(c) => d.Up? && d.leaseWork.Idle? && !c.DoRestart? && R.Callable(d.lease, c)
    case LeaseOp =>
      d.Up? && d.leaseWork.Doing? && d.leaseWork.todo != [] && Runs(d.st, d.leaseWork.todo[0], LeaseRoom(d.leaseWork.call))
    case LeaseReturns => d.Up? && d.leaseWork.Doing? && d.leaseWork.todo == [] && R.Callable(d.lease, d.leaseWork.call)
    case Begin(n, t) => d.Up? && S.Enabled(d.share, S.Begin(n, t))
    case Advance(n, _, users) => d.Up? && d.shareWork.Idle? && n in d.share.tasks && Walks(users, d.share.shm, n)
    case ShareOp =>
      d.Up? && d.shareWork.Doing? && d.shareWork.todo != [] && Runs(d.st, d.shareWork.todo[0], d.shareWork.call.r.room)
    case ShareReturns => d.Up? && d.shareWork.Doing? && d.shareWork.todo == [] && d.shareWork.call.n in d.share.tasks
    case Rise(w) => d.Down? && Bounded(d.st) && Lists(w, ViewOf(d.st))
    case RiseOp => d.Rising? && d.todo != [] && Runs(d.st, d.todo[0], true)
    case Risen =>
      && d.Rising? && d.todo == [] && Lists(d.walk, d.found)
      && S.Recovered(d.found.imports, d.found.refs, d.walk.answers).Some?
    case Die => !d.Down?
  }

  ghost function RisenAs(w: Walk, v: View, maxBuffered: nat): L.Manager
    requires R.Lists(w.leases, v.leases)
  {
    L.Recovered(v.leases, w.leases, w.leaseAnswers, w.enabled, maxBuffered)
  }

  /** The lease records after the store is reopened and the lease manager has recovered. */
  ghost function LeasesRisen(w: Walk, v: View, maxBuffered: nat): View
    requires R.Lists(w.leases, v.leases)
  {
    v.(leases := RisenAs(w, v, maxBuffered).records)
  }

  ghost function Next(d: Daemon, e: Event): Daemon
    requires Enabled(d, e)
  {
    match e
    case Region(op) => Up(Step(d.st, op).0, d.lease, d.leaseWork, d.share, d.shareWork)
    case LeaseCalled(c) => d.(leaseWork := Doing(c, LeaseOps(d.lease, c)))
    case LeaseOp => d.(st := Step(d.st, d.leaseWork.todo[0]).0, leaseWork := d.leaseWork.(todo := d.leaseWork.todo[1..]))
    case LeaseReturns => d.(lease := R.Called(d.lease, d.leaseWork.call), leaseWork := Idle)
    case Begin(n, t) => d.(share := S.Next(d.share, S.Begin(n, t)))
    case Advance(n, r, users) =>
      d.(shareWork := Doing(Turn(n, r), ShareOps(d.share.shm, n, d.share.tasks[n], r, users)))
    case ShareOp => d.(st := Step(d.st, d.shareWork.todo[0]).0, shareWork := d.shareWork.(todo := d.shareWork.todo[1..]))
    case ShareReturns => d.(share := S.Next(d.share, S.Advance(d.shareWork.call.n, d.shareWork.call.r)), shareWork := Idle)
    case Rise(w) => Rising(d.st, d.maxBuffered, w, ViewOf(d.st), RecoveryOps(w, ViewOf(d.st)))
    case RiseOp => d.(st := Step(d.st, d.todo[0]).0, todo := d.todo[1..])
    case Risen =>
      Up(d.st, RisenAs(d.walk, d.found, d.maxBuffered), Idle,
         S.System(S.Recovered(d.found.imports, d.found.refs, d.walk.answers).value, map[]), Idle)
    case Die => Down(d.st, if d.Up? then d.lease.maxBuffered else d.maxBuffered)
  }

  ghost predicate Possible(d: Daemon, run: seq<Event>)
    decreases |run|
  {
    run == [] || (Enabled(d, run[0]) && Possible(Next(d, run[0]), run[1..]))
  }

  ghost function After(d: Daemon, run: seq<Event>): Daemon
    requires Possible(d, run)
    decreases |run|
  {
    if run == [] then d else After(Next(d, run[0]), run[1..])
  }

  // ---- the invariant

  function OfLeases(records: L.Leases): View { View(map[], records, map[], map[]) }

  function OfShares(s: S.Shm): View { View(map[], map[], s.imports, s.refs) }

  /** The stored leases are the manager's, or its call leads from them to what it will hold. */
  ghost predicate LeaseSide(v: View, m: L.Manager, w: Doing<R.Call>) {
    match w
    case Idle => LeaseView(v) == OfLeases(m.records)
    case Doing(c, todo) =>
      && !c.DoRestart? && R.Callable(m, c) && AllLease(todo)
      && Pending(LeaseView(v), todo, LeaseRoom(c), OfLeases(R.Called(m, c).records))
  }

  /** The same for imports and references. */
  ghost predicate ShareSide(v: View, y: S.System, w: Doing<Turn>) {
    match w
    case Idle => ShareView(v) == OfShares(y.shm)
    case Doing(call, todo) =>
      && call.n in y.tasks && AllShare(todo)
      && Pending(ShareView(v), todo, call.r.room, OfShares(S.Next(y, S.Advance(call.n, call.r)).shm))
  }

  /** Where a recovery leads, if it does not fail. */
  ghost predicate Leads(v: View, w: Walk, found: View, maxBuffered: nat, todo: seq<Op>) {
    && Lists(w, found) && Recoverable(found) && Recoverable(v) && AllSafe(todo)
    && var r := S.Recovered(found.imports, found.refs, w.answers);
       r.Some? ==> Attempts(v, todo, true) == With(LeasesRisen(w, found, maxBuffered), r.value)
  }

  ghost predicate DaemonOk(d: Daemon) {
    && Inv(d.st) && Bounded(d.st)
    && match d
       case Up(st, lease, leaseWork, share, shareWork) =>
         && L.Good(lease) && T.SystemOk(share)
         && LeaseSide(ViewOf(st), lease, leaseWork) && ShareSide(ViewOf(st), share, shareWork)
       case Rising(st, maxBuffered, walk, found, todo) => Leads(ViewOf(st), walk, found, maxBuffered, todo)
       case Down(st, _) => Recoverable(ViewOf(st))
  }

  /** One operation on the store is the operation on the plain maps. */
  lemma StoreDoes(st: Store, op: Op, room: bool)
    requires Inv(st) && Runs(st, op, room)
    ensures var q := Step(st, op).0; Inv(q) && Bounded(q) && ViewOf(q) == Done(ViewOf(st), op, room)
  {
    StepRefines(st, op);
    assert Fits(st, op) <==> (NeedsRoom(op) ==> room);
    hide Inv, Bounded, Step, WellFormed, ViewOf, Legal, Effect, Fits, NeedsRoom;
  }

  // ---- calls of the lease manager

  lemma GoodRecoverable(m: L.Manager)
    requires L.Good(m)
    ensures Recoverable(OfLeases(m.records))
  {
  }

  lemma LeaseStarts(v: View, m: L.Manager, c: R.Call)
    requires L.Good(m) && LeaseSide(v, m, Idle) && !c.DoRestart? && R.Callable(m, c)
    ensures LeaseSide(v, m, Doing(c, LeaseOps(m, c)))
  {
    var ops, after := LeaseOps(m, c), R.Called(m, c);
    R.CallGood(m, c);
    GoodRecoverable(m);
    GoodRecoverable(after);
    hide LeaseOps, Attempts, R.Called, R.Callable, L.Good, Recoverable, CutSafe;
    LeaseOpsLease(m, c);
    LeaseOpsExact(LeaseView(v), m, c);
    if AllSafe(ops) {
      AllSafeCut(LeaseView(v), ops, LeaseRoom(c));
    } else {
      SingleCut(LeaseView(v), ops, LeaseRoom(c));
    }
  }

  lemma LeaseGoesOn(v: View, m: L.Manager, w: Doing<R.Call>)
    requires w.Doing? && w.todo != [] && LeaseSide(v, m, w)
    ensures LeaseSide(Done(v, w.todo[0], LeaseRoom(w.call)), m, w.(todo := w.todo[1..]))
  {
    hide Pending, R.Callable, R.Called, Done, LeaseRoom;
    LeaseApart(v, w.todo[0], LeaseRoom(w.call));
    PendingStep(LeaseView(v), w.todo, LeaseRoom(w.call), OfLeases(R.Called(m, w.call).records));
  }

  lemma LeaseEnds(v: View, m: L.Manager, w: Doing<R.Call>)
    requires w.Doing? && w.todo == [] && L.Good(m) && LeaseSide(v, m, w)
    ensures L.Good(R.Called(m, w.call)) && LeaseSide(v, R.Called(m, w.call), Idle)
  {
    hide R.Callable, R.Called, L.Good;
    R.CallGood(m, w.call);
    PendingDone(LeaseView(v), LeaseRoom(w.call), OfLeases(R.Called(m, w.call).records));
  }

  // ---- steps of requests

  lemma ConsistentRecoverable(y: S.System)
    requires T.SystemOk(y)
    ensures Recoverable(OfShares(y.shm))
  {
    U.InvStoreOk(y);
  }

  lemma ShareStarts(v: View, y: S.System, n: string, r: S.Reply, users: seq<i32>)
    requires T.SystemOk(y) && ShareSide(v, y, Idle) && n in y.tasks && Walks(users, y.shm, n)
    ensures ShareSide(v, y, Doing(Turn(n, r), ShareOps(y.shm, n, y.tasks[n], r, users)))
  {
    var ops, y' := ShareOps(y.shm, n, y.tasks[n], r, users), S.Next(y, S.Advance(n, r));
    U.NextOk(y, S.Advance(n, r));
    assert T.NameOk(n, T.Of(y.shm, n), T.TaskOf(y, n));
    ConsistentRecoverable(y);
    ConsistentRecoverable(y');
    hide T.SystemOk, ShareOps, Attempts, S.Act, Recoverable, CutSafe;
    ShareOpsShare(y.shm, n, y.tasks[n], r, users);
    ShareOpsExact(ShareView(v), y.shm, n, y.tasks[n], r, users);
    ShareCut(ShareView(v), ops, r.room);
  }

  lemma ShareCut(v: View, ops: seq<Op>, room: bool)
    requires Recoverable(v) && Recoverable(Attempts(v, ops, room))
    requires |ops| <= 1 || AllSafe(ops) || (NeedsRoom(ops[0]) && AllSafe(ops[1..]) && Attempt(v, ops[0], room).0 == v)
    ensures CutSafe(v, ops, room)
  {
    hide Recoverable, Attempts, Attempt;
    if AllSafe(ops) {
      AllSafeCut(v, ops, room);
    } else if |ops| <= 1 {
      SingleCut(v, ops, room);
    }
  }

  lemma ShareGoesOn(v: View, y: S.System, w: Doing<Turn>)
    requires w.Doing? && w.todo != [] && ShareSide(v, y, w)
    ensures ShareSide(Done(v, w.todo[0], w.call.r.room), y, w.(todo := w.todo[1..]))
  {
    hide Pending, S.Next, Done;
    ShareApart(v, w.todo[0], w.call.r.room);
    PendingStep(ShareView(v), w.todo, w.call.r.room, OfShares(S.Next(y, S.Advance(w.call.n, w.call.r)).shm));
  }

  lemma ShareEnds(v: View, y: S.System, w: Doing<Turn>)
    requires w.Doing? && w.todo == [] && T.SystemOk(y) && ShareSide(v, y, w)
    ensures var y' := S.Next(y, S.Advance(w.call.n, w.call.r)); T.SystemOk(y') && ShareSide(v, y', Idle)
  {
    U.NextOk(y, S.Advance(w.call.n, w.call.r));
    hide T.SystemOk, S.Next;
    PendingDone(ShareView(v), w.call.r.room, OfShares(S.Next(y, S.Advance(w.call.n, w.call.r)).shm));
  }

  /** A request that takes its mutex does not disturb the step of another one. */
  lemma BeginApart(v: View, y: S.System, w: Doing<Turn>, n: string, t: S.Task)
    requires ShareSide(v, y, w) && S.Enabled(y, S.Begin(n, t))
    ensures ShareSide(v, S.Next(y, S.Begin(n, t)), w)
  {
    hide S.Act, Pending;
  }

  // ---- recovery

  lemma LeaseRecoveryIs(v: View, w: Walk, maxBuffered: nat)
    requires R.Lists(w.leases, v.leases)
    ensures var ops := [Op.Restart] + RecoverOps(v.leases, w.leases, w.leaseAnswers);
      AllSafe(ops) && Attempts(v, ops, true) == LeasesRisen(w, v, maxBuffered)
  {
    One(v, Op.Restart, true);
    hide Attempts, RecoverOps, L.RecoveredFrom;
    RecoverOpsExact(v, L.Manager(map[], [], [], v.leases, w.enabled, maxBuffered), v.leases, w.leases, w.leaseAnswers);
    AttemptsConcat(v, [Op.Restart], RecoverOps(v.leases, w.leases, w.leaseAnswers), true);
  }

  /** Both recoveries, one after the other, on the reopened store. */
  lemma RecoveryOpsAre(v: View, w: Walk, maxBuffered: nat)
    requires Lists(w, v)
    ensures var ops, r := RecoveryOps(w, v), S.Recovered(v.imports, v.refs, w.answers);
      && AllSafe(ops)
      && (r.Some? ==> Attempts(v, ops, true) == With(LeasesRisen(w, v, maxBuffered), r.value))
  {
    assert ListedNames(w, v);
    hide Attempts, RecoverOps, ShareRecoverOps, RisenAs, S.Recovered, S.FromRecords, Listed, R.Lists, Safe;
    LeaseRecoveryIs(v, w, maxBuffered);
    ShareRecoverOpsExact(LeasesRisen(w, v, maxBuffered), w.imports, w.kept, w.answers);
    AttemptsConcat(v, [Op.Restart] + RecoverOps(v.leases, w.leases, w.leaseAnswers),
                   ShareRecoverOps(v.imports, v.refs, w.imports, w.kept, w.answers), true);
  }

  lemma RiseStarts(v: View, w: Walk, maxBuffered: nat)
    requires Recoverable(v) && Lists(w, v)
    ensures Leads(v, w, v, maxBuffered, RecoveryOps(w, v))
  {
    hide Recoverable, Lists, Attempts, S.Recovered, RisenAs, AllSafe;
    RecoveryOpsAre(v, w, maxBuffered);
  }

  lemma RiseGoesOn(v: View, w: Walk, found: View, maxBuffered: nat, todo: seq<Op>)
    requires Leads(v, w, found, maxBuffered, todo) && todo != []
    ensures Leads(Done(v, todo[0], true), w, found, maxBuffered, todo[1..])
  {
    SafeKeeps(v, todo[0]);
    hide Recoverable, Lists, S.Recovered, RisenAs, Attempt;
  }

  lemma RiseEnds(v: View, w: Walk, found: View, maxBuffered: nat)
    requires Leads(v, w, found, maxBuffered, []) && S.Recovered(found.imports, found.refs, w.answers).Some?
    ensures var m, s := RisenAs(w, found, maxBuffered), S.Recovered(found.imports, found.refs, w.answers).value;
      L.Good(m) && T.SystemOk(S.System(s, map[])) && LeaseSide(v, m, Idle) && ShareSide(v, S.System(s, map[]), Idle)
  {
    U.RestartOk(found.imports, found.refs, w.answers);
    var m := L.Manager(map[], [], [], found.leases, w.enabled, maxBuffered);
    assert L.Good(m);
    hide L.Recovered, S.Recovered, R.Lists, Listed, L.Good, T.SystemOk;
    R.RecoveryGood(m, w.leases, w.leaseAnswers, w.enabled);
  }

  // ---- death

  lemma PendingRecoverable(v: View, todo: seq<Op>, room: bool, target: View)
    requires Pending(v, todo, room, target)
    ensures Recoverable(v)
  {
  }

  lemma UpRecoverable(v: View, m: L.Manager, w: Doing<R.Call>, y: S.System, x: Doing<Turn>)
    requires L.Good(m) && T.SystemOk(y) && LeaseSide(v, m, w) && ShareSide(v, y, x)
    ensures Recoverable(v)
  {
    GoodRecoverable(m);
    ConsistentRecoverable(y);
    RecoverableParts(v);
    hide Recoverable, Pending, L.Good, T.SystemOk, R.Callable, R.Called, S.Next;
    if w.Doing? {
      PendingRecoverable(LeaseView(v), w.todo, LeaseRoom(w.call), OfLeases(R.Called(m, w.call).records));
    }
    if x.Doing? {
      PendingRecoverable(ShareView(v), x.todo, x.call.r.room, OfShares(S.Next(y, S.Advance(x.call.n, x.call.r)).shm));
    }
  }

  // ---- every step, every run

  /** A step of the store that leaves both sides in order. */
  lemma UpSteps(d: Daemon, op: Op, room: bool, w: Doing<R.Call>, x: Doing<Turn>)
    requires DaemonOk(d) && d.Up? && Runs(d.st, op, room)
    requires LeaseSide(Done(ViewOf(d.st), op, room), d.lease, w) && ShareSide(Done(ViewOf(d.st), op, room), d.share, x)
    ensures DaemonOk(Up(Step(d.st, op).0, d.lease, w, d.share, x))
  {
    StoreDoes(d.st, op, room);
    hide Inv, Bounded, ViewOf, Step, Done, Runs, LeaseSide, ShareSide, L.Good, T.SystemOk;
  }

  /** The leases are not touched by what the other manager does, nor the shares. */
  lemma LeaseSideFrame(v: View, v': View, m: L.Manager, w: Doing<R.Call>)
    requires LeaseView(v) == LeaseView(v') && LeaseSide(v, m, w)
    ensures LeaseSide(v', m, w)
  {
    hide Pending, R.Callable, R.Called;
  }

  lemma ShareSideFrame(v: View, v': View, y: S.System, x: Doing<Turn>)
    requires ShareView(v) == ShareView(v') && ShareSide(v, y, x)
    ensures ShareSide(v', y, x)
  {
    hide Pending, S.Next;
  }

  lemma RegionStep(d: Daemon, op: Op)
    requires DaemonOk(d) && Enabled(d, Event.Region(op))
    ensures DaemonOk(Next(d, Event.Region(op)))
  {
    var v, room := ViewOf(d.st), Fits(d.st, op);
    hide Inv, Bounded, ViewOf, Step, Done, Runs, LeaseSide, ShareSide, L.Good, T.SystemOk, Fits, LeaseView, ShareView;
    RegionApart(v, op, room);
    LeaseSideFrame(v, Done(v, op, room), d.lease, d.leaseWork);
    ShareSideFrame(v, Done(v, op, room), d.share, d.shareWork);
    UpSteps(d, op, room, d.leaseWork, d.shareWork);
  }

  lemma LeaseSideOps(v: View, m: L.Manager, w: Doing<R.Call>)
    requires w.Doing? && LeaseSide(v, m, w)
    ensures AllLease(w.todo)
  {
    hide Pending, R.Callable;
  }

  lemma ShareSideOps(v: View, y: S.System, x: Doing<Turn>)
    requires x.Doing? && ShareSide(v, y, x)
    ensures AllShare(x.todo)
  {
    hide Pending;
  }

  lemma LeaseOpStep(d: Daemon)
    requires DaemonOk(d) && Enabled(d, LeaseOp)
    ensures DaemonOk(Next(d, LeaseOp))
  {
    hide Inv, Bounded, ViewOf, Recoverable, Lists, Leads, RecoveryOps, Step, Done, Runs, L.Good, T.SystemOk, LeaseSide, ShareSide,
         S.Recovered, RisenAs, S.Next, S.Enabled, R.Callable, R.Called, LeaseOps, ShareOps, LeaseRoom, Walks, Fits, LeaseView, ShareView;
    var v, w := ViewOf(d.st), d.leaseWork;
    var op, room := w.todo[0], LeaseRoom(w.call);
    LeaseSideOps(v, d.lease, w);
    LeaseApart(v, op, room);
    LeaseGoesOn(v, d.lease, w);
    ShareSideFrame(v, Done(v, op, room), d.share, d.shareWork);
    UpSteps(d, op, room, w.(todo := w.todo[1..]), d.shareWork);
    assert Next(d, LeaseOp) == Up(Step(d.st, op).0, d.lease, w.(todo := w.todo[1..]), d.share, d.shareWork);
  }

  lemma ShareOpStep(d: Daemon)
    requires DaemonOk(d) && Enabled(d, ShareOp)
    ensures DaemonOk(Next(d, ShareOp))
  {
    hide Inv, Bounded, ViewOf, Recoverable, Lists, Leads, RecoveryOps, Step, Done, Runs, L.Good, T.SystemOk, LeaseSide, ShareSide,
         S.Recovered, RisenAs, S.Next, S.Enabled, R.Callable, R.Called, LeaseOps, ShareOps, LeaseRoom, Walks, Fits, LeaseView, ShareView;
    var v, x := ViewOf(d.st), d.shareWork;
    var op, room := x.todo[0], x.call.r.room;
    ShareSideOps(v, d.share, x);
    ShareApart(v, op, room);
    ShareGoesOn(v, d.share, x);
    LeaseSideFrame(v, Done(v, op, room), d.lease, d.leaseWork);
    UpSteps(d, op, room, d.leaseWork, x.(todo := x.todo[1..]));
    assert Next(d, ShareOp) == Up(Step(d.st, op).0, d.lease, d.leaseWork, d.share, x.(todo := x.todo[1..]));
  }

  /** Calls that begin or return, without the store. */
  lemma ManagerStep(d: Daemon, e: Event)
    requires DaemonOk(d) && Enabled(d, e) && (e.LeaseCalled? || e.LeaseReturns? || e.Begin? || e.Advance? || e.ShareReturns?)
    ensures DaemonOk(Next(d, e))
  {
    var v := ViewOf(d.st);
    hide Inv, Bounded, ViewOf, Recoverable, Lists, Leads, RecoveryOps, Step, Done, Runs, L.Good, T.SystemOk, LeaseSide, ShareSide,
         S.Recovered, RisenAs, S.Next, S.Enabled, R.Callable, R.Called, LeaseOps, ShareOps, LeaseRoom, Walks, Fits;
    match e
    case LeaseCalled(c) => LeaseStarts(v, d.lease, c);
    case LeaseReturns => LeaseEnds(v, d.lease, d.leaseWork);
    case Begin(n, t) => BeginApart(v, d.share, d.shareWork, n, t); U.NextOk(d.share, S.Begin(n, t));
    case Advance(n, r, users) => ShareStarts(v, d.share, n, r, users);
    case ShareReturns => ShareEnds(v, d.share, d.shareWork);
  }

  lemma RiseStep(d: Daemon, w: Walk)
    requires DaemonOk(d) && Enabled(d, Rise(w))
    ensures DaemonOk(Next(d, Rise(w)))
  {
    hide Inv, Bounded, ViewOf, Recoverable, Lists, Leads, RecoveryOps, Step, Done, Runs, L.Good, T.SystemOk, LeaseSide, ShareSide,
         S.Recovered, RisenAs, S.Next, S.Enabled, R.Callable, R.Called, LeaseOps, ShareOps, LeaseRoom, Walks, Fits;
    assert ListedNames(w, ViewOf(d.st)) by { ListsNames(w, ViewOf(d.st)); }
    RiseStarts(ViewOf(d.st), w, d.maxBuffered);
    assert Next(d, Rise(w)) == Rising(d.st, d.maxBuffered, w, ViewOf(d.st), RecoveryOps(w, ViewOf(d.st)));
  }

  lemma RiseOpStep(d: Daemon)
    requires DaemonOk(d) && Enabled(d, RiseOp)
    ensures DaemonOk(Next(d, RiseOp))
  {
    hide Inv, Bounded, ViewOf, Recoverable, Lists, Leads, RecoveryOps, Step, Done, Runs, L.Good, T.SystemOk, LeaseSide, ShareSide,
         S.Recovered, RisenAs, S.Next, S.Enabled, R.Callable, R.Called, LeaseOps, ShareOps, LeaseRoom, Walks, Fits;
    StoreDoes(d.st, d.todo[0], true);
    RiseGoesOn(ViewOf(d.st), d.walk, d.found, d.maxBuffered, d.todo);
    assert Next(d, RiseOp) == Rising(Step(d.st, d.todo[0]).0, d.maxBuffered, d.walk, d.found, d.todo[1..]);
  }

  lemma RisenStep(d: Daemon)
    requires DaemonOk(d) && Enabled(d, Risen)
    ensures DaemonOk(Next(d, Risen))
  {
    hide Inv, Bounded, ViewOf, Recoverable, Lists, Leads, RecoveryOps, Step, Done, Runs, L.Good, T.SystemOk, LeaseSide, ShareSide,
         S.Recovered, RisenAs, S.Next, S.Enabled, R.Callable, R.Called, LeaseOps, ShareOps, LeaseRoom, Walks, Fits;
    ListsNames(d.walk, d.found);
    RiseEnds(ViewOf(d.st), d.walk, d.found, d.maxBuffered);
    var s := S.Recovered(d.found.imports, d.found.refs, d.walk.answers).value;
    assert Next(d, Risen) == Up(d.st, RisenAs(d.walk, d.found, d.maxBuffered), Idle, S.System(s, map[]), Idle);
  }

  /** Whenever the daemon dies, the records left are ones both managers can recover from. */
  lemma DieStep(d: Daemon)
    requires DaemonOk(d)
    ensures Recoverable(ViewOf(d.st))
  {
    if d.Up? {
      hide Inv, Bounded, ViewOf, Recoverable, L.Good, T.SystemOk, LeaseSide, ShareSide;
      UpRecoverable(ViewOf(d.st), d.lease, d.leaseWork, d.share, d.shareWork);
    }
  }

  lemma DieOk(d: Daemon)
    requires DaemonOk(d) && Enabled(d, Die)
    ensures DaemonOk(Next(d, Die))
  {
    hide Inv, Bounded, ViewOf, Recoverable, Lists, Leads, RecoveryOps, Step, Done, Runs, L.Good, T.SystemOk, LeaseSide, ShareSide,
         S.Recovered, RisenAs, S.Next, S.Enabled, R.Callable, R.Called, LeaseOps, ShareOps, LeaseRoom, Walks, Fits;
    DieStep(d);
    assert Next(d, Die) == Down(d.st, if d.Up? then d.lease.maxBuffered else d.maxBuffered);
  }

  lemma StepOk(d: Daemon, e: Event)
    requires DaemonOk(d) && Enabled(d, e)
    ensures DaemonOk(Next(d, e))
  {
    hide DaemonOk, Enabled, Next;
    match e
    case Region(op) => RegionStep(d, op);
    case LeaseOp => LeaseOpStep(d);
    case ShareOp => ShareOpStep(d);
    case LeaseCalled(_) => ManagerStep(d, e);
    case LeaseReturns => ManagerStep(d, e);
    case Begin(_, _) => ManagerStep(d, e);
    case Advance(_, _, _) => ManagerStep(d, e);
    case ShareReturns => ManagerStep(d, e);
    case Rise(w) => RiseStep(d, w);
    case RiseOp => RiseOpStep(d);
    case Risen => RisenStep(d);
    case Die => DieOk(d);
  }

  /** Every interleaving, deaths and recoveries included, keeps store and managers consistent and in step with each other. */
  lemma {:induction false} RunOk(d: Daemon, run: seq<Event>)
    requires DaemonOk(d) && Possible(d, run)
    ensures DaemonOk(After(d, run))
    decreases |run|
  {
    if run != [] {
      StepOk(d, run[0]);
      hide DaemonOk, Enabled, Next;
      RunOk(Next(d, run[0]), run[1..]);
    }
  }

  // ---- from freshly mapped memory

  /** Zeroed memory, opened for the first time. */
  ghost function Fresh(zero: Store, maxBuffered: nat): Daemon
    requires ZeroMemory(zero)
  {
    Down(Restarted(zero), maxBuffered)
  }

  lemma FreshOk(zero: Store, maxBuffered: nat)
    requires ZeroMemory(zero)
    ensures DaemonOk(Fresh(zero, maxBuffered))
  {
    hide Restarted, Inv, Bounded, ViewOf, ZeroMemory, Recoverable, Owned;
    ZeroMemoryInv(zero);
    EmptyRecoverable();
  }

  lemma EmptyRecoverable()
    ensures Recoverable(View(map[], map[], map[], map[]))
  {
  }

  /** Told by the store itself: every lease in use or in a buffer has its record. */
  ghost predicate LeasesTold(v: View, m: L.Manager) {
    L.UsedOk(m.used, v.leases) && L.BufferOk(m.numa, true, v.leases) && L.BufferOk(m.fd, false, v.leases)
  }

  /** The users of every attached memory are the processes that hold references on it, and nobody else holds one. */
  ghost predicate UsersTold(v: View, s: S.Shm) {
    && (forall n :: n in s.attached ==> s.attached[n].pids == if n in v.refs then v.refs[n].Keys else {})
    && (forall n :: n in v.refs ==> n in s.attached && n in v.imports)
  }

  /**
    After any run from zeroed memory, with deaths at any store operation, the store is good,
    reopening it changes no record, and each manager is in step with it whenever it is not in the
    middle of a call, whatever the other one is doing.
    */
  lemma FromFresh(zero: Store, maxBuffered: nat, run: seq<Event>)
    requires ZeroMemory(zero) && Possible(Fresh(zero, maxBuffered), run)
    ensures var d := After(Fresh(zero, maxBuffered), run);
      && Inv(d.st) && Bounded(d.st) && Bounded(Restarted(d.st)) && ViewOf(Restarted(d.st)) == ViewOf(d.st)
      && (d.Up? && d.leaseWork.Idle? ==> LeasesTold(ViewOf(d.st), d.lease))
      && (d.Up? && d.shareWork.Idle? ==> UsersTold(ViewOf(d.st), d.share.shm))
  {
    FreshOk(zero, maxBuffered);
    RunOk(Fresh(zero, maxBuffered), run);
    OkTold(After(Fresh(zero, maxBuffered), run));
    hide *;
  }

  lemma OkTold(d: Daemon)
    requires DaemonOk(d)
    ensures Inv(d.st) && Bounded(d.st) && IdPool.Sized(d.st.pool.lines)
    ensures Bounded(Restarted(d.st)) && ViewOf(Restarted(d.st)) == ViewOf(d.st)
    ensures d.Up? && d.leaseWork.Idle? ==> LeasesTold(ViewOf(d.st), d.lease)
    ensures d.Up? && d.shareWork.Idle? ==> UsersTold(ViewOf(d.st), d.share.shm)
  {
    RestartView(d.st);
    hide Inv, Bounded, ViewOf, Restarted, IdPool.Sized, L.UsedOk, L.BufferOk, T.SystemOk, UsersTold, Recoverable, Leads, Pending;
    if d.Up? && d.shareWork.Idle? {
      OkUsers(ViewOf(d.st), d.share);
    }
  }

  lemma OkUsers(v: View, y: S.System)
    requires T.SystemOk(y) && ShareSide(v, y, Idle)
    ensures UsersTold(v, y.shm)
  {
    U.UsersAre(y);
    assert v.imports == y.shm.imports && v.refs == y.shm.refs;
    forall n | n in y.shm.refs
      ensures n in y.shm.imports
    {
      assert T.NameOk(n, T.Of(y.shm, n), T.TaskOf(y, n));
    }
    assert forall n :: n in y.shm.attached ==> U.UsersOk(y.shm, n);
    assert forall n :: n in y.shm.refs ==> U.UsersOk(y.shm, n);
  }

  // ---- when it comes up again

  /** In use, being removed, and the engine does not answer about it. */
  ghost predicate Silent(v: View, n: string, answers: string -> Answer) {
    n in v.refs && n in v.imports && v.imports[n].body.state == PreDel && answers(n) == Failed
  }

  lemma SilentIff(v: View, answers: string -> Answer)
    requires U.StoreOk(v.imports, v.refs)
    ensures S.Recovered(v.imports, v.refs, answers).Some? <==> forall n :: !Silent(v, n, answers)
  {
    U.RecoveryExact(v.imports, v.refs, answers);
    hide S.Recovered;
    if n :| n in v.refs && v.imports[n].body.state == PreDel && answers(n) == Failed {
      assert Silent(v, n, answers);
    }
  }

  lemma SafeRuns(st: Store, op: Op, room: bool)
    requires Bounded(st) && Safe(op)
    ensures Runs(st, op, room)
  {
    hide Bounded;
  }

  /**
    Whatever point the daemon died at, its recovery is never stuck, and it comes up at the end if and
    only if the engine answers about every shared memory it found in use and being removed.
    */
  lemma RecoverIff(d: Daemon)
    requires DaemonOk(d) && d.Rising?
    ensures if d.todo != [] then Enabled(d, RiseOp) else (Enabled(d, Risen) <==> forall n :: !Silent(d.found, n, d.walk.answers))
  {
    hide Inv, Bounded, ViewOf, Lists, S.Recovered, U.StoreOk, Silent, L.RecordsOk, Attempts, RisenAs, Runs, Safe;
    SilentIff(d.found, d.walk.answers);
    if d.todo != [] {
      SafeRuns(d.st, d.todo[0], true);
    }
  }
}
