/** The daemon is never stuck: calls, steps of requests and recoveries go through, whatever else is half done. */
module DaemonProgress {
  import opened Words
  import opened StoreSpec
  import opened StoreCalls
  import opened PendingCalls
  import opened Engine
  import opened Daemon
  import L = LeaseSpec
  import R = LeaseRecovery
  import S = ShareSpec

  lemma Then(d: Daemon, e: Event, rest: seq<Event>)
    requires Enabled(d, e) && Possible(Next(d, e), rest)
    ensures Possible(d, [e] + rest) && After(d, [e] + rest) == After(Next(d, e), rest)
  {
    hide Enabled, Next;
    assert ([e] + rest)[1..] == rest;
  }

  /** Operations the store takes at any time, done or refused. */
  predicate Anytime(op: Op) { !NeedsRoom(op) && !op.DelRefsByPid? }

  /** Only the first of the operations may depend on room. */
  predicate RoomFirst(ops: seq<Op>) { forall i :: 1 <= i < |ops| ==> Anytime(ops[i]) }

  lemma AnytimeRuns(st: Store, op: Op, room: bool)
    requires Bounded(st) && Anytime(op)
    ensures Runs(st, op, room)
  {
    hide Bounded;
  }

  lemma {:induction false} FlushAnytime(s: seq<L.MemInfo>, records: L.Leases, free: string -> Freed)
    ensures forall op :: op in FlushOps(s, records, free) ==> Anytime(op)
  {
    if s != [] {
      FlushAnytime(s[1..], L.Freeing(s[0].name, records, free).1, free);
    }
  }

  lemma LeaseRoomFirst(m: L.Manager, c: R.Call)
    requires !c.DoRestart?
    ensures RoomFirst(LeaseOps(m, c))
  {
    if c.DoDeleteAll? {
      FlushAnytime(m.numa, m.records, c.free);
      FlushAnytime(m.fd, L.Flushed(m.numa, m.records, c.free).1, c.free);
      hide FlushOps, L.Flushed, Anytime;
      var ops := LeaseOps(m, c);
      assert forall i :: 0 <= i < |ops| ==> ops[i] in ops;
    }
  }

  lemma ShareRoomFirst(s: S.Shm, n: string, t: S.Task, r: S.Reply, order: seq<i32>)
    ensures RoomFirst(ShareOps(s, n, t, r, order))
  {
    assert forall i :: 0 <= i < |order| ==> DropOps(n, order)[i].DelRef?;
    hide DropOps, S.Repo;
  }

  /** Its first operation finds the store as the call was told: room or not, and a new name a C string. */
  ghost predicate Told(st: Store, ops: seq<Op>, room: bool) { ops != [] ==> Runs(st, ops[0], room) }

  lemma NextTold(st: Store, ops: seq<Op>, room: bool)
    requires Bounded(st) && ops != [] && RoomFirst(ops)
    ensures RoomFirst(ops[1..]) && Told(st, ops[1..], room)
  {
    hide Bounded, Anytime;
    if |ops| > 1 {
      assert ops[1..][0] == ops[1];
      AnytimeRuns(st, ops[1], room);
    }
  }

  // ---- a lease call

  lemma LeaseOpNow(d: Daemon)
    requires DaemonOk(d) && d.Up? && d.leaseWork.Doing? && d.leaseWork.todo != [] && RoomFirst(d.leaseWork.todo)
    requires Told(d.st, d.leaseWork.todo, LeaseRoom(d.leaseWork.call))
    ensures Enabled(d, LeaseOp) && DaemonOk(Next(d, LeaseOp))
    ensures var t := Next(d, LeaseOp);
      && t.Up? && t.lease == d.lease && t.share == d.share && t.shareWork == d.shareWork
      && t.leaseWork == Doing(d.leaseWork.call, d.leaseWork.todo[1..])
      && RoomFirst(t.leaseWork.todo) && Told(t.st, t.leaseWork.todo, LeaseRoom(d.leaseWork.call))
  {
    hide DaemonOk, RoomFirst, LeaseRoom, Runs, Step, LeaseOps, R.Called, R.Callable, R.Listable, S.Next, S.Enabled,
         ShareOps, RecoveryOps, RisenAs, S.Recovered, Lists, ViewOf, Bounded, Walks;
    StepOk(d, LeaseOp);
    var t := Next(d, LeaseOp);
    OkTold(t);
    NextTold(t.st, d.leaseWork.todo, LeaseRoom(d.leaseWork.call));
  }

  lemma LeaseIsCallable(d: Daemon)
    requires DaemonOk(d) && d.Up? && d.leaseWork.Doing?
    ensures R.Listable(d.lease, d.leaseWork.call) && R.Callable(d.lease, d.leaseWork.call)
  {
    assert LeaseSide(ViewOf(d.st), d.lease, d.leaseWork);
    hide DaemonOk, Pending;
  }

  lemma LeaseReturnsNow(d: Daemon)
    requires DaemonOk(d) && d.Up? && d.leaseWork.Doing? && d.leaseWork.todo == []
    ensures R.Listable(d.lease, d.leaseWork.call) && Enabled(d, LeaseReturns) && DaemonOk(Next(d, LeaseReturns))
    ensures Next(d, LeaseReturns) == d.(lease := R.Called(d.lease, d.leaseWork.call), leaseWork := Idle)
  {
    hide DaemonOk, Runs, Step, LeaseOps, R.Called, R.Callable, R.Listable, S.Next, S.Enabled,
         ShareOps, RecoveryOps, RisenAs, S.Recovered, Lists, ViewOf, Bounded, Walks;
    LeaseIsCallable(d);
    StepOk(d, LeaseReturns);
  }

  lemma {:induction false} LeaseFinishes(d: Daemon) returns (run: seq<Event>)
    requires DaemonOk(d) && d.Up? && d.leaseWork.Doing? && RoomFirst(d.leaseWork.todo)
    requires Told(d.st, d.leaseWork.todo, LeaseRoom(d.leaseWork.call))
    ensures R.Listable(d.lease, d.leaseWork.call) && Possible(d, run) && DaemonOk(After(d, run))
    ensures var t := After(d, run);
      && t.Up? && t.leaseWork == Idle && t.lease == R.Called(d.lease, d.leaseWork.call)
      && t.share == d.share && t.shareWork == d.shareWork
    decreases |d.leaseWork.todo|
  {
    hide DaemonOk, Enabled, Next, Told, RoomFirst, R.Called, R.Listable, LeaseRoom;
    if d.leaseWork.todo == [] {
      LeaseReturnsNow(d);
      Then(d, LeaseReturns, []);
      run := [LeaseReturns] + [];
    } else {
      LeaseOpNow(d);
      run := LeaseFinishes(Next(d, LeaseOp));
      Then(d, LeaseOp, run);
      run := [LeaseOp] + run;
    }
  }

  lemma LeaseCallNow(d: Daemon, c: R.Call)
    requires DaemonOk(d) && d.Up? && d.leaseWork == Idle && !c.DoRestart? && R.Callable(d.lease, c)
    ensures Enabled(d, LeaseCalled(c)) && DaemonOk(Next(d, LeaseCalled(c)))
    ensures Next(d, LeaseCalled(c)) == d.(leaseWork := Doing(c, LeaseOps(d.lease, c)))
  {
    hide DaemonOk, Runs, Step, LeaseOps, R.Called, R.Callable, R.Listable, S.Next, S.Enabled,
         ShareOps, RecoveryOps, RisenAs, S.Recovered, Lists, ViewOf, Bounded, Walks;
    StepOk(d, LeaseCalled(c));
  }

  /** From every state in which the lease manager is free, whatever the other one is in the middle of, a call goes through. */
  lemma CallGoesThrough(d: Daemon, c: R.Call) returns (run: seq<Event>)
    requires DaemonOk(d) && d.Up? && d.leaseWork == Idle && !c.DoRestart? && R.Callable(d.lease, c)
    requires Told(d.st, LeaseOps(d.lease, c), LeaseRoom(c))
    ensures Possible(d, run) && DaemonOk(After(d, run))
    ensures var t := After(d, run);
      t.Up? && t.leaseWork == Idle && t.lease == R.Called(d.lease, c) && t.share == d.share && t.shareWork == d.shareWork
  {
    hide DaemonOk, Enabled, Next, Told, RoomFirst, LeaseOps, LeaseRoom, R.Called;
    LeaseCallNow(d, c);
    LeaseRoomFirst(d.lease, c);
    run := LeaseFinishes(Next(d, LeaseCalled(c)));
    Then(d, LeaseCalled(c), run);
    run := [LeaseCalled(c)] + run;
  }

  // ---- a step of a request

  lemma ShareOpNow(d: Daemon)
    requires DaemonOk(d) && d.Up? && d.shareWork.Doing? && d.shareWork.todo != [] && RoomFirst(d.shareWork.todo)
    requires Told(d.st, d.shareWork.todo, d.shareWork.call.r.room)
    ensures Enabled(d, ShareOp) && DaemonOk(Next(d, ShareOp))
    ensures var t := Next(d, ShareOp);
      && t.Up? && t.lease == d.lease && t.leaseWork == d.leaseWork && t.share == d.share
      && t.shareWork == Doing(d.shareWork.call, d.shareWork.todo[1..])
      && RoomFirst(t.shareWork.todo) && Told(t.st, t.shareWork.todo, d.shareWork.call.r.room)
  {
    hide DaemonOk, RoomFirst, Runs, Step, LeaseOps, R.Called, R.Callable, R.Listable, S.Next, S.Enabled,
         ShareOps, RecoveryOps, RisenAs, S.Recovered, Lists, ViewOf, Bounded, Walks;
    StepOk(d, ShareOp);
    var t := Next(d, ShareOp);
    OkTold(t);
    NextTold(t.st, d.shareWork.todo, d.shareWork.call.r.room);
  }

  lemma ShareHasTask(d: Daemon)
    requires DaemonOk(d) && d.Up? && d.shareWork.Doing?
    ensures d.shareWork.call.n in d.share.tasks
  {
    assert ShareSide(ViewOf(d.st), d.share, d.shareWork);
    hide DaemonOk, Pending;
  }

  lemma ShareReturnsNow(d: Daemon)
    requires DaemonOk(d) && d.Up? && d.shareWork.Doing? && d.shareWork.todo == []
    ensures Enabled(d, ShareReturns) && DaemonOk(Next(d, ShareReturns))
    ensures var e := S.Advance(d.shareWork.call.n, d.shareWork.call.r);
      S.Enabled(d.share, e) && Next(d, ShareReturns) == d.(share := S.Next(d.share, e), shareWork := Idle)
  {
    hide DaemonOk, Runs, Step, LeaseOps, R.Called, R.Callable, R.Listable, S.Next,
         ShareOps, RecoveryOps, RisenAs, S.Recovered, Lists, ViewOf, Bounded, Walks;
    ShareHasTask(d);
    StepOk(d, ShareReturns);
  }

  lemma {:induction false} ShareFinishes(d: Daemon) returns (run: seq<Event>)
    requires DaemonOk(d) && d.Up? && d.shareWork.Doing? && RoomFirst(d.shareWork.todo)
    requires Told(d.st, d.shareWork.todo, d.shareWork.call.r.room)
    ensures S.Enabled(d.share, S.Advance(d.shareWork.call.n, d.shareWork.call.r)) && Possible(d, run) && DaemonOk(After(d, run))
    ensures var t := After(d, run);
      && t.Up? && t.shareWork == Idle && t.share == S.Next(d.share, S.Advance(d.shareWork.call.n, d.shareWork.call.r))
      && t.lease == d.lease && t.leaseWork == d.leaseWork
    decreases |d.shareWork.todo|
  {
    hide DaemonOk, Enabled, Next, Told, RoomFirst, S.Next, S.Enabled;
    if d.shareWork.todo == [] {
      ShareReturnsNow(d);
      Then(d, ShareReturns, []);
      run := [ShareReturns] + [];
    } else {
      ShareOpNow(d);
      run := ShareFinishes(Next(d, ShareOp));
      Then(d, ShareOp, run);
      run := [ShareOp] + run;
    }
  }

  lemma AdvanceNow(d: Daemon, n: string, r: S.Reply, users: seq<i32>)
    requires DaemonOk(d) && d.Up? && d.shareWork == Idle && n in d.share.tasks && Walks(users, d.share.shm, n)
    ensures var e := Event.Advance(n, r, users);
      && Enabled(d, e) && DaemonOk(Next(d, e))
      && Next(d, e) == d.(shareWork := Doing(Turn(n, r), ShareOps(d.share.shm, n, d.share.tasks[n], r, users)))
  {
    hide DaemonOk, Runs, Step, LeaseOps, R.Called, R.Callable, R.Listable, S.Next, S.Enabled,
         ShareOps, RecoveryOps, RisenAs, S.Recovered, Lists, ViewOf, Bounded, Walks;
    StepOk(d, Event.Advance(n, r, users));
  }

  /** So does a step of any request, whatever the lease manager is in the middle of. */
  lemma StepGoesThrough(d: Daemon, n: string, r: S.Reply, users: seq<i32>) returns (run: seq<Event>)
    requires DaemonOk(d) && d.Up? && d.shareWork == Idle && n in d.share.tasks && Walks(users, d.share.shm, n)
    requires Told(d.st, ShareOps(d.share.shm, n, d.share.tasks[n], r, users), r.room)
    ensures Possible(d, run) && DaemonOk(After(d, run)) && S.Enabled(d.share, S.Advance(n, r))
    ensures var t := After(d, run);
      && t.Up? && t.shareWork == Idle && t.share == S.Next(d.share, S.Advance(n, r))
      && t.lease == d.lease && t.leaseWork == d.leaseWork
  {
    hide DaemonOk, Enabled, Next, Told, RoomFirst, ShareOps, Walks, S.Next, S.Enabled;
    var e := Event.Advance(n, r, users);
    AdvanceNow(d, n, r, users);
    ShareRoomFirst(d.share.shm, n, d.share.tasks[n], r, users);
    run := ShareFinishes(Next(d, e));
    Then(d, e, run);
    run := [e] + run;
  }

  /** Regions are added and removed at any time, beside both managers. */
  lemma RegionGoesThrough(d: Daemon, op: Op)
    requires DaemonOk(d) && d.Up? && (op.AddRegion? || op.DelRegion?) && WellFormed(d.st, op)
    ensures Bounded(d.st) && Enabled(d, Event.Region(op)) && DaemonOk(Next(d, Event.Region(op)))
    ensures Next(d, Event.Region(op)) == Up(Step(d.st, op).0, d.lease, d.leaseWork, d.share, d.shareWork)
  {
    OkTold(d);
    hide DaemonOk, Bounded, WellFormed, Step, ViewOf;
    StepOk(d, Event.Region(op));
  }

  // ---- death and recovery

  /** Death is possible at any point and loses everything but the store. */
  lemma Dies(d: Daemon)
    requires d.Up? || d.Rising?
    ensures Enabled(d, Die) && Next(d, Die) == Down(d.st, if d.Up? then d.lease.maxBuffered else d.maxBuffered)
  {
  }

  lemma RiseOpNow(d: Daemon)
    requires DaemonOk(d) && d.Rising? && d.todo != []
    ensures Enabled(d, RiseOp) && DaemonOk(Next(d, RiseOp))
    ensures var t := Next(d, RiseOp);
      t.Rising? && t.maxBuffered == d.maxBuffered && t.walk == d.walk && t.found == d.found && t.todo == d.todo[1..]
  {
    hide DaemonOk, Runs, Step, LeaseOps, R.Called, R.Callable, R.Listable, S.Next, S.Enabled,
         ShareOps, RecoveryOps, RisenAs, S.Recovered, Lists, ViewOf, Bounded, Walks;
    RecoverIff(d);
    StepOk(d, RiseOp);
  }

  /** Running with what both recoveries made of the records that were found. */
  ghost predicate UpAgain(t: Daemon, w: Walk, found: View, maxBuffered: nat)
    requires R.Lists(w.leases, found.leases)
  {
    && t.Up? && t.lease == RisenAs(w, found, maxBuffered) && t.leaseWork == Idle && t.shareWork == Idle && t.share.tasks == map[]
    && S.Recovered(found.imports, found.refs, w.answers) == Some(t.share.shm)
  }

  lemma RiseLists(d: Daemon)
    requires DaemonOk(d) && d.Rising?
    ensures Lists(d.walk, d.found) && R.Lists(d.walk.leases, d.found.leases)
  {
    assert Leads(ViewOf(d.st), d.walk, d.found, d.maxBuffered, d.todo);
    hide DaemonOk, Lists;
    ListsNames(d.walk, d.found);
  }

  lemma RisenNow(d: Daemon)
    requires DaemonOk(d) && d.Rising? && d.todo == [] && forall n :: !Silent(d.found, n, d.walk.answers)
    ensures R.Lists(d.walk.leases, d.found.leases) && Enabled(d, Risen) && DaemonOk(Next(d, Risen))
    ensures UpAgain(Next(d, Risen), d.walk, d.found, d.maxBuffered)
  {
    hide DaemonOk, Runs, Step, LeaseOps, R.Called, R.Callable, R.Listable, S.Next, S.Enabled,
         ShareOps, RecoveryOps, RisenAs, S.Recovered, Lists, ViewOf, Bounded, Walks;
    RecoverIff(d);
    RiseLists(d);
    StepOk(d, Risen);
  }

  lemma {:induction false} RiseFinishes(d: Daemon) returns (run: seq<Event>)
    requires DaemonOk(d) && d.Rising? && forall n :: !Silent(d.found, n, d.walk.answers)
    ensures R.Lists(d.walk.leases, d.found.leases) && Possible(d, run) && DaemonOk(After(d, run))
    ensures UpAgain(After(d, run), d.walk, d.found, d.maxBuffered)
    decreases |d.todo|
  {
    hide DaemonOk, Enabled, Next, UpAgain, Silent, R.Lists;
    if d.todo == [] {
      RisenNow(d);
      Then(d, Risen, []);
      run := [Risen] + [];
    } else {
      RiseOpNow(d);
      run := RiseFinishes(Next(d, RiseOp));
      Then(d, RiseOp, run);
      run := [RiseOp] + run;
    }
  }

  lemma RiseNow(d: Daemon, w: Walk)
    requires DaemonOk(d) && d.Down? && Bounded(d.st) && Lists(w, ViewOf(d.st))
    ensures Enabled(d, Rise(w)) && DaemonOk(Next(d, Rise(w)))
    ensures var t := Next(d, Rise(w)); t.Rising? && t.maxBuffered == d.maxBuffered && t.walk == w && t.found == ViewOf(d.st)
  {
    hide DaemonOk, Runs, Step, LeaseOps, R.Called, R.Callable, R.Listable, S.Next, S.Enabled,
         ShareOps, RecoveryOps, RisenAs, S.Recovered, Lists, ViewOf, Bounded, Walks;
    ListsNames(w, ViewOf(d.st));
    StepOk(d, Rise(w));
  }

  /** A dead daemon comes up with what its two recoveries make of the store, if the engine answers about memory being removed. */
  lemma ComesUp(d: Daemon, w: Walk) returns (run: seq<Event>)
    requires DaemonOk(d) && d.Down? && Bounded(d.st) && Lists(w, ViewOf(d.st))
    requires forall n :: !Silent(ViewOf(d.st), n, w.answers)
    ensures R.Lists(w.leases, ViewOf(d.st).leases) && Possible(d, run) && DaemonOk(After(d, run))
    ensures UpAgain(After(d, run), w, ViewOf(d.st), d.maxBuffered)
  {
    hide DaemonOk, Enabled, Next, UpAgain, Silent, Lists, R.Lists, Bounded, ViewOf;
    RiseNow(d, w);
    run := RiseFinishes(Next(d, Rise(w)));
    Then(d, Rise(w), run);
    run := [Rise(w)] + run;
  }
}
