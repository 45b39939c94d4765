/** Whole requests of the shared-memory manager: what a map does, and that an unmap undoes it. */
module ShareRequests {
  import opened Words
  import opened Catalog
  import opened StoreSpec
  import opened ShareSpec
  import opened ShareTheorems
  import opened ShareRuns
  import opened RefIndex
  import opened Engine

  /** How far a request is from returning; every step gets closer. */
  function Rank(t: Task): nat {
    match t
    case MapLook(_, _) => 9
    case MapForce(_, _) => 8
    case MapEnter(_, _) => 7
    case MapPrepare(_, _) => 6
    case MapAttach(_) => 5
    case MapFull(_, _) => 4
    case MapUser(_, _) => 3
    case BackMark => 2
    case BackDetach => 1
    case UnmapLook(_) => 7
    case UnmapCount(_, _) => 6
    case UnmapMark(_, _) => 5
    case UnmapDetach(_, _) => 4
    case UnmapUser(_) => 3
    case UnmapRemove(_) => 2
    case DeleteCheck => 2
    case DeleteCount => 1
    case _ => 0
  }

  /** Every request returns after a bounded number of steps, whatever is answered. */
  lemma RankFalls(s: Shm, n: string, t: Task, r: Reply)
    ensures var next := Act(s, n, t, r).1; next.Some? ==> Rank(next.value) < Rank(t)
  {
    hide AddUser, RemoveUser, Prepare, FullRecord, FullUser, SetState, Remove;
  }

  /** A request carried through without interruption; `replies` answers each of its steps. */
  function Served(s: Shm, n: string, t: Task, replies: Task -> Reply): Shm
    decreases Rank(t)
  {
    var (s', next) := Act(s, n, t, replies(t));
    RankFalls(s, n, t, replies(t));
    if next == None then s' else Served(s', n, next.value, replies)
  }

  /** It is one of the runs of the system: the one in which nothing else happens meanwhile. */
  lemma {:induction false} ServedIsRun(y: System, n: string, t: Task, replies: Task -> Reply) returns (run: seq<Event>)
    requires TaskOf(y, n) == Some(t)
    ensures Possible(y, run) && After(y, run) == System(Served(y.shm, n, t, replies), y.tasks - {n})
    decreases Rank(t)
  {
    var step := Advance(n, replies(t));
    var (s, next) := Act(y.shm, n, t, replies(t));
    var z := Next(y, step);
    RankFalls(y.shm, n, t, replies(t));
    if next == None {
      run := [];
    } else {
      run := ServedIsRun(z, n, next.value, replies);
      assert z.tasks - {n} == y.tasks - {n};
    }
    OneStep(y, step, run);
    run := [step] + run;
  }

  lemma ServedStep(s: Shm, n: string, t: Task, replies: Task -> Reply, s': Shm, next: Task)
    requires Act(s, n, t, replies(t)) == (s', Some(next))
    ensures Served(s, n, t, replies) == Served(s', n, next, replies)
  {
    hide Act;
  }

  lemma ServedEnd(s: Shm, n: string, t: Task, replies: Task -> Reply, s': Shm)
    requires Act(s, n, t, replies(t)) == (s', None)
    ensures Served(s, n, t, replies) == s'
  {
    hide Act;
  }

  ghost predicate AllGranted(replies: Task -> Reply) {
    forall t :: replies(t).ok && replies(t).room
  }

  ghost predicate Absent(s: Shm, n: string) {
    n !in s.attached && n !in s.imports && n !in s.refs
  }

  // ---- one user

  function OneRef(p: i32): map<i32, nat> { map[p := 1] }

  /** A memory attached, recorded and referenced by one process, in a given state. */
  ghost function Held(s: Shm, n: string, p: i32, size: u64, result: ImportResult, state: RecordState): Shm {
    Shm(s.attached[n := Attached(size, state, result, {p})],
        s.imports[n := Item(Done(p, size, result, state), result.memIds)],
        s.refs[n := OneRef(p)])
  }

  ghost function Done(p: i32, size: u64, result: ImportResult, state: RecordState): Import {
    Import(size, Owner(AsU32(p), result.uid, result.gid), result.unitSize, result.flag, result.oflag, state)
  }

  /** Prepared for a process: there in both places, nobody references it. */
  ghost function Prepared(s: Shm, n: string, p: i32, size: u64): Shm {
    s.(attached := s.attached[n := Attached(size, RecordState.PreAdd, NO_RESULT, {})],
       imports := s.imports[n := Item(Import(size, Owner(AsU32(p), 0, 0), 0, 0, 0, RecordState.PreAdd), [])])
  }

  lemma PrepareIs(s: Shm, n: string, p: i32, size: u64)
    requires Absent(s, n) && |n| < NAME_SIZE
    ensures Prepare(s, n, size, p, true) == (Prepared(s, n, p, size), true)
  {
  }

  /** The record finished, its first reference still missing. */
  ghost function Recorded(s: Shm, n: string, p: i32, size: u64, result: ImportResult): Shm {
    Prepared(s, n, p, size).(imports := s.imports[n := Item(Done(p, size, result, Finish), result.memIds)])
  }

  lemma FullRecordIs(s: Shm, n: string, p: i32, size: u64, result: ImportResult)
    requires |n| < NAME_SIZE && result.memIds != []
    ensures FullRecord(Prepared(s, n, p, size), n, result, true) == (Recorded(s, n, p, size, result), true)
  {
    assert FullRecord(Prepared(s, n, p, size), n, result, true).0.imports == Recorded(s, n, p, size, result).imports;
  }

  lemma FullUserIs(s: Shm, n: string, p: i32, size: u64, result: ImportResult)
    requires Absent(s, n) && Nameable(n, p)
    ensures n in Recorded(s, n, p, size, result).attached
    ensures FullUser(Recorded(s, n, p, size, result), n, p, result, true) == (Held(s, n, p, size, result, Finish), true)
  {
    var t := Recorded(s, n, p, size, result);
    var none: map<i32, nat> := map[];
    assert p in OneRef(p) && none[p := 1] == OneRef(p);
    assert Counted(s.refs, n, p, 1) == s.refs[n := OneRef(p)];
    assert t.attached[n].pids + {p} == {p};
    assert FullUser(t, n, p, result, true).0.attached == Held(s, n, p, size, result, Finish).attached;
  }

  /** Mapping a memory nobody has: exactly one entry, one finished record and one reference appear. */
  lemma MapFirst(s: Shm, n: string, p: i32, size: u64, replies: Task -> Reply)
    requires Absent(s, n) && Nameable(n, p) && AllGranted(replies) && replies(MapAttach(p)).result.memIds != []
    ensures Served(s, n, MapLook(p, size), replies) == Held(s, n, p, size, replies(MapAttach(p)).result, Finish)
  {
    var result := replies(MapAttach(p)).result;
    var t, u, w := Prepared(s, n, p, size), Recorded(s, n, p, size, result), Held(s, n, p, size, result, Finish);
    PrepareIs(s, n, p, size);
    FullRecordIs(s, n, p, size, result);
    FullUserIs(s, n, p, size, result);
    MapActs(s, t, u, n, p, size, replies);
    hide *;
    ServedStep(s, n, MapLook(p, size), replies, s, MapEnter(p, size));
    ServedStep(s, n, MapEnter(p, size), replies, s, MapPrepare(p, size));
    ServedStep(s, n, MapPrepare(p, size), replies, t, MapAttach(p));
    ServedStep(t, n, MapAttach(p), replies, t, MapFull(p, result));
    ServedStep(t, n, MapFull(p, result), replies, u, MapUser(p, result));
    ServedEnd(u, n, MapUser(p, result), replies, w);
  }

  /** The steps of a map that is granted everything, on a name that is not attached. */
  lemma MapActs(s: Shm, t: Shm, u: Shm, n: string, p: i32, size: u64, replies: Task -> Reply)
    requires AllGranted(replies) && n !in s.attached && n in u.attached
    ensures Act(s, n, MapLook(p, size), replies(MapLook(p, size))) == (s, Some(MapEnter(p, size)))
    ensures Act(s, n, MapEnter(p, size), replies(MapEnter(p, size))) == (s, Some(MapPrepare(p, size)))
    ensures Act(s, n, MapPrepare(p, size), replies(MapPrepare(p, size))) == If(Prepare(s, n, size, p, true), Some(MapAttach(p)), None)
    ensures var result := replies(MapAttach(p)).result;
      && Act(t, n, MapAttach(p), replies(MapAttach(p))) == (t, Some(MapFull(p, result)))
      && Act(t, n, MapFull(p, result), replies(MapFull(p, result)))
         == If(FullRecord(t, n, result, true), Some(MapUser(p, result)), Some(BackMark))
      && Act(u, n, MapUser(p, result), replies(MapUser(p, result))) == If(FullUser(u, n, p, result, true), None, Some(BackMark))
  {
    hide Prepare, FullRecord, FullUser;
  }

  lemma SetStateIs(s: Shm, n: string, p: i32, size: u64, result: ImportResult)
    ensures SetState(Held(s, n, p, size, result, Finish), n, PreDel) == (Held(s, n, p, size, result, PreDel), true)
  {
    var t := Held(s, n, p, size, result, Finish);
    var q := SetState(t, n, PreDel).0;
    assert q.imports == Held(s, n, p, size, result, PreDel).imports;
    assert q.attached == Held(s, n, p, size, result, PreDel).attached;
  }

  /** The last reference gone, the entry still there. */
  ghost function Left(s: Shm, n: string, p: i32, size: u64, result: ImportResult): Shm {
    Shm(s.attached[n := Attached(size, PreDel, result, {})],
        s.imports[n := Item(Done(p, size, result, PreDel), result.memIds)], s.refs)
  }

  lemma RemoveUserIs(s: Shm, n: string, p: i32, size: u64, result: ImportResult)
    requires Absent(s, n) && Nameable(n, p)
    ensures RemoveUser(Held(s, n, p, size, result, PreDel), n, p) == (Left(s, n, p, size, result), true)
  {
    var t := Held(s, n, p, size, result, PreDel);
    assert Counted(t.refs, n, p, 0) == s.refs by {
      assert OneRef(p) - {p} == map[];
      assert s.refs[n := OneRef(p)] - {n} == s.refs;
    }
    assert t.attached[n].pids - {p} == {};
    assert RemoveUser(t, n, p).0.attached == Left(s, n, p, size, result).attached;
  }

  lemma RemoveIs(s: Shm, n: string, p: i32, size: u64, result: ImportResult)
    requires Absent(s, n)
    ensures Remove(Left(s, n, p, size, result), n, false) == (s, true)
  {
    var t := Left(s, n, p, size, result);
    assert t.imports - {n} == s.imports && t.attached - {n} == s.attached;
  }

  /** Unmapping by the only user undoes the map: the state is the one from before, to the last field. */
  lemma MapThenUnmap(s: Shm, n: string, p: i32, size: u64, replies: Task -> Reply)
    requires Absent(s, n) && Nameable(n, p) && AllGranted(replies) && replies(MapAttach(p)).result.memIds != []
    ensures Served(Served(s, n, MapLook(p, size), replies), n, UnmapLook(p), replies) == s
  {
    MapFirst(s, n, p, size, replies);
    var result := replies(MapAttach(p)).result;
    var t, u, w := Held(s, n, p, size, result, Finish), Held(s, n, p, size, result, PreDel), Left(s, n, p, size, result);
    SetStateIs(s, n, p, size, result);
    RemoveUserIs(s, n, p, size, result);
    RemoveIs(s, n, p, size, result);
    assert n in t.attached && t.attached[n].state == Finish && t.attached[n].pids == {p};
    UnmapActs(t, n, p, replies);
    LastActs(t, u, w, n, p, replies);
    hide *;
    ServedStep(t, n, UnmapLook(p), replies, t, UnmapCount(p, {p}));
    ServedStep(t, n, UnmapCount(p, {p}), replies, t, UnmapMark(p, {p}));
    ServedStep(t, n, UnmapMark(p, {p}), replies, u, UnmapDetach(p, {p}));
    ServedStep(u, n, UnmapDetach(p, {p}), replies, u, UnmapUser(p));
    ServedStep(u, n, UnmapUser(p), replies, w, UnmapRemove(p));
    ServedEnd(w, n, UnmapRemove(p), replies, s);
  }

  /** How an unmap of a finished memory begins, and where its user count sends it. */
  lemma UnmapActs(t: Shm, n: string, p: i32, replies: Task -> Reply)
    requires n in t.attached && t.attached[n].state == Finish
    ensures var q := t.attached[n].pids;
      && Act(t, n, UnmapLook(p), replies(UnmapLook(p))) == (t, Some(UnmapCount(p, q)))
      && Act(t, n, UnmapCount(p, q), replies(UnmapCount(p, q))) == (t, Some(if |q| > 1 then UnmapDrop(p) else UnmapMark(p, q)))
      && Act(t, n, UnmapDrop(p), replies(UnmapDrop(p))) == If(RemoveUser(t, n, p), None, None)
  {
    hide RemoveUser;
  }

  lemma LastActs(t: Shm, u: Shm, w: Shm, n: string, p: i32, replies: Task -> Reply)
    requires AllGranted(replies)
    ensures Act(t, n, UnmapMark(p, {p}), replies(UnmapMark(p, {p}))) == If(SetState(t, n, PreDel), Some(UnmapDetach(p, {p})), None)
    ensures Act(u, n, UnmapDetach(p, {p}), replies(UnmapDetach(p, {p}))) == (u, Some(UnmapUser(p)))
    ensures Act(u, n, UnmapUser(p), replies(UnmapUser(p))) == If(RemoveUser(u, n, p), Some(UnmapRemove(p)), None)
    ensures Act(w, n, UnmapRemove(p), replies(UnmapRemove(p))) == If(Remove(w, n, false), None, Some(UnmapJoin(p)))
  {
    hide SetState, RemoveUser, Remove;
  }

  // ---- more users

  function OneMore(held: map<i32, nat>, p: i32): map<i32, nat> { held[p := 1] }

  /** One more user of a memory. */
  ghost function Joined(s: Shm, n: string, p: i32): Shm
    requires n in s.attached && n in s.refs
  {
    s.(attached := s.attached[n := s.attached[n].(pids := s.attached[n].pids + {p})], refs := s.refs[n := OneMore(s.refs[n], p)])
  }

  lemma JoinIs(s: Shm, n: string, p: i32)
    requires n in s.attached && n in s.refs && n in s.imports && Nameable(n, p) && p !in s.refs[n]
    ensures AddUser(s, n, p, true) == (Joined(s, n, p), true)
  {
    assert p in OneMore(s.refs[n], p);
  }

  lemma LeaveIs(s: Shm, n: string, p: i32)
    requires n in s.attached && n in s.refs && n in s.imports && Nameable(n, p)
    requires p !in s.refs[n] && p !in s.attached[n].pids && s.refs[n] != map[]
    ensures RemoveUser(Joined(s, n, p), n, p) == (s, true)
  {
    var t := Joined(s, n, p);
    assert t.refs[n] - {p} == s.refs[n];
    assert t.refs[n := s.refs[n]] == s.refs;
    assert t.attached[n].pids - {p} == s.attached[n].pids;
    assert t.attached[n := s.attached[n]] == s.attached;
  }

  /** A process that joins a memory in use and unmaps it leaves the other users exactly as they were. */
  lemma JoinThenLeave(y: System, n: string, p: i32, size: u64, replies: Task -> Reply)
    requires SystemOk(y) && n !in y.tasks && AllGranted(replies) && Nameable(n, p)
    requires n in y.shm.attached && y.shm.attached[n].state == Finish
    requires y.shm.attached[n].pids != {} && p !in y.shm.attached[n].pids
    ensures n in y.shm.refs
    ensures var t := Served(y.shm, n, MapLook(p, size), replies);
      t == Joined(y.shm, n, p) && Served(t, n, UnmapLook(p), replies) == y.shm
  {
    var s := y.shm;
    assert NameOk(n, Of(s, n), TaskOf(y, n));
    assert n in s.refs && n in s.imports && p !in s.refs[n] && s.refs[n] != map[];
    hide SystemOk, NameOk;
    var t := Joined(s, n, p);
    JoinIs(s, n, p);
    LeaveIs(s, n, p);
    var pids := s.attached[n].pids + {p};
    assert |pids| == |s.attached[n].pids| + 1;
    assert n in t.attached && t.attached[n].state == Finish && t.attached[n].pids == pids;
    JoinActs(s, n, p, size, replies);
    UnmapActs(t, n, p, replies);
    hide *;
    ServedStep(s, n, MapLook(p, size), replies, s, MapJoin(p));
    ServedEnd(s, n, MapJoin(p), replies, t);
    ServedStep(t, n, UnmapLook(p), replies, t, UnmapCount(p, pids));
    ServedStep(t, n, UnmapCount(p, pids), replies, t, UnmapDrop(p));
    ServedEnd(t, n, UnmapDrop(p), replies, s);
  }

  lemma JoinActs(s: Shm, n: string, p: i32, size: u64, replies: Task -> Reply)
    requires AllGranted(replies) && n in s.attached && s.attached[n].state == Finish && p !in s.attached[n].pids
    ensures Act(s, n, MapLook(p, size), replies(MapLook(p, size))) == (s, Some(MapJoin(p)))
    ensures Act(s, n, MapJoin(p), replies(MapJoin(p))) == If(AddUser(s, n, p, true), None, None)
  {
    hide AddUser;
  }

  /** A finished memory with users comes back from a restart exactly as it was. */
  lemma UsedComesBack(y: System, answers: string -> Answer, n: string)
    requires SystemOk(y) && Enabled(y, Event.Restart(answers))
    requires n in y.shm.attached && y.shm.attached[n].state == Finish && y.shm.attached[n].pids != {}
    ensures Of(Next(y, Event.Restart(answers)).shm, n) == Of(y.shm, n)
  {
    assert NameOk(n, Of(y.shm, n), TaskOf(y, n));
    RecoveredSame(y.shm, answers, n);
    InvStoreOk(y);
    RecoveryExact(y.shm.imports, y.shm.refs, answers);
    hide Recovered, RecoveredAt, SystemOk, StoreOk, NoEmpty, NameOk;
    var s := Next(y, Event.Restart(answers)).shm;
    assert Of(s, n) == RecoveredAt(y.shm.imports, y.shm.refs, answers, n);
  }

  lemma RecoveredSame(s: Shm, answers: string -> Answer, n: string)
    requires n in s.attached && s.attached[n].state == Finish && s.attached[n].pids != {}
    requires EntryOk(n, Of(s, n)) && Agree(Of(s, n))
    ensures RecoveredAt(s.imports, s.refs, answers, n) == Of(s, n)
  {
    assert n in s.imports && s.imports[n].body.state == Finish && n in s.refs && s.refs[n].Keys == s.attached[n].pids;
  }

  /** After a restart nothing is attached without a user, except what was still being added. */
  lemma NothingIdle(y: System, answers: string -> Answer, n: string)
    requires SystemOk(y) && Enabled(y, Event.Restart(answers))
    ensures var s := Next(y, Event.Restart(answers)).shm;
      n in s.attached ==> s.attached[n].pids != {} || s.attached[n].state == RecordState.PreAdd
  {
    InvStoreOk(y);
    RecoveryExact(y.shm.imports, y.shm.refs, answers);
    hide Recovered, SystemOk;
    var s := Next(y, Event.Restart(answers)).shm;
    assert Of(s, n) == RecoveredAt(y.shm.imports, y.shm.refs, answers, n);
  }

  // ---- reached from a fresh start

  lemma {:induction false} RunThenRun(y: System, a: seq<Event>, b: seq<Event>)
    requires Possible(y, a) && Possible(After(y, a), b)
    ensures Possible(y, a + b) && After(y, a + b) == After(After(y, a), b)
    decreases |a|
  {
    if a == [] {
      assert a + b == b;
    } else {
      hide Next, Enabled;
      RunThenRun(Next(y, a[0]), a[1..], b);
      OneStep(y, a[0], a[1..] + b);
      assert a + b == [a[0]] + (a[1..] + b);
    }
  }

  /** One process maps a memory, granted everything. */
  lemma OneUser() returns (run: seq<Event>)
    ensures Possible(START, run)
    ensures var y := After(START, run);
      SystemOk(y) && y.tasks == map[] && "m" in y.shm.attached && y.shm.attached["m"].state == Finish && y.shm.attached["m"].pids == {1}
  {
    var result := ImportResult([7], 1, 0, 0, 0, 0);
    var replies := (t: Task) => Reply(true, true, result);
    var begin := Begin("m", MapLook(1, 1));
    var y := Next(START, begin);
    assert Enabled(START, begin) && y == System(START.shm, map["m" := MapLook(1, 1)]);
    run := ServedIsRun(y, "m", MapLook(1, 1), replies);
    OneStep(START, begin, run);
    run := [begin] + run;
    MapFirst(START.shm, "m", 1, 1, replies);
    assert y.tasks - {"m"} == map[];
    StartOk();
    RunUsers(START, run);
  }

  /** From a fresh start, a process that never mapped a memory has it detached under its only user. */
  lemma StrangerDetaches() returns (run: seq<Event>)
    ensures Possible(START, run)
    ensures var y := After(START, run); TaskOf(y, "m") == Some(UnmapDetach(2, {1})) && Holders(y.shm, "m") == {1}
  {
    run := MarkedAndHeld(2);
  }

  lemma MarkedAndHeld(p: i32) returns (run: seq<Event>)
    ensures Possible(START, run)
    ensures var y := After(START, run);
      && SystemOk(y) && TaskOf(y, "m") == Some(UnmapDetach(p, {1})) && Holders(y.shm, "m") == {1} && Marked(y.shm, "m")
  {
    run := OneUser();
    var r := Reply(true, true, NO_RESULT);
    var more := [Begin("m", UnmapLook(p)), Advance("m", r), Advance("m", r), Advance("m", r)];
    ReachesDetach(After(START, run), "m", p, 1, r);
    RunThenRun(START, run, more);
    run := run + more;
    StartOk();
    RunUsers(START, run);
  }

  /** From a fresh start, the daemon stops while the only user unmaps, and the engine then does not answer: recovery fails. */
  lemma RecoveryFails() returns (run: seq<Event>)
    ensures Possible(START, run)
    ensures var s := After(START, run).shm; Recovered(s.imports, s.refs, _ => Failed) == None
  {
    run := MarkedAndHeld(1);
    var y := After(START, run);
    InvStoreOk(y);
    RecoveryExact(y.shm.imports, y.shm.refs, _ => Failed);
    assert 1 in Holders(y.shm, "m");
  }
}
