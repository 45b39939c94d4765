/** What each manager call does to the store, operation by operation, and that this is what the call keeps as its records. */
module StoreCalls {
  import opened Words
  import opened Catalog
  import opened StoreSpec
  import opened ManagersOnStore
  import opened Engine
  import L = LeaseSpec
  import R = LeaseRecovery
  import S = ShareSpec
  import T = ShareTheorems

  // ---- lists of store operations

  predicate NeedsRoom(op: Op) {
    op.AddRegion? || op.AddLease? || op.AddLeaseResult? || op.AddImport? || op.AddImportResult? || op.AddRef?
  }

  /** The operations on the view, one after the other; a refused one changes nothing. */
  function Attempts(v: View, ops: seq<Op>, room: bool): View
    decreases |ops|
  {
    if ops == [] then v else Attempts(Attempt(v, ops[0], NeedsRoom(ops[0]) ==> room).0, ops[1..], room)
  }

  /** Operations that only take away, or move a record on; they never need room. */
  predicate Safe(op: Op) {
    op.SetLeaseState? || op.DelLease? || (op.SetImportState? && op.state != RecordState.PreAdd)
    || op.DelImport? || op.DelRef? || op.Restart?
  }

  predicate AllSafe(ops: seq<Op>) { forall i :: 0 <= i < |ops| ==> Safe(ops[i]) }

  predicate AllLease(ops: seq<Op>) { forall i :: 0 <= i < |ops| ==> IsLeaseOp(ops[i]) }

  predicate AllShare(ops: seq<Op>) { forall i :: 0 <= i < |ops| ==> IsShareOp(ops[i]) }

  lemma {:induction false} AttemptsConcat(v: View, a: seq<Op>, b: seq<Op>, room: bool)
    ensures Attempts(v, a + b, room) == Attempts(Attempts(v, a, room), b, room)
    decreases |a|
  {
    if a == [] {
      assert a + b == b;
    } else {
      hide Attempt;
      assert (a + b)[1..] == a[1..] + b;
      AttemptsConcat(Attempt(v, a[0], NeedsRoom(a[0]) ==> room).0, a[1..], b, room);
    }
  }

  lemma One(v: View, op: Op, room: bool)
    ensures Attempts(v, [op], room) == Attempt(v, op, NeedsRoom(op) ==> room).0
  {
    hide Attempt;
    assert [op][1..] == [];
  }

  // ---- the lease manager

  /** Marks a buffered lease for deletion, then deletes its record or takes the mark back. */
  function FreeOps(n: string, records: L.Leases, free: string -> Freed): seq<Op> {
    if n !in records then [SetLeaseState(n, PreDel)]
    else [SetLeaseState(n, PreDel), if free(n) == FreeError then SetLeaseState(n, Finish) else DelLease(n)]
  }

  function FlushOps(s: seq<L.MemInfo>, records: L.Leases, free: string -> Freed): seq<Op> {
    if s == [] then []
    else FreeOps(s[0].name, records, free) + FlushOps(s[1..], L.Freeing(s[0].name, records, free).1, free)
  }

  /** What recovery does to one stored lease. */
  function LeaseFix(n: string, item: Item<Lease>, a: Answer): seq<Op> {
    match L.FateOf(item.body.state, a)
    case Erase => if item.body.state == PreDel then [SetLeaseState(n, Deleted), DelLease(n)] else [DelLease(n)]
    case Keep(_) => if item.body.state == PreDel then [SetLeaseState(n, Finish)] else []
    case Skip => []
  }

  function RecoverOps(records: L.Leases, order: seq<string>, answers: string -> Answer): seq<Op>
    requires forall i :: 0 <= i < |order| ==> order[i] in records
  {
    if order == [] then []
    else
      var k := |order| - 1;
      RecoverOps(records, order[..k], answers) + LeaseFix(order[k], records[order[k]], answers(order[k]))
  }

  function LeaseOps(m: L.Manager, c: R.Call): seq<Op>
    requires !c.DoRestart?
  {
    match c
    case DoPreAdd(name, size, owner, isNuma, perfLevel, _) =>
      if name in m.used then [] else [AddLease(name, size, owner, !isNuma, perfLevel % 256, RecordState.PreAdd)]
    case DoFinishAdd(name, done, _) => if name in m.used then [AddLeaseResult(name, done)] else []
    case DoReuse(size, isNuma, slots, owner) =>
      if !m.enabled || slots == None then []
      else
        var s := L.Buffer(m, isNuma);
        var i := L.FirstFit(s, size, slots.value, 0);
        if i == |s| then [] else [UpdateLease(s[i].name, owner, size)]
    case DoPreDelete(name) =>
      if name !in m.used then []
      else
        var x := m.used[name];
        if m.enabled && |L.Buffer(m, x.isNuma)| < m.maxBuffered then
          [UpdateLease(name, x.owner.(pid := 0), L.FullSize(x.unitSize, |x.memIds|))]
        else [SetLeaseState(name, PreDel)]
    case DoDelete(name) => if name in m.used then [DelLease(name)] else []
    case DoSetState(name, state) => if name in m.used then [SetLeaseState(name, state)] else []
    case DoDeleteAll(free) =>
      if !m.enabled then []
      else FlushOps(m.numa, m.records, free) + FlushOps(m.fd, L.Flushed(m.numa, m.records, free).1, free)
  }

  lemma {:induction false} FlushOpsLease(s: seq<L.MemInfo>, records: L.Leases, free: string -> Freed)
    ensures AllLease(FlushOps(s, records, free))
  {
    if s != [] {
      FlushOpsLease(s[1..], L.Freeing(s[0].name, records, free).1, free);
    }
  }

  lemma LeaseOpsLease(m: L.Manager, c: R.Call)
    requires !c.DoRestart?
    ensures AllLease(LeaseOps(m, c))
  {
    if c.DoDeleteAll? {
      FlushOpsLease(m.numa, m.records, c.free);
      FlushOpsLease(m.fd, L.Flushed(m.numa, m.records, c.free).1, c.free);
      hide FlushOps, L.Flushed;
    }
  }

  function LeaseRoom(c: R.Call): bool { if c.DoPreAdd? || c.DoFinishAdd? then c.room else true }

  lemma LeaseAttempt(v: View, op: Op, room: bool)
    requires IsLeaseOp(op)
    ensures Attempt(v, op, room).0 == v.(leases := L.Repo(v.leases, op, room).0)
  {
    LeaseCall(v, op);
    hide Legal, Effect;
  }

  lemma LeaseOne(v: View, op: Op, room: bool)
    requires IsLeaseOp(op)
    ensures Attempts(v, [op], room) == v.(leases := L.Repo(v.leases, op, NeedsRoom(op) ==> room).0)
  {
    One(v, op, room);
    LeaseAttempt(v, op, NeedsRoom(op) ==> room);
    hide Attempts, Attempt, L.Repo;
  }

  /** The store operations of a lease call leave exactly the records the manager says. */
  lemma LeaseOpsExact(v: View, m: L.Manager, c: R.Call)
    requires v.leases == m.records && !c.DoRestart? && R.Callable(m, c)
    ensures Attempts(v, LeaseOps(m, c), LeaseRoom(c)) == v.(leases := R.Called(m, c).records)
    ensures |LeaseOps(m, c)| <= 1 || AllSafe(LeaseOps(m, c))
  {
    var ops := LeaseOps(m, c);
    if c.DoDeleteAll? {
      if m.enabled {
        var r := L.Flushed(m.numa, m.records, c.free).1;
        FlushOpsExact(v, m.numa, c.free);
        FlushOpsExact(v.(leases := r), m.fd, c.free);
        AttemptsConcat(v, FlushOps(m.numa, m.records, c.free), FlushOps(m.fd, r, c.free), true);
      }
    } else if ops != [] {
      assert ops == [ops[0]];
      LeaseOne(v, ops[0], LeaseRoom(c));
      hide Attempts, L.Repo;
    }
  }

  lemma FreeOpsExact(v: View, n: string, free: string -> Freed)
    ensures Attempts(v, FreeOps(n, v.leases, free), true) == v.(leases := L.Freeing(n, v.leases, free).1)
    ensures AllSafe(FreeOps(n, v.leases, free))
  {
    var ops := FreeOps(n, v.leases, free);
    LeaseOne(v, ops[0], true);
    if n in v.leases {
      assert ops == [ops[0]] + [ops[1]];
      AttemptsConcat(v, [ops[0]], [ops[1]], true);
      LeaseOne(Attempts(v, [ops[0]], true), ops[1], true);
      hide Attempts;
    } else {
      assert ops == [ops[0]];
    }
  }

  lemma {:induction false} FlushOpsExact(v: View, s: seq<L.MemInfo>, free: string -> Freed)
    ensures Attempts(v, FlushOps(s, v.leases, free), true) == v.(leases := L.Flushed(s, v.leases, free).1)
    ensures AllSafe(FlushOps(s, v.leases, free))
    decreases |s|
  {
    if s == [] {
      assert v.(leases := v.leases) == v;
    } else {
      var n := s[0].name;
      var r := L.Freeing(n, v.leases, free).1;
      FreeOpsExact(v, n, free);
      FlushOpsExact(v.(leases := r), s[1..], free);
      hide L.Freeing, FreeOps;
      AttemptsConcat(v, FreeOps(n, v.leases, free), FlushOps(s[1..], r, free), true);
      hide Attempts;
    }
  }

  /** So do the operations of a recovery. */
  lemma {:induction false} RecoverOpsExact(v: View, m: L.Manager, records: L.Leases, order: seq<string>, answers: string -> Answer)
    requires v.leases == m.records && forall i :: 0 <= i < |order| ==> order[i] in records
    ensures Attempts(v, RecoverOps(records, order, answers), true) == v.(leases := L.RecoveredFrom(m, records, order, answers).records)
    ensures AllSafe(RecoverOps(records, order, answers))
  {
    if order == [] {
      assert v.(leases := v.leases) == v;
    } else {
      var k := |order| - 1;
      var n := order[k];
      var before := L.RecoveredFrom(m, records, order[..k], answers);
      RecoverOpsExact(v, m, records, order[..k], answers);
      LeaseFixExact(v.(leases := before.records), before, n, records[n], answers(n));
      hide LeaseFix;
      AttemptsConcat(v, RecoverOps(records, order[..k], answers), LeaseFix(n, records[n], answers(n)), true);
      hide Attempts, L.RecoverOne;
    }
  }

  lemma LeaseFixExact(v: View, m: L.Manager, n: string, item: Item<Lease>, a: Answer)
    requires v.leases == m.records
    ensures Attempts(v, LeaseFix(n, item, a), true) == v.(leases := L.RecoverOne(m, n, item, a).records)
    ensures AllSafe(LeaseFix(n, item, a))
  {
    hide Attempts, L.Repo, L.Filed;
    match L.FateOf(item.body.state, a)
    case Skip => Nothing(v, true);
    case Erase => LeaseOne(v, DelLease(n), true); MarkThenDelete(v, n);
    case Keep(state) =>
      var records := if item.body.state == PreDel then L.Repo(m.records, SetLeaseState(n, Finish), true).0 else m.records;
      FiledRecords(m.(records := records), L.InfoOf(n, item, state));
      Nothing(v, true);
      LeaseOne(v, SetLeaseState(n, Finish), true);
  }

  lemma MarkThenDelete(v: View, n: string)
    ensures Attempts(v, [SetLeaseState(n, Deleted), DelLease(n)], true) == v.(leases := L.Repo(v.leases, DelLease(n), true).0)
  {
    var mark, delete := SetLeaseState(n, Deleted), DelLease(n);
    assert [mark, delete] == [mark] + [delete];
    AttemptsConcat(v, [mark], [delete], true);
    LeaseOne(v, mark, true);
    LeaseOne(Attempts(v, [mark], true), delete, true);
    hide Attempts, L.Repo;
    L.DeleteAfterMark(v.leases, n, Deleted);
  }

  lemma Nothing(v: View, room: bool)
    ensures Attempts(v, [], room) == v
  {
  }

  lemma FiledRecords(m: L.Manager, x: L.MemInfo)
    ensures L.Filed(m, x).records == m.records
  {
  }

  // ---- the shared-memory manager

  /** A reference dropped for each process, in order. */
  function DropOps(n: string, order: seq<i32>): seq<Op> {
    seq(|order|, i requires 0 <= i < |order| => DelRef(order[i], n))
  }

  /** A removal; a forced one drops the users first, in the given order. */
  function RemoveOps(s: S.Shm, n: string, force: bool, order: seq<i32>): seq<Op> {
    if n !in s.attached then []
    else if force && s.attached[n].state == Deleted then DropOps(n, order) + [DelImport(n)]
    else if s.attached[n].pids == {} then [DelImport(n)] else []
  }

  function UserOps(s: S.Shm, n: string, p: i32): seq<Op> { if n in s.attached then [AddRef(p, n)] else [] }

  function LeaveOps(s: S.Shm, n: string, p: i32): seq<Op> {
    if n in s.attached && p in s.attached[n].pids then [DelRef(p, n)] else []
  }

  function StateOps(s: S.Shm, n: string, state: RecordState): seq<Op> {
    if n in s.attached then [SetImportState(n, state)] else []
  }

  /** The first user of finished memory; if the store refuses it, the record goes. */
  function FirstUserOps(s: S.Shm, n: string, p: i32, room: bool): seq<Op> {
    if n !in s.attached then []
    else [AddRef(p, n)] + if S.Repo(s, AddRef(p, n), room).1 then [] else [DelImport(n)]
  }

  /** The store operations of one step of a request. */
  function ShareOps(s: S.Shm, n: string, t: S.Task, r: S.Reply, order: seq<i32>): seq<Op> {
    match t
    case MapJoin(p) => UserOps(s, n, p)
    case MapForce(_, _) => RemoveOps(s, n, true, order)
    case MapPrepare(p, size) => if n in s.attached then [] else [AddImport(n, size, p)]
    case MapUndo => RemoveOps(s, n, false, order)
    case MapFull(_, result) => if n in s.attached then [AddImportResult(n, result)] else []
    case MapUser(p, _) => FirstUserOps(s, n, p, r.room)
    case BackMark => StateOps(s, n, PreDel)
    case BackRestore => StateOps(s, n, Finish)
    case BackRemove => RemoveOps(s, n, false, order)
    case UnmapForce => RemoveOps(s, n, true, order)
    case UnmapDrop(p) => LeaveOps(s, n, p)
    case UnmapMark(_, _) => StateOps(s, n, PreDel)
    case UnmapRestore => StateOps(s, n, Finish)
    case UnmapUser(p) => LeaveOps(s, n, p)
    case UnmapRemove(_) => RemoveOps(s, n, false, order)
    case UnmapJoin(p) => UserOps(s, n, p)
    case _ => []
  }

  lemma ShareOpsShare(s: S.Shm, n: string, t: S.Task, r: S.Reply, order: seq<i32>)
    ensures AllShare(ShareOps(s, n, t, r, order))
  {
    assert forall i :: 0 <= i < |order| ==> DropOps(n, order)[i].DelRef?;
    hide DropOps, S.Repo;
  }

  /** The view with the manager's imports and references in it. */
  function With(v: View, s: S.Shm): View { v.(imports := s.imports, refs := s.refs) }

  lemma ShareAttempt(v: View, s: S.Shm, op: Op, room: bool)
    requires IsShareOp(op) && With(v, s) == v
    ensures Attempt(v, op, room).0 == With(v, S.Repo(s, op, room).0)
  {
    ShareCall(v, op);
    hide Legal, Effect;
  }

  lemma ShareOne(v: View, s: S.Shm, op: Op, room: bool)
    requires IsShareOp(op) && With(v, s) == v
    ensures Attempts(v, [op], room) == With(v, S.Repo(s, op, NeedsRoom(op) ==> room).0)
  {
    One(v, op, room);
    ShareAttempt(v, s, op, NeedsRoom(op) ==> room);
    hide Attempts, Attempt, S.Repo;
  }

  lemma {:induction false} DropOpsExact(v: View, s: S.Shm, n: string, order: seq<i32>, room: bool)
    requires With(v, s) == v && T.NoEmpty(s) && T.EntryOk(n, T.Of(s, n))
    requires Distinct(order) && forall p :: p in order ==> p in T.Holders(s, n)
    ensures Attempts(v, DropOps(n, order), room) == With(v, S.Dropped(s, n, order).0) && S.Dropped(s, n, order).1
  {
    hide T.NoEmpty, T.EntryOk, T.Holders, Attempts, S.Repo, DropOps, Distinct;
    if order == [] {
      DropNone(n, order);
      Nothing(v, room);
    } else {
      var k := |order| - 1;
      DistinctPop(order);
      DropLast(n, order);
      DropOpsExact(v, s, n, order[..k], room);
      T.DroppedOk(s, n, order);
      AttemptsConcat(v, DropOps(n, order[..k]), [DelRef(order[k], n)], room);
      var t := S.Dropped(s, n, order[..k]).0;
      ShareOne(With(v, t), t, DelRef(order[k], n), room);
    }
  }

  lemma DropNone(n: string, order: seq<i32>)
    requires order == []
    ensures DropOps(n, order) == []
  {
  }

  lemma DropLast(n: string, order: seq<i32>)
    requires order != []
    ensures var k := |order| - 1; DropOps(n, order) == DropOps(n, order[..k]) + [DelRef(order[k], n)]
  {
  }

  /** An unused entry goes with its record; With looks at nothing but records and references. */
  lemma UnusedOpsExact(v: View, s: S.Shm, n: string, room: bool)
    requires With(v, s) == v && n in s.attached
    ensures Attempts(v, if s.attached[n].pids == {} then [DelImport(n)] else [], room) == With(v, S.RemoveUnused(s, n).0)
  {
    ShareOne(v, s, DelImport(n), room);
    RefusedRepo(s, DelImport(n), true);
    hide S.Repo;
    assert Attempts(v, [], room) == v;
    hide Attempts;
  }

  lemma RefusedRepo(s: S.Shm, op: Op, room: bool)
    ensures !S.Repo(s, op, room).1 ==> S.Repo(s, op, room).0 == s
  {
    hide Legal, Effect;
  }

  lemma ForcedOpsExact(v: View, s: S.Shm, n: string, order: seq<i32>, room: bool)
    requires With(v, s) == v && T.NoEmpty(s) && T.EntryOk(n, T.Of(s, n)) && n in s.attached
    requires Distinct(order) && Elems(order) == s.attached[n].pids && s.attached[n].state == Deleted
    ensures Attempts(v, DropOps(n, order) + [DelImport(n)], room) == With(v, S.RemoveIn(s, n, true, order).0)
  {
    assert forall p :: p in order ==> p in Elems(order);
    DropOpsExact(v, s, n, order, room);
    AttemptsConcat(v, DropOps(n, order), [DelImport(n)], room);
    hide T.NoEmpty, T.EntryOk, Attempts, S.Dropped, S.RemoveUnused, DropOps;
    var t := S.Dropped(s, n, order).0;
    UnusedOpsExact(With(v, t), t.(attached := t.attached[n := t.attached[n].(pids := {})]), n, room);
  }

  lemma RemoveOpsExact(v: View, s: S.Shm, n: string, force: bool, order: seq<i32>, room: bool)
    requires With(v, s) == v && T.NoEmpty(s) && T.EntryOk(n, T.Of(s, n))
    requires Distinct(order) && (n in s.attached ==> Elems(order) == s.attached[n].pids)
    ensures Attempts(v, RemoveOps(s, n, force, order), room) == With(v, S.Remove(s, n, force).0)
    ensures AllSafe(RemoveOps(s, n, force, order))
  {
    T.RemoveInOk(s, n, force, order);
    assert Attempts(v, [], room) == v;
    hide T.NoEmpty, T.EntryOk, Attempts, S.Dropped, S.RemoveUnused;
    if n in s.attached {
      if force && s.attached[n].state == Deleted {
        ForcedOpsExact(v, s, n, order, room);
      } else {
        UnusedOpsExact(v, s, n, room);
      }
    }
  }

  lemma FirstUserExact(v: View, s: S.Shm, n: string, p: i32, result: ImportResult, room: bool)
    requires With(v, s) == v && n in s.attached
    ensures Attempts(v, FirstUserOps(s, n, p, room), room) == With(v, S.FullUser(s, n, p, result, room).0)
    ensures var ops := FirstUserOps(s, n, p, room);
      |ops| <= 1 || (NeedsRoom(ops[0]) && AllSafe(ops[1..]) && Attempt(v, ops[0], room).0 == v)
  {
    ShareOne(v, s, AddRef(p, n), room);
    if S.Repo(s, AddRef(p, n), room).1 {
      assert [AddRef(p, n)] + [] == [AddRef(p, n)];
      hide S.Repo, Attempts;
    } else {
      RefusedRepo(s, AddRef(p, n), room);
      ShareAttempt(v, s, AddRef(p, n), room);
      AttemptsConcat(v, [AddRef(p, n)], [DelImport(n)], room);
      ShareOne(v, s, DelImport(n), room);
      hide S.Repo, Attempts;
    }
  }

  predicate Removes(t: S.Task) { t.MapForce? || t.MapUndo? || t.BackRemove? || t.UnmapForce? || t.UnmapRemove? }

  lemma SingleOpsExact(v: View, s: S.Shm, n: string, t: S.Task, r: S.Reply)
    requires With(v, s) == v && !Removes(t) && !t.MapUser?
    ensures var ops := ShareOps(s, n, t, r, []);
      |ops| <= 1 && Attempts(v, ops, r.room) == With(v, S.Act(s, n, t, r).0)
  {
    hide S.Repo;
    var ops := ShareOps(s, n, t, r, []);
    if ops != [] {
      assert ops == [ops[0]];
      ShareOne(v, s, ops[0], r.room);
      RefusedRepo(s, ops[0], NeedsRoom(ops[0]) ==> r.room);
      hide Attempts;
    }
  }

  /** The store operations of a step leave exactly the imports and references the manager says. */
  lemma ShareOpsExact(v: View, s: S.Shm, n: string, t: S.Task, r: S.Reply, order: seq<i32>)
    requires With(v, s) == v && T.NoEmpty(s) && T.EntryOk(n, T.Of(s, n))
    requires Distinct(order) && (n in s.attached ==> Elems(order) == s.attached[n].pids)
    ensures var ops := ShareOps(s, n, t, r, order);
      && Attempts(v, ops, r.room) == With(v, S.Act(s, n, t, r).0)
      && (|ops| <= 1 || AllSafe(ops) || (NeedsRoom(ops[0]) && AllSafe(ops[1..]) && Attempt(v, ops[0], r.room).0 == v))
  {
    hide T.NoEmpty, T.EntryOk, Attempts, S.Remove, S.FullUser, S.Repo, RemoveOps;
    if Removes(t) {
      RemoveOpsExact(v, s, n, t.MapForce? || t.UnmapForce?, order, r.room);
    } else if !t.MapUser? {
      SingleOpsExact(v, s, n, t, r);
    } else if n in s.attached {
      FirstUserExact(v, s, n, t.p, t.result, r.room);
    } else {
      Nothing(v, r.room);
    }
  }

  // ---- the recovery of the shared-memory manager

  /** What the first pass does to one import record. */
  function ImportFix(n: string, item: Item<Import>, a: Answer): seq<Op> {
    match S.FateOf(item.body.state, a)
    case Erase => [DelImport(n)]
    case Keep(state) => if item.body.state == PreDel then [SetImportState(n, state)] else []
    case Skip => []
  }

  function FixOps(imports: S.Imports, names: seq<string>, answers: string -> Answer): seq<Op>
    requires forall i :: 0 <= i < |names| ==> names[i] in imports
  {
    if names == [] then []
    else
      var k := |names| - 1;
      FixOps(imports, names[..k], answers) + ImportFix(names[k], imports[names[k]], answers(names[k]))
  }

  /** The second pass deletes the records of entries nobody uses. */
  function IdleOps(s: S.Shm, names: seq<string>): seq<Op> {
    if names == [] then []
    else
      var k := |names| - 1;
      IdleOps(s, names[..k]) + if S.Unused(s, names[k]) then [DelImport(names[k])] else []
  }

  /** One record as the first pass leaves it. */
  function Fixed(imports: S.Imports, refs: Counts, n: string, answers: string -> Answer): Option<Item<Import>>
    requires n in imports
  {
    match S.FateOf(imports[n].body.state, answers(n))
    case Keep(state) => Some(imports[n].(body := imports[n].body.(state := state)))
    case Erase => if n in refs then Some(imports[n]) else None
    case Skip => Some(imports[n])
  }

  /** The records after the first pass over some of the names. */
  function HalfFixed(imports: S.Imports, refs: Counts, names: set<string>, answers: string -> Answer): S.Imports {
    map n | n in imports && (n !in names || Fixed(imports, refs, n, answers).Some?) ::
      if n in names then Fixed(imports, refs, n, answers).value else imports[n]
  }

  lemma {:induction false} FixOpsExact(v: View, names: seq<string>, answers: string -> Answer)
    requires Distinct(names) && forall i :: 0 <= i < |names| ==> names[i] in v.imports
    ensures Attempts(v, FixOps(v.imports, names, answers), true)
         == v.(imports := HalfFixed(v.imports, v.refs, Elems(names), answers))
    ensures AllSafe(FixOps(v.imports, names, answers))
  {
    hide Attempts, HalfFixed, ImportFix, Distinct;
    if names == [] {
      assert Elems(names) == {};
      NoneFixed(v.imports, v.refs, answers);
      Nothing(v, true);
    } else {
      var k := |names| - 1;
      var n := names[k];
      DistinctPop(names);
      FixOpsExact(v, names[..k], answers);
      var fix := ImportFix(n, v.imports[n], answers(n));
      AttemptsConcat(v, FixOps(v.imports, names[..k], answers), fix, true);
      assert Elems(names) == Elems(names[..k]) + {n};
      FixOne(v, Elems(names[..k]), n, answers);
    }
  }

  lemma NoneFixed(imports: S.Imports, refs: Counts, answers: string -> Answer)
    ensures HalfFixed(imports, refs, {}, answers) == imports
  {
  }

  lemma FixOne(v: View, names: set<string>, n: string, answers: string -> Answer)
    requires n in v.imports && n !in names
    ensures var w := v.(imports := HalfFixed(v.imports, v.refs, names, answers));
      && Attempts(w, ImportFix(n, v.imports[n], answers(n)), true)
         == v.(imports := HalfFixed(v.imports, v.refs, names + {n}, answers))
      && AllSafe(ImportFix(n, v.imports[n], answers(n)))
  {
    var item, a := v.imports[n], answers(n);
    var w := v.(imports := HalfFixed(v.imports, v.refs, names, answers));
    var q := HalfFixed(v.imports, v.refs, names + {n}, answers);
    assert n in w.imports && w.imports[n] == item;
    assert q - {n} == w.imports - {n};
    var fix := ImportFix(n, item, a);
    if fix == [] {
      assert q == w.imports;
      Nothing(w, true);
    } else {
      One(w, fix[0], true);
      assert fix == [fix[0]];
      assert Attempt(w, fix[0], true).0.imports == q;
    }
  }

  /** The records after the second pass over some of the names. */
  function WithoutIdle(imports: S.Imports, refs: Counts, s: S.Shm, names: set<string>): S.Imports {
    map n | n in imports && !(n in names && S.Unused(s, n) && n !in refs) :: imports[n]
  }

  lemma {:induction false} IdleOpsExact(v: View, s: S.Shm, names: seq<string>)
    ensures Attempts(v, IdleOps(s, names), true) == v.(imports := WithoutIdle(v.imports, v.refs, s, Elems(names)))
    ensures AllSafe(IdleOps(s, names))
  {
    if names == [] {
      assert v.imports == WithoutIdle(v.imports, v.refs, s, Elems(names));
      Nothing(v, true);
    } else {
      var k := |names| - 1;
      IdleOpsExact(v, s, names[..k]);
      var op := if S.Unused(s, names[k]) then [DelImport(names[k])] else [];
      AttemptsConcat(v, IdleOps(s, names[..k]), op, true);
      assert Elems(names) == Elems(names[..k]) + {names[k]};
      hide Attempts, WithoutIdle, S.Unused;
      IdleOne(v, s, Elems(names[..k]), names[k]);
    }
  }

  lemma IdleOne(v: View, s: S.Shm, names: set<string>, n: string)
    ensures var w := v.(imports := WithoutIdle(v.imports, v.refs, s, names));
      Attempts(w, if S.Unused(s, n) then [DelImport(n)] else [], true)
      == v.(imports := WithoutIdle(v.imports, v.refs, s, names + {n}))
  {
    var w := v.(imports := WithoutIdle(v.imports, v.refs, s, names));
    var q := WithoutIdle(v.imports, v.refs, s, names + {n});
    One(w, DelImport(n), true);
    Nothing(w, true);
    hide Attempts, S.Unused;
    assert q == if S.Unused(s, n) && n !in v.refs then w.imports - {n} else w.imports;
    assert n !in w.imports ==> w.imports - {n} == w.imports;
  }

  ghost predicate Listed<T>(names: seq<string>, m: map<string, T>) {
    Distinct(names) && forall n :: n in names <==> n in m
  }

  function ShareRecoverOps(imports: S.Imports, refs: Counts, names: seq<string>, kept: seq<string>, answers: string -> Answer): seq<Op>
    requires forall i :: 0 <= i < |names| ==> names[i] in imports
  {
    FixOps(imports, names, answers) + IdleOps(S.WithUsers(S.FromRecords(imports, refs, answers)), kept)
  }

  lemma AllFixed(imports: S.Imports, refs: Counts, names: seq<string>, answers: string -> Answer)
    requires Listed(names, imports)
    ensures HalfFixed(imports, refs, Elems(names), answers) == S.FromRecords(imports, refs, answers).imports
  {
  }

  lemma NoneIdle(s: S.Shm, names: seq<string>)
    requires Listed(names, s.attached)
    ensures WithoutIdle(s.imports, s.refs, s, Elems(names)) == S.WithoutUnused(s).imports
  {
  }

  /** The store operations of both passes, over every record and then every entry, leave what recovery says. */
  lemma ShareRecoverOpsExact(v: View, names: seq<string>, kept: seq<string>, answers: string -> Answer)
    requires Listed(names, v.imports) && Listed(kept, S.FromRecords(v.imports, v.refs, answers).attached)
    ensures var ops, r := ShareRecoverOps(v.imports, v.refs, names, kept, answers), S.Recovered(v.imports, v.refs, answers);
      (r.Some? ==> Attempts(v, ops, true) == With(v, r.value)) && AllSafe(ops)
  {
    var s := S.FromRecords(v.imports, v.refs, answers);
    RecoveredIs(v, answers);
    AllFixed(v.imports, v.refs, names, answers);
    hide S.FromRecords, HalfFixed, S.Recovered, WithoutIdle, S.WithoutUnused, Attempts, FixOps, IdleOps;
    FixOpsExact(v, names, answers);
    var t := S.WithUsers(s);
    NoneIdle(t, kept);
    hide Listed;
    IdleOpsExact(v.(imports := s.imports), t, kept);
    AttemptsConcat(v, FixOps(v.imports, names, answers), IdleOps(t, kept), true);
  }

  lemma RecoveredIs(v: View, answers: string -> Answer)
    ensures var s, r := S.FromRecords(v.imports, v.refs, answers), S.Recovered(v.imports, v.refs, answers);
      && s.refs == v.refs && S.WithUsers(s).imports == s.imports
      && (r.Some? ==> With(v, r.value) == v.(imports := S.WithoutUnused(S.WithUsers(s)).imports))
  {
  }
}
