/** A manager call that has reached the store only in part: what is left to do, and what a death in between leaves behind. */
module PendingCalls {
  import opened StoreSpec
  import opened StoreCalls
  import opened ManagersOnStore
  import L = LeaseSpec
  import T = ShareTheorems
  import U = ShareRuns

  /** Records from which both managers can start again. */
  ghost predicate Recoverable(v: View) { L.RecordsOk(v.leases) && U.StoreOk(v.imports, v.refs) }

  lemma SafeKeeps(v: View, op: Op)
    requires Recoverable(v) && Safe(op)
    ensures Recoverable(Attempt(v, op, true).0)
  {
    if op.DelRef? && Legal(v, op) {
      var refs := Counted(v.refs, op.name, op.pid, Count(v.refs, op.name, op.pid) - 1);
      forall n | n in refs
        ensures n in v.imports && v.imports[n].body.state != RecordState.PreAdd && U.HeldOk(n, refs[n])
      {
        T.CountedAt(v.refs, op.name, op.pid, Count(v.refs, op.name, op.pid) - 1, n);
      }
    }
  }

  /** One operation of a call whose answer about room is fixed. */
  function Done(v: View, op: Op, room: bool): View { Attempt(v, op, NeedsRoom(op) ==> room).0 }

  /** However many of the operations are done, the records are recoverable. */
  ghost predicate CutSafe(v: View, ops: seq<Op>, room: bool) {
    && Recoverable(v)
    && (ops != [] ==> Recoverable(Done(v, ops[0], room)) && AllSafe(ops[1..]))
  }

  lemma AllSafeCut(v: View, ops: seq<Op>, room: bool)
    requires Recoverable(v) && AllSafe(ops)
    ensures CutSafe(v, ops, room)
  {
    if ops != [] {
      SafeKeeps(v, ops[0]);
      hide Recoverable, Attempt;
    }
  }

  /** A single operation, when the whole call leaves recoverable records. */
  lemma SingleCut(v: View, ops: seq<Op>, room: bool)
    requires Recoverable(v) && |ops| <= 1 && Recoverable(Attempts(v, ops, room))
    ensures CutSafe(v, ops, room)
  {
    if ops != [] {
      assert ops == [ops[0]];
      One(v, ops[0], room);
      hide Recoverable, Attempt, Attempts;
    }
  }

  lemma CutRest(v: View, ops: seq<Op>, room: bool)
    requires CutSafe(v, ops, room) && ops != []
    ensures CutSafe(Done(v, ops[0], room), ops[1..], room)
  {
    hide Recoverable, Done;
    AllSafeCut(Done(v, ops[0], room), ops[1..], room);
  }

  /** What is left of a call: it leads to the target, and may be cut short anywhere. */
  ghost predicate Pending(v: View, todo: seq<Op>, room: bool, target: View) {
    Attempts(v, todo, room) == target && CutSafe(v, todo, room)
  }

  lemma PendingStep(v: View, todo: seq<Op>, room: bool, target: View)
    requires Pending(v, todo, room, target) && todo != []
    ensures Pending(Done(v, todo[0], room), todo[1..], room, target)
  {
    CutRest(v, todo, room);
    hide CutSafe, Attempt;
  }

  lemma PendingDone(v: View, room: bool, target: View)
    requires Pending(v, [], room, target)
    ensures v == target
  {
  }

  // ---- the two managers touch different records

  function LeaseView(v: View): View { View(map[], v.leases, map[], map[]) }

  function ShareView(v: View): View { View(map[], map[], v.imports, v.refs) }

  lemma LeaseApart(v: View, op: Op, room: bool)
    requires IsLeaseOp(op)
    ensures LeaseView(Done(v, op, room)) == Done(LeaseView(v), op, room) && ShareView(Done(v, op, room)) == ShareView(v)
  {
    LeaseCall(v, op);
    hide Legal, Effect, NeedsRoom;
  }

  lemma ShareApart(v: View, op: Op, room: bool)
    requires IsShareOp(op)
    ensures ShareView(Done(v, op, room)) == Done(ShareView(v), op, room) && LeaseView(Done(v, op, room)) == LeaseView(v)
  {
    ShareCall(v, op);
    hide Legal, Effect, NeedsRoom;
  }

  lemma RegionApart(v: View, op: Op, room: bool)
    requires op.AddRegion? || op.DelRegion?
    ensures ShareView(Done(v, op, room)) == ShareView(v) && LeaseView(Done(v, op, room)) == LeaseView(v)
  {
  }

  /** So the records are recoverable when both parts are. */
  lemma RecoverableParts(v: View)
    ensures Recoverable(v) <==> Recoverable(LeaseView(v)) && Recoverable(ShareView(v))
  {
  }
}
