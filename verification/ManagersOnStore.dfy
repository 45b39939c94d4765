/** The managers' repository calls are the store's own operations, seen through its view. */
module ManagersOnStore {
  import opened StoreSpec
  import opened StoreTheorems
  import LeaseSpec
  import ShareSpec

  predicate IsLeaseOp(op: Op) {
    op.AddLease? || op.AddLeaseResult? || op.SetLeaseState? || op.UpdateLease? || op.DelLease?
  }

  predicate IsShareOp(op: Op) {
    op.AddImport? || op.AddImportResult? || op.SetImportState? || op.DelImport? || op.AddRef? || op.DelRef?
  }

  lemma LeaseCall(v: View, op: Op)
    requires IsLeaseOp(op)
    ensures var w := View(map[], v.leases, map[], map[]);
      && (Legal(v, op) <==> Legal(w, op))
      && (Legal(v, op) ==> Effect(v, op) == v.(leases := Effect(w, op).leases))
  {
  }

  lemma ShareCall(v: View, op: Op)
    requires IsShareOp(op)
    ensures var w := View(map[], map[], v.imports, v.refs);
      && (Legal(v, op) <==> Legal(w, op))
      && (Legal(v, op) ==> Effect(v, op) == v.(imports := Effect(w, op).imports, refs := Effect(w, op).refs))
  {
  }

  /** A lease manager's repository call does to the lease records what the store operation does, and touches nothing else. */
  lemma LeaseRepoIsStore(st: Store, op: Op)
    requires Inv(st) && Bounded(st) && WellFormed(st, op) && IsLeaseOp(op)
    ensures var (q, ok) := Step(st, op);
      && Inv(q) && Bounded(q)
      && (ViewOf(q).leases, ok) == LeaseSpec.Repo(ViewOf(st).leases, op, Fits(st, op))
      && ViewOf(q) == ViewOf(st).(leases := ViewOf(q).leases)
  {
    StepRefines(st, op);
    LeaseCall(ViewOf(st), op);
    hide Step, ViewOf, Inv, Bounded, Fits, Legal, Effect;
  }

  ghost function ShareOf(st: Store, attached: map<string, ShareSpec.Attached>): ShareSpec.Shm
    requires Bounded(st)
  {
    ShareSpec.Shm(attached, ViewOf(st).imports, ViewOf(st).refs)
  }

  /** So does a shared-memory manager's call, to imports and references. */
  lemma ShareRepoIsStore(st: Store, op: Op, attached: map<string, ShareSpec.Attached>)
    requires Inv(st) && Bounded(st) && WellFormed(st, op) && IsShareOp(op)
    ensures var (q, ok) := Step(st, op);
      && Inv(q) && Bounded(q)
      && (ShareOf(q, attached), ok) == ShareSpec.Repo(ShareOf(st, attached), op, Fits(st, op))
      && ViewOf(q) == ViewOf(st).(imports := ViewOf(q).imports, refs := ViewOf(q).refs)
  {
    StepRefines(st, op);
    ShareCall(ViewOf(st), op);
    hide Step, ViewOf, Inv, Bounded, Fits, Legal, Effect;
  }
}
