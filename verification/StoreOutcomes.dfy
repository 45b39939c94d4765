/** What each store operation leaves behind, written out field by field. */
module StoreOutcomes {
  import opened Words
  import opened RefIndex
  import opened RegionBitmap
  import opened StoreSpec
  import opened StoreTheorems
  import opened StoreCapacity

  ghost predicate SameRegions(v: View, w: View) { w.regions == v.regions }
  ghost predicate SameLeases(v: View, w: View) { w.leases == v.leases }
  ghost predicate SameShares(v: View, w: View) { w.imports == v.imports && w.refs == v.refs }

  /** Only references changed, and only for this name and process. */
  ghost predicate RefsElsewhere(v: View, w: View, name: string, pid: i32) {
    SameRegions(v, w) && SameLeases(v, w) && w.imports == v.imports
    && forall n, p :: n != name || p != pid ==> Held(w, n, p) == Held(v, n, p)
  }

  /** How many references a process has on a name. */
  function Held(v: View, n: string, p: i32): nat { if n in v.refs && p in v.refs[n] then v.refs[n][p] else 0 }

  ghost predicate Listed(nodeIds: seq<nat>, n: nat) { exists i :: 0 <= i < |nodeIds| && nodeIds[i] == n }

  ghost predicate ListedNear(nodeIds: seq<nat>, affinity: seq<bool>, n: nat)
    requires |nodeIds| == |affinity|
  {
    exists i :: 0 <= i < |nodeIds| && nodeIds[i] == n && affinity[i]
  }

  /** A success, seen in the four maps before and after. */
  ghost predicate Says(v: View, op: Op, w: View) {
    match op
    case AddRegion(name, size, nodeIds, affinity) =>
      && SameLeases(v, w) && SameShares(v, w) && Elsewhere(v.regions, w.regions, name)
      && name in w.regions && w.regions[name].memIds == [] && w.regions[name].body.size == size && |nodeIds| == |affinity|
      && (forall n :: 0 <= n < 1024 ==>
            && (w.regions[name].body.bitmap[n / 64][n % 64] <==> Listed(nodeIds, n))
            && (w.regions[name].body.affinity[n / 64][n % 64] <==> ListedNear(nodeIds, affinity, n)))
    case DelRegion(name) => SameLeases(v, w) && SameShares(v, w) && Elsewhere(v.regions, w.regions, name) && name !in w.regions
    case AddLease(name, size, owner, fdMode, distance, state) =>
      && SameRegions(v, w) && SameShares(v, w) && Elsewhere(v.leases, w.leases, name)
      && name in w.leases && w.leases[name].memIds == []
      && var b := w.leases[name].body;
      && b.size == size && b.owner == owner && b.fdMode == fdMode && b.distance == distance && b.state == state
      && b.numaId == -1 && b.unitSize == 0 && b.slotId == 0
    case AddLeaseResult(name, result) =>
      && SameRegions(v, w) && SameShares(v, w) && Elsewhere(v.leases, w.leases, name)
      && name in v.leases && name in w.leases && w.leases[name].memIds == result.memIds
      && var a, b := v.leases[name].body, w.leases[name].body;
      && b.numaId == result.numaId && b.unitSize == result.unitSize && b.slotId == result.slotId && b.state == Finish
      && b.size == a.size && b.owner == a.owner && b.fdMode == a.fdMode && b.distance == a.distance
    case SetLeaseState(name, state) =>
      && SameRegions(v, w) && SameShares(v, w) && Elsewhere(v.leases, w.leases, name)
      && name in v.leases && name in w.leases && w.leases[name].memIds == v.leases[name].memIds
      && var a, b := v.leases[name].body, w.leases[name].body;
      && b.state == state && b.size == a.size && b.owner == a.owner && b.fdMode == a.fdMode && b.distance == a.distance
      && b.numaId == a.numaId && b.unitSize == a.unitSize && b.slotId == a.slotId
    case UpdateLease(name, owner, size) =>
      && SameRegions(v, w) && SameShares(v, w) && Elsewhere(v.leases, w.leases, name)
      && name in v.leases && name in w.leases && w.leases[name].memIds == v.leases[name].memIds
      && var a, b := v.leases[name].body, w.leases[name].body;
      && b.owner == owner && b.size == size && b.fdMode == a.fdMode && b.distance == a.distance
      && b.numaId == a.numaId && b.unitSize == a.unitSize && b.slotId == a.slotId && b.state == a.state
    case DelLease(name) => SameRegions(v, w) && SameShares(v, w) && Elsewhere(v.leases, w.leases, name) && name !in w.leases
    case AddImport(name, size, pid) =>
      && SameRegions(v, w) && SameLeases(v, w) && w.refs == v.refs && Elsewhere(v.imports, w.imports, name)
      && name in w.imports && w.imports[name].memIds == []
      && var b := w.imports[name].body;
      && b.size == size && b.owner.pid == (if pid >= 0 then pid else pid + 4294967296) && b.owner.uid == 0 && b.owner.gid == 0
      && b.unitSize == 0 && b.flag == 0 && b.oflag == 0 && b.state == RecordState.PreAdd
    case AddImportResult(name, result) =>
      && SameRegions(v, w) && SameLeases(v, w) && w.refs == v.refs && Elsewhere(v.imports, w.imports, name)
      && name in v.imports && name in w.imports && w.imports[name].memIds == result.memIds
      && var a, b := v.imports[name].body, w.imports[name].body;
      && b.owner.uid == result.uid && b.owner.gid == result.gid && b.unitSize == result.unitSize
      && b.oflag == result.oflag && b.flag == result.flag && b.state == Finish
      && b.owner.pid == a.owner.pid && b.size == a.size
    case SetImportState(name, state) =>
      && SameRegions(v, w) && SameLeases(v, w) && w.refs == v.refs && Elsewhere(v.imports, w.imports, name)
      && name in v.imports && name in w.imports && w.imports[name].memIds == v.imports[name].memIds
      && var a, b := v.imports[name].body, w.imports[name].body;
      && b.state == state && b.size == a.size && b.owner == a.owner && b.unitSize == a.unitSize
      && b.flag == a.flag && b.oflag == a.oflag
    case DelImport(name) =>
      && SameRegions(v, w) && SameLeases(v, w) && w.refs == v.refs && Elsewhere(v.imports, w.imports, name)
      && name !in w.imports
    case AddRef(pid, name) => RefsElsewhere(v, w, name, pid) && Held(w, name, pid) == Held(v, name, pid) + 1
    case DelRef(pid, name) => RefsElsewhere(v, w, name, pid) && Held(w, name, pid) == Held(v, name, pid) - 1
    case DelRefsByPid(pid, _) =>
      && SameRegions(v, w) && SameLeases(v, w) && w.imports == v.imports
      && forall n, p :: Held(w, n, p) == if p == pid then 0 else Held(v, n, p)
    case Restart => w == v
  }

  lemma CountedHeld(v: View, n: string, p: i32, count: nat, m: string, q: i32)
    ensures Held(v.(refs := Counted(v.refs, n, p, count)), m, q) == if m == n && q == p then count else Held(v, m, q)
  {
    var before := if n in v.refs then v.refs[n] else map[];
    var now := if count == 0 then before - {p} else before[p := count];
    if m == n && now != map[] {
      assert Counted(v.refs, n, p, count)[n] == now;
    } else if m == n {
      assert p !in now && (q != p ==> q !in before) by { assert q !in now; }
    }
  }

  lemma RefsSay(v: View, op: Op)
    requires Legal(v, op) && (op.AddRef? || op.DelRef? || op.DelRefsByPid?)
    ensures Says(v, op, Effect(v, op))
  {
    if op.AddRef? || op.DelRef? {
      var k := Count(v.refs, op.name, op.pid);
      var count := if op.AddRef? then k + 1 else k - 1;
      forall n, p
        ensures Held(Effect(v, op), n, p) == if n == op.name && p == op.pid then count else Held(v, n, p)
      {
        CountedHeld(v, op.name, op.pid, count, n, p);
      }
      hide Counted;
    } else {
      forall n, p
        ensures Held(Effect(v, op), n, p) == if p == op.pid then 0 else Held(v, n, p)
      {
        if n in v.refs && p in v.refs[n] && p != op.pid {
          assert p in v.refs[n] - {op.pid};
        }
      }
    }
  }

  lemma RegionsSay(v: View, op: Op)
    requires Legal(v, op) && (op.AddRegion? || op.DelRegion?)
    ensures Says(v, op, Effect(v, op))
  {
    if op.AddRegion? {
      var all := AllTrue(|op.nodeIds|);
      EncodedBits(op.nodeIds, all);
      EncodedBits(op.nodeIds, op.affinity);
      hide Encoded;
      forall n: nat | n < 1024
        ensures Encoded(op.nodeIds, all)[n / 64][n % 64] <==> Listed(op.nodeIds, n)
        ensures Encoded(op.nodeIds, op.affinity)[n / 64][n % 64] <==> ListedNear(op.nodeIds, op.affinity, n)
      {
        assert Encoded(op.nodeIds, all)[n / 64][n % 64] == Bit(Encoded(op.nodeIds, all), n);
        assert Encoded(op.nodeIds, op.affinity)[n / 64][n % 64] == Bit(Encoded(op.nodeIds, op.affinity), n);
      }
    }
  }

  lemma RecordsSay(v: View, op: Op)
    requires Legal(v, op) && !op.AddRef? && !op.DelRef? && !op.DelRefsByPid? && !op.AddRegion? && !op.DelRegion?
    ensures Says(v, op, Effect(v, op))
  {
  }

  // ---- when an operation succeeds

  /** The pool has a line for every 63 ids. */
  ghost predicate IdsFit(st: Store, ids: seq<u64>) { ids != [] && (|ids| + 62) / 63 <= |st.pool.idle| }

  /** Every condition of the code, on the records and the fixed sizes of the arrays. */
  ghost predicate Allowed(st: Store, v: View, op: Op) {
    match op
    case AddRegion(name, _, nodeIds, affinity) =>
      && |name| < 64 && (forall i :: 0 <= i < |nodeIds| ==> nodeIds[i] < 1024) && |nodeIds| == |affinity|
      && name !in v.regions && |v.regions| < 256
    case DelRegion(name) => name in v.regions
    case AddLease(name, _, _, _, _, _) => |name| < 64 && name !in v.leases && |v.leases| < 16384
    case AddLeaseResult(name, result) => name in v.leases && IdsFit(st, result.memIds)
    case SetLeaseState(name, _) => name in v.leases
    case UpdateLease(name, _, _) => name in v.leases
    case DelLease(name) => name in v.leases
    case AddImport(name, _, _) => |name| < 64 && name !in v.imports && |v.imports| < 18432
    case AddImportResult(name, result) => |name| < 64 && name in v.imports && IdsFit(st, result.memIds)
    case SetImportState(name, _) => name in v.imports
    case DelImport(name) => name in v.imports && name !in v.refs
    case AddRef(pid, name) => pid != 0 && name != "" && |name| < 64 && name in v.imports && |LiveRefs(st.refs.table.recs)| < 1179648
    case DelRef(pid, name) => pid != 0 && name != "" && |name| < 64 && name in v.imports && Held(v, name, pid) > 0
    case DelRefsByPid(pid, _) => pid != 0
    case Restart => true
  }

  lemma AllowedIff(st: Store, op: Op)
    requires Inv(st) && Bounded(st)
    ensures Allowed(st, ViewOf(st), op) <==> Legal(ViewOf(st), op) && Fits(st, op)
  {
    hide Inv, Bounded, ViewOf;
    AddsUp(st);
  }

  /** Every operation on every good store: when it succeeds, what is then in it, and that a refusal changes nothing. */
  lemma StepSays(st: Store, op: Op)
    requires Inv(st) && WellFormed(st, op)
    ensures Bounded(st)
    ensures var (q, ok) := Step(st, op);
      && Bounded(q) && (ok <==> Allowed(st, ViewOf(st), op))
      && (if ok then Says(ViewOf(st), op, ViewOf(q)) else ViewOf(q) == ViewOf(st))
  {
    StepRefines(st, op);
    AllowedIff(st, op);
    hide Step, Inv, Bounded, ViewOf, WellFormed, Allowed, Fits, Legal, Effect, Says;
    var v := ViewOf(st);
    if Legal(v, op) {
      EffectSays(v, op);
    }
  }

  lemma EffectSays(v: View, op: Op)
    requires Legal(v, op)
    ensures Says(v, op, Effect(v, op))
  {
    hide Says, Effect, Legal;
    if op.AddRegion? || op.DelRegion? {
      RegionsSay(v, op);
    } else if op.AddRef? || op.DelRef? || op.DelRefsByPid? {
      RefsSay(v, op);
    } else {
      RecordsSay(v, op);
    }
  }
}
