/** Whole-run results about the record store: refinement of the view, restart, ownership, references. */
module StoreTheorems {
  import opened Words
  import opened Catalog
  import opened RefIndex
  import opened RegionBitmap
  import opened Holdings
  import opened StoreSpec
  import IdPool

  // ---- the reference counts

  ghost predicate Proper(a: Counts) {
    && (forall n :: n in a ==> a[n] != map[])
    && (forall n, p :: n in a && p in a[n] ==> a[n][p] > 0)
  }

  /** Count maps without empty entries are decided by their counts. */
  lemma CountsEqual(a: Counts, b: Counts)
    requires Proper(a) && Proper(b) && forall n, p: i32 :: Count(a, n, p) == Count(b, n, p)
    ensures a == b
  {
    NamesIncluded(a, b);
    NamesIncluded(b, a);
    forall n | n in a
      ensures a[n] == b[n]
    {
      forall p: i32
        ensures p in a[n] <==> p in b[n]
        ensures p in a[n] ==> a[n][p] == b[n][p]
      {
        assert Count(a, n, p) == Count(b, n, p);
      }
    }
  }

  lemma NamesIncluded(a: Counts, b: Counts)
    requires Proper(a) && forall n, p: i32 :: Count(a, n, p) == Count(b, n, p)
    ensures forall n :: n in a ==> n in b
  {
    forall n | n in a
      ensures n in b
    {
      var p :| p in a[n];
      assert Count(a, n, p) == Count(b, n, p);
    }
  }

  lemma RefCountsExact(c: Catalog<Import>, r: Refs)
    requires NonEmpty(r.byIndex)
    ensures Proper(RefCounts(c, r))
    ensures forall n, p: i32 :: Count(RefCounts(c, r), n, p) == if n in c.cache then |Vec(r.byIndex, c.cache[n].slot, p)| else 0
  {
    var a := RefCounts(c, r);
    forall n | n in a
      ensures a[n] != map[]
    {
      var p :| p in r.byIndex[c.cache[n].slot];
      assert p in a[n];
    }
  }

  lemma CountedExact(a: Counts, n: string, p: i32, count: nat)
    requires Proper(a)
    ensures Proper(Counted(a, n, p, count))
    ensures forall x, q: i32 :: Count(Counted(a, n, p, count), x, q) == if x == n && q == p then count else Count(a, x, q)
  {
    var m := if n in a then a[n] else map[];
    var m' := if count == 0 then m - {p} else m[p := count];
    forall x, q: i32
      ensures Count(Counted(a, n, p, count), x, q) == if x == n && q == p then count else Count(a, x, q)
    {
      if x == n {
        assert q != p ==> (q in m' <==> q in m);
        assert q in m' ==> m' != map[];
      }
    }
  }

  lemma WithoutPidExact(a: Counts, p: i32)
    requires Proper(a)
    ensures Proper(WithoutPid(a, p))
    ensures forall x, q: i32 :: Count(WithoutPid(a, p), x, q) == if q == p then 0 else Count(a, x, q)
  {
    forall x, q: i32
      ensures Count(WithoutPid(a, p), x, q) == if q == p then 0 else Count(a, x, q)
    {
      if x in a && q in a[x] && q != p {
        assert q in a[x] - {p};
      }
    }
  }

  /** Adding or removing imports that nobody references leaves the counts alone. */
  lemma RefCountsFrame(c: Catalog<Import>, d: Catalog<Import>, r: Refs)
    requires NonEmpty(r.byIndex)
    requires forall n :: n in c.cache && c.cache[n].slot in r.byIndex ==> n in d.cache && d.cache[n].slot == c.cache[n].slot
    requires forall n :: n in d.cache && d.cache[n].slot in r.byIndex ==> n in c.cache && d.cache[n].slot == c.cache[n].slot
    ensures RefCounts(d, r) == RefCounts(c, r)
  {
  }

  // ---- one step: invariant, exact success condition, and the abstract effect

  /** A step keeps the invariant, succeeds exactly when legal and in room, and acts as on the view. */
  ghost predicate Refines(st: Store, op: Op)
    requires Bounded(st)
  {
    var (q, ok) := Step(st, op);
    && Inv(q) && Bounded(q)
    && (ok <==> Legal(ViewOf(st), op) && Fits(st, op))
    && ViewOf(q) == if ok then Effect(ViewOf(st), op) else ViewOf(st)
  }

  lemma RegionStep(st: Store, op: Op)
    requires Inv(st) && Bounded(st) && WellFormed(st, op) && (op.AddRegion? || op.DelRegion?)
    ensures Refines(st, op)
  {
    hide IdPool.FindChain, IdPool.FillAllocated, Shares, RefsOk, RefCounts, Encoded;
    assert OneHeadEach(st.regions);
    if op.AddRegion? {
      if NodesOk(op.nodeIds, op.affinity) {
        AddedSound(st.regions, st.pool.lines, op.name, RegionOf(op.size, op.nodeIds, op.affinity));
      }
    } else if op.name in st.regions.cache {
      RemovedSound(st.regions, st.pool.lines, op.name);
    }
    InvBounded(Step(st, op).0);
  }

  lemma SharesSame<P, Q>(c: Catalog<P>, d: Catalog<P>, o: Catalog<Q>, pool: IdPool.Pool)
    requires Shares(c, o, pool) && Sound(d, pool.lines) && OneHeadEach(d) && Heads(d) == Heads(c)
    ensures Shares(d, o, pool)
  {
  }

  lemma NoIdsFrame<P>(c: Catalog<P>, m: seq<IdPool.Row>, n: seq<IdPool.Row>)
    requires IdPool.Sized(m) && IdPool.Sized(n) && Sound(c, m) && NoIds(c)
    ensures Sound(c, n)
  {
    assert Heads(c) == {};
    SoundFrame(c, m, n);
  }

  lemma LeaseAddStep(st: Store, op: Op)
    requires Inv(st) && Bounded(st) && WellFormed(st, op) && op.AddLease?
    ensures Refines(st, op)
  {
    hide IdPool.FindChain, IdPool.FillAllocated, RefsOk, RefCounts, IdPool.Separate;
    var q := Step(st, op).0;
    AddedSound(st.leases, st.pool.lines, op.name, Lease(op.size, op.owner, op.fdMode, op.distance, -1, 0, 0, op.state));
    hide Added;
    SharesSame(st.leases, q.leases, st.imports, st.pool);
    InvBounded(q);
  }

  lemma LeaseRewriteStep(st: Store, op: Op)
    requires Inv(st) && Bounded(st) && (op.SetLeaseState? || op.UpdateLease?)
    ensures Refines(st, op)
  {
    hide IdPool.FindChain, IdPool.FillAllocated, RefsOk, RefCounts, IdPool.Separate;
    if op.name in st.leases.cache {
      var q := Step(st, op).0;
      var was := LeaseAt(st, op.name);
      RewrittenSound(st.leases, st.pool.lines, op.name,
                     if op.SetLeaseState? then was.(state := op.state) else was.(owner := op.owner, size := op.size));
      hide Rewritten;
      SharesSame(st.leases, q.leases, st.imports, st.pool);
      InvBounded(q);
    }
  }

  lemma LeasePoolStep(st: Store, op: Op)
    requires Inv(st) && Bounded(st) && WellFormed(st, op) && (op.AddLeaseResult? || op.DelLease?)
    ensures Refines(st, op)
  {
    hide IdPool.FindChain, IdPool.FillAllocated, RefsOk, RefCounts, IdPool.Separate, Removed, WithIds;
    if op.name in st.leases.cache {
      var q := Step(st, op).0;
      if op.AddLeaseResult? {
        ResultKeeps(st.leases, st.imports, st.pool, op.name, LeaseDone(LeaseAt(st, op.name), op.lease), op.lease.memIds);
      } else {
        RemoveKeeps(st.leases, st.imports, st.pool, op.name);
      }
      NoIdsFrame(st.regions, st.pool.lines, q.pool.lines);
      InvBounded(q);
    }
  }

  /** References survive any change of the imports that keeps every referenced name in its slot. */
  lemma KeepRefs(c: Catalog<Import>, d: Catalog<Import>, m: seq<IdPool.Row>, n: seq<IdPool.Row>, r: Refs)
    requires IdPool.Sized(m) && IdPool.Sized(n) && Sound(c, m) && Sound(d, n)
    requires |d.table.recs| == |c.table.recs| && RefsLive(c, r) && NonEmpty(r.byIndex)
    requires forall x :: x in c.cache && c.cache[x].slot in r.byIndex ==> x in d.cache && d.cache[x].slot == c.cache[x].slot
    requires forall x :: x in d.cache && d.cache[x].slot in r.byIndex ==> x in c.cache && d.cache[x].slot == c.cache[x].slot
    ensures RefsLive(d, r) && RefCounts(d, r) == RefCounts(c, r)
  {
    hide IdPool.FillAllocated;
    RefCountsFrame(c, d, r);
    forall i | i in r.byIndex
      ensures i < |d.table.recs| && d.table.recs[i].name != ""
    {
      var x := c.table.recs[i].name;
      assert x in c.cache && c.cache[x].slot == i;
      assert x in d.cache && d.cache[x].slot == i;
    }
  }

  lemma ImportAddStep(st: Store, op: Op)
    requires Inv(st) && Bounded(st) && WellFormed(st, op) && op.AddImport?
    ensures Refines(st, op)
  {
    hide IdPool.FindChain, IdPool.FillAllocated, Holds, RefCounts, IdPool.Separate;
    var q := Step(st, op).0;
    AddedSound(st.imports, st.pool.lines, op.name, Import(op.size, Owner(AsU32(op.pid), 0, 0), 0, 0, 0, PreAdd));
    hide Added;
    SharesSwap(st.leases, st.imports, st.pool);
    SharesSame(st.imports, q.imports, st.leases, st.pool);
    ImportsChanged(st, q);
  }

  lemma ImportStateStep(st: Store, op: Op)
    requires Inv(st) && Bounded(st) && op.SetImportState?
    ensures Refines(st, op)
  {
    hide IdPool.FindChain, IdPool.FillAllocated, Holds, RefCounts, IdPool.Separate;
    if op.name in st.imports.cache {
      var q := Step(st, op).0;
      RewrittenSound(st.imports, st.pool.lines, op.name, ImportAt(st, op.name).(state := op.state));
      SharesSwap(st.leases, st.imports, st.pool);
      SharesSame(st.imports, q.imports, st.leases, st.pool);
      ImportsChanged(st, q);
    }
  }

  lemma NonEmptyIndex(r: Refs)
    requires RefsOk(r)
    ensures NonEmpty(r.byIndex)
  {
  }

  lemma ImportResultStep(st: Store, op: Op)
    requires Inv(st) && Bounded(st) && op.AddImportResult?
    ensures Refines(st, op)
  {
    RefDomain(st);
    hide Inv, Bounded, RefCounts, Contents, ResultState;
    if op.name in st.imports.cache && |op.name| < NAME_SIZE {
      ImportResult(st, op.name, ImportDone(ImportAt(st, op.name), op.attach), op.attach.memIds);
    }
  }

  lemma ImportResult(st: Store, name: string, body: Import, ids: seq<u64>)
    requires Inv(st) && Bounded(st) && name in st.imports.cache
    ensures Contents(st.imports)[name].body == ImportAt(st, name)
    ensures var (c, pool, ok) := ResultState(st.imports, st.pool, name, body, ids);
      var q := st.(imports := c, pool := pool);
      && Inv(q) && Bounded(q) && RefCounts(q.imports, q.refs) == RefCounts(st.imports, st.refs)
      && (ok <==> ids != [] && IdPool.LinesNeed(|ids|) <= |st.pool.idle|)
      && Contents(q.imports) == if ok then Contents(st.imports)[name := Item(body, ids)] else Contents(st.imports)
  {
    hide Inv, RefCounts, IdPool.Allocate, Sound, Shares, IdPool.FillAllocated;
    InvParts(st);
    SharesSwap(st.leases, st.imports, st.pool);
    ResultKeeps(st.imports, st.leases, st.pool, name, body, ids);
    var (c, pool, ok) := ResultState(st.imports, st.pool, name, body, ids);
    ImportsChanged(st, st.(imports := c, pool := pool));
  }

  lemma ImportDeleteStep(st: Store, op: Op)
    requires Inv(st) && Bounded(st) && op.DelImport?
    ensures Refines(st, op)
  {
    hide IdPool.FindChain, IdPool.FillAllocated, Holds, IdPool.Separate, IdPool.Release;
    if op.name in st.imports.cache && st.imports.cache[op.name].slot !in st.refs.byIndex {
      var q := Step(st, op).0;
      SharesSwap(st.leases, st.imports, st.pool);
      RemoveKeeps(st.imports, st.leases, st.pool, op.name);
      hide RefCounts;
      ImportsChanged(st, q);
    }
  }

  /** A change of imports and pool that keeps ownership and every referenced name in its slot. */
  lemma ImportsChanged(st: Store, q: Store)
    requires Inv(st) && q == st.(imports := q.imports, pool := q.pool)
    requires Shares(q.imports, st.leases, q.pool) && |q.imports.table.recs| == |st.imports.table.recs|
    requires forall x :: x in st.imports.cache && st.imports.cache[x].slot in st.refs.byIndex ==>
      x in q.imports.cache && q.imports.cache[x].slot == st.imports.cache[x].slot
    requires forall x :: x in q.imports.cache && q.imports.cache[x].slot in st.refs.byIndex ==>
      x in st.imports.cache && q.imports.cache[x].slot == st.imports.cache[x].slot
    ensures Inv(q) && Bounded(q) && RefCounts(q.imports, q.refs) == RefCounts(st.imports, st.refs)
  {
    hide IdPool.FindChain, IdPool.FillAllocated, Holds, IdPool.Separate, RefCounts;
    SharesSwap(q.imports, st.leases, q.pool);
    NoIdsFrame(st.regions, st.pool.lines, q.pool.lines);
    NonEmptyIndex(st.refs);
    KeepRefs(st.imports, q.imports, st.pool.lines, q.pool.lines, st.refs);
    InvBounded(q);
  }

  /** A change of the references only: they must still point to imports. */
  lemma RefsChanged(st: Store, r: Refs)
    requires Inv(st) && RefsOk(r) && |r.table.recs| == |st.refs.table.recs|
    requires forall i: nat, p: i32 {:trigger Vec(r.byIndex, i, p)} :: Vec(r.byIndex, i, p) != [] ==>
      Vec(st.refs.byIndex, i, p) != [] || (i < |st.imports.table.recs| && st.imports.table.recs[i].name != "")
    ensures Inv(st.(refs := r)) && Bounded(st.(refs := r))
  {
    hide Shares, Sound, Holds;
    NonEmptyIndex(r);
    forall i: nat | i in r.byIndex
      ensures i < |st.imports.table.recs| && st.imports.table.recs[i].name != ""
    {
      var p: i32 :| p in r.byIndex[i];
      assert Vec(r.byIndex, i, p) != [];
    }
    InvBounded(st.(refs := r));
  }

  /** Changing the slots of one (name, process) pair changes exactly that count. */
  lemma OneCount(c: Catalog<Import>, m: seq<IdPool.Row>, r: Refs, q: Refs, name: string, pid: i32, v: seq<nat>)
    requires IdPool.Sized(m) && Sound(c, m) && name in c.cache
    requires NonEmpty(r.byIndex) && VecIs(r.byIndex, q.byIndex, c.cache[name].slot, pid, v)
    ensures RefCounts(c, q) == Counted(RefCounts(c, r), name, pid, |v|)
  {
    hide IdPool.FillAllocated, Vec, RefCounts, Counted, Count, NonEmpty;
    RefCountsExact(c, r);
    RefCountsExact(c, q);
    CountedExact(RefCounts(c, r), name, pid, |v|);
    assert forall x :: x in c.cache && c.cache[x].slot == c.cache[name].slot ==> x == name;
    CountsEqual(RefCounts(c, q), Counted(RefCounts(c, r), name, pid, |v|));
  }

  lemma AddRefStep(st: Store, op: Op)
    requires Inv(st) && Bounded(st) && op.AddRef?
    ensures Refines(st, op)
  {
    hide IdPool.FindChain, IdPool.FillAllocated, Holds, Vec, NonEmpty, IdPool.Separate, Counted, Count, RefCounts;
    var (q, ok) := Step(st, op);
    if ok {
      var i := st.imports.cache[op.name].slot;
      NonEmptyIndex(st.refs);
      AddedRefOk(st.refs, op.pid, i);
      NonEmptyIndex(q.refs);
      RefCountsExact(st.imports, st.refs);
      hide RefsOk, AddedRef, Push;
      OneCount(st.imports, st.pool.lines, st.refs, q.refs, op.name, op.pid,
               Vec(st.refs.byIndex, i, op.pid) + [st.refs.table.idle[|st.refs.table.idle| - 1]]);
      RefsChanged(st, q.refs);
    }
  }

  lemma DelRefStep(st: Store, op: Op)
    requires Inv(st) && Bounded(st) && op.DelRef?
    ensures Refines(st, op)
  {
    RefDomain(st);
    hide Inv, Bounded, DroppedRef, Counted, RefCounts, Contents;
    if op.pid != 0 && op.name != "" && |op.name| < NAME_SIZE && op.name in st.imports.cache {
      Dropped(st, op.pid, op.name);
    }
  }

  lemma RefDomain(st: Store)
    requires Inv(st) && Bounded(st)
    ensures Contents(st.imports).Keys == st.imports.cache.Keys
    ensures forall n, p: i32 :: Count(RefCounts(st.imports, st.refs), n, p) > 0 ==> n in st.imports.cache
  {
    hide IdPool.FindChain, IdPool.FillAllocated, Holds, IdPool.Separate;
    NonEmptyIndex(st.refs);
    RefCountsExact(st.imports, st.refs);
  }

  lemma InvParts(st: Store)
    requires Inv(st)
    ensures IdPool.Sized(st.pool.lines) && Sound(st.imports, st.pool.lines) && RefsOk(st.refs)
    ensures Shares(st.leases, st.imports, st.pool)
  {
  }

  lemma Dropped(st: Store, pid: i32, name: string)
    requires Inv(st) && Bounded(st) && name in st.imports.cache
    ensures var (r, ok) := DroppedRef(st.refs, pid, st.imports.cache[name].slot);
      var a := RefCounts(st.imports, st.refs); var count := Count(a, name, pid);
      && (ok <==> count > 0)
      && Inv(st.(refs := r)) && Bounded(st.(refs := r))
      && RefCounts(st.imports, r) == if ok then Counted(a, name, pid, count - 1) else a
  {
    hide Inv, Bounded, Sound, Vec, NonEmpty, Counted, RefCounts, DroppedRef, RefsOk;
    InvParts(st);
    var i := st.imports.cache[name].slot;
    var (r, ok) := DroppedRef(st.refs, pid, i);
    var was := Vec(st.refs.byIndex, i, pid);
    NonEmptyIndex(st.refs);
    RefCountsExact(st.imports, st.refs);
    DroppedRefOk(st.refs, pid, i);
    NonEmptyIndex(r);
    RefsChanged(st, r);
    if ok {
      OneCount(st.imports, st.pool.lines, st.refs, r, name, pid, was[..|was| - 1]);
    } else {
      RefCountsExact(st.imports, r);
      CountsEqual(RefCounts(st.imports, r), RefCounts(st.imports, st.refs));
    }
  }

  lemma DropPidStep(st: Store, op: Op)
    requires Inv(st) && Bounded(st) && WellFormed(st, op) && op.DelRefsByPid?
    ensures Refines(st, op)
  {
    hide IdPool.FindChain, IdPool.FillAllocated, Holds, Vec, NonEmpty, IdPool.Separate, Counted, RefCounts;
    if op.pid != 0 {
      var q := Step(st, op).0;
      var a := RefCounts(st.imports, st.refs);
      NonEmptyIndex(st.refs);
      DroppedPidOk(st.refs, op.pid, op.order);
      NonEmptyIndex(q.refs);
      RefCountsExact(st.imports, st.refs);
      RefCountsExact(st.imports, q.refs);
      WithoutPidExact(a, op.pid);
      CountsEqual(RefCounts(st.imports, q.refs), WithoutPid(a, op.pid));
      RefsChanged(st, q.refs);
    }
  }

  // ---- restart

  lemma SharesRestart<P, Q>(c: Catalog<P>, o: Catalog<Q>, pool: IdPool.Pool)
    requires Shares(c, o, pool)
    ensures var m := pool.lines;
      && Shares(RestoredCatalog(c.table.recs, m), RestoredCatalog(o.table.recs, m), IdPool.Initialize(m))
      && RestoredCatalog(c.table.recs, m).cache == c.cache
      && RestoredCatalog(o.table.recs, m).cache == o.cache
  {
    var m := pool.lines;
    RestoreExact(c, m);
    RestoreExact(o, m);
    var d, u := RestoredCatalog(c.table.recs, m), RestoredCatalog(o.table.recs, m);
    hide IdPool.FindChain, IdPool.FillAllocated, RestoredCatalog;
    SameHeads(c, d);
    SameHeads(o, u);
  }

  lemma SameHeads<P>(c: Catalog<P>, d: Catalog<P>)
    requires InBounds(c) && InBounds(d) && d.cache == c.cache && d.table.recs == c.table.recs
    ensures Heads(d) == Heads(c) && Contents(d) == Contents(c) && (OneHeadEach(c) ==> OneHeadEach(d))
  {
    assert forall n :: n in c.cache ==> HeadOf(d, n) == HeadOf(c, n);
  }

  /**
    Restart refinement: rebuilding everything from the persistent arrays alone gives the same
    region, lease and import caches (ids included), the same reference slots per pair, and a
    store that again satisfies the invariant.
    */
  lemma RestartExact(st: Store)
    requires Inv(st)
    ensures var q := Restarted(st);
      && Inv(q)
      && q.regions.cache == st.regions.cache && q.leases.cache == st.leases.cache && q.imports.cache == st.imports.cache
      && (forall i: nat, p: i32 :: multiset(Vec(q.refs.byIndex, i, p)) == multiset(Vec(st.refs.byIndex, i, p)))
  {
    hide IdPool.FindChain, IdPool.FillAllocated, Holds, IdPool.Separate, Vec;
    var q := Restarted(st);
    SharesRestart(st.leases, st.imports, st.pool);
    RestoreExact(st.regions, st.pool.lines);
    RestoredRefsOk(st.refs.table.recs);
    hide RestoredCatalog, RestoredRefs, Shares, Sound, RefsOk;
    SameSlotsSameRefs(st.refs, q.refs);
  }

  lemma RestartView(st: Store)
    requires Inv(st)
    ensures IdPool.Sized(st.pool.lines) && Bounded(st)
    ensures Bounded(Restarted(st)) && ViewOf(Restarted(st)) == ViewOf(st)
  {
    var q := Restarted(st);
    RestartExact(st);
    InvBounded(st);
    InvBounded(q);
    NonEmptyIndex(st.refs);
    NonEmptyIndex(q.refs);
    hide Inv, RestoredCatalog, RestoredRefs, RefCounts, Vec;
    RestartedCounts(st, q);
    SameHeads(st.regions, q.regions);
    SameHeads(st.leases, q.leases);
    SameHeads(st.imports, q.imports);
  }

  lemma RestartStep(st: Store)
    requires Inv(st) && Bounded(st)
    ensures Refines(st, Restart)
  {
    hide Inv, Bounded, ViewOf, Restarted;
    RestartExact(st);
    RestartView(st);
  }

  lemma RestartedCounts(st: Store, q: Store)
    requires NonEmpty(st.refs.byIndex) && NonEmpty(q.refs.byIndex) && q.imports.cache == st.imports.cache
    requires forall i: nat, p: i32 :: multiset(Vec(q.refs.byIndex, i, p)) == multiset(Vec(st.refs.byIndex, i, p))
    ensures RefCounts(q.imports, q.refs) == RefCounts(st.imports, st.refs)
  {
    RefCountsExact(st.imports, st.refs);
    RefCountsExact(q.imports, q.refs);
    forall i: nat, p: i32
      ensures |Vec(q.refs.byIndex, i, p)| == |Vec(st.refs.byIndex, i, p)|
    {
      assert |multiset(Vec(q.refs.byIndex, i, p))| == |multiset(Vec(st.refs.byIndex, i, p))|;
    }
    hide RefCounts, Vec;
    CountsEqual(RefCounts(q.imports, q.refs), RefCounts(st.imports, st.refs));
  }

  /** Every operation, in one statement. */
  lemma StepRefines(st: Store, op: Op)
    requires Inv(st) && WellFormed(st, op)
    ensures Bounded(st) && Refines(st, op)
  {
    InvBounded(st);
    hide Refines, Inv, WellFormed;
    match op
    case AddRegion(_, _, _, _) => RegionStep(st, op);
    case DelRegion(_) => RegionStep(st, op);
    case AddLease(_, _, _, _, _, _) => LeaseAddStep(st, op);
    case AddLeaseResult(_, _) => LeasePoolStep(st, op);
    case SetLeaseState(_, _) => LeaseRewriteStep(st, op);
    case UpdateLease(_, _, _) => LeaseRewriteStep(st, op);
    case DelLease(_) => LeasePoolStep(st, op);
    case AddImport(_, _, _) => ImportAddStep(st, op);
    case AddImportResult(_, _) => ImportResultStep(st, op);
    case SetImportState(_, _) => ImportStateStep(st, op);
    case DelImport(_) => ImportDeleteStep(st, op);
    case AddRef(_, _) => AddRefStep(st, op);
    case DelRef(_, _) => DelRefStep(st, op);
    case DelRefsByPid(_, _) => DropPidStep(st, op);
    case Restart => RestartStep(st);
  }

  // ---- whole runs

  ghost predicate ValidRun(st: Store, ops: seq<Op>)
    decreases |ops|
  {
    ops != [] ==> Bounded(st) && WellFormed(st, ops[0]) && ValidRun(Step(st, ops[0]).0, ops[1..])
  }

  ghost function Run(st: Store, ops: seq<Op>): (r: (Store, seq<bool>))
    requires ValidRun(st, ops)
    ensures |r.1| == |ops|
    decreases |ops|
  {
    if ops == [] then (st, [])
    else
      var (q, ok) := Step(st, ops[0]);
      var (z, oks) := Run(q, ops[1..]);
      (z, [ok] + oks)
  }

  /** The same run on four plain maps, told only which operations succeeded. */
  ghost function Replay(v: View, ops: seq<Op>, oks: seq<bool>): View
    requires |oks| == |ops|
    decreases |ops|
  {
    if ops == [] then v
    else Replay(if oks[0] && Legal(v, ops[0]) then Effect(v, ops[0]) else v, ops[1..], oks[1..])
  }

  /**
    For every run of operations and restarts, from any good store: the store stays good, its view
    is what the plain maps say, and one more restart at the end changes nothing.
    */
  lemma {:induction false} RunRefines(st: Store, ops: seq<Op>)
    requires Inv(st) && ValidRun(st, ops)
    ensures var (z, oks) := Run(st, ops);
      && Bounded(st) && Inv(z) && Bounded(z) && Bounded(Restarted(z))
      && ViewOf(z) == Replay(ViewOf(st), ops, oks)
      && ViewOf(Restarted(z)) == ViewOf(z)
    decreases |ops|
  {
    hide Inv, Effect, Legal, ViewOf, WellFormed, Step, Restarted, Bounded, Fits;
    if ops == [] {
      RestartView(st);
    } else {
      StepRefines(st, ops[0]);
      RunRefines(Step(st, ops[0]).0, ops[1..]);
    }
  }
}
