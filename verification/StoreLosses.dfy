/** The two ways a store loses something, each reached from freshly mapped memory. */
module StoreLosses {
  import opened Words
  import opened Catalog
  import opened RefIndex
  import opened RegionBitmap
  import opened Holdings
  import opened StoreSpec
  import opened StoreTheorems
  import opened StoreResults
  import IdPool

  /** A fresh store has a free lease slot and every line of the pool. */
  lemma FreshRoom(zero: Store)
    requires ZeroMemory(zero)
    ensures Restarted(zero).leases.table.idle != [] && |Restarted(zero).pool.idle| == IdPool.LINE_COUNT
  {
    var m := zero.pool.lines;
    ZeroCatalog(zero.leases.table.recs, m);
    hide RestoredCatalog, Sound;
    SlotsAddUp(RestoredCatalog(zero.leases.table.recs, m), m);
    FullPool(m);
  }

  lemma FullPool(m: seq<IdPool.Row>)
    requires IdPool.Sized(m) && forall l :: 0 <= l < IdPool.LINE_COUNT ==> m[l][0] == 0
    ensures |IdPool.Initialize(m).idle| == IdPool.LINE_COUNT
  {
    var idle := IdPool.Initialize(m).idle;
    DistinctCard(idle);
    hide IdPool.Initialize;
    assert Elems(idle) == Below(IdPool.LINE_COUNT);
  }

  /** An add under any name at all, as the plain maps see it, and when it keeps the store good. */
  ghost predicate AddRefines(st: Store, op: Op)
    requires Bounded(st) && (op.AddRegion? || op.AddLease? || op.AddImport?)
  {
    var (q, ok) := Step(st, op);
    && Bounded(q)
    && (ok <==> Legal(ViewOf(st), op) && Fits(st, op))
    && ViewOf(q) == (if ok then Effect(ViewOf(st), op) else ViewOf(st))
    && (Inv(q) <==> (ok ==> Clean(op.name)))
  }

  /** Whatever the name, an add acts on the view as on plain maps; the store stays good if and only if the name is clean or refused. */
  lemma AddAnyName(st: Store, op: Op)
    requires Inv(st) && (op.AddRegion? || op.AddLease? || op.AddImport?)
    ensures Bounded(st) && AddRefines(st, op)
  {
    InvBounded(st);
    if Clean(op.name) {
      StepRefines(st, op);
      hide Inv, Bounded, ViewOf, Legal, Fits, Effect, Step;
    } else {
      match op
      case AddRegion(_, _, _, _) => UncleanRegion(st, op);
      case AddLease(_, _, _, _, _, _) => UncleanLease(st, op);
      case AddImport(_, _, _) => UncleanImport(st, op);
    }
  }

  lemma UncleanRegion(st: Store, op: Op)
    requires Inv(st) && Bounded(st) && op.AddRegion? && !Clean(op.name)
    ensures AddRefines(st, op)
  {
    hide IdPool.FindChain, IdPool.FillAllocated, Shares, RefsOk, RefCounts, Encoded, Stored;
    if NodesOk(op.nodeIds, op.affinity) {
      UncleanAdded(st.regions, st.pool.lines, op.name, RegionOf(op.size, op.nodeIds, op.affinity));
    }
    hide Added, Sound;
  }

  lemma UncleanLease(st: Store, op: Op)
    requires Inv(st) && Bounded(st) && op.AddLease? && !Clean(op.name)
    ensures AddRefines(st, op)
  {
    hide IdPool.FindChain, IdPool.FillAllocated, RefsOk, RefCounts, IdPool.Separate, Stored;
    UncleanAdded(st.leases, st.pool.lines, op.name, Lease(op.size, op.owner, op.fdMode, op.distance, -1, 0, 0, op.state));
    hide Added, Sound;
  }

  lemma UncleanImport(st: Store, op: Op)
    requires Inv(st) && Bounded(st) && op.AddImport? && !Clean(op.name)
    ensures AddRefines(st, op)
  {
    hide IdPool.FindChain, IdPool.FillAllocated, RefsOk, RefCounts, IdPool.Separate, Stored;
    UncleanAdded(st.imports, st.pool.lines, op.name, Import(op.size, Owner(AsU32(op.pid), 0, 0), 0, 0, 0, PreAdd));
    var (q, ok) := Step(st, op);
    hide Added, Sound;
    if ok {
      SameCounts(st.imports, q.imports, st.refs, op.name);
    }
  }

  lemma SameCounts(c: Catalog<Import>, d: Catalog<Import>, r: Refs, name: string)
    requires RefsLive(c, r) && name !in c.cache && name in d.cache && d.cache == c.cache[name := d.cache[name]]
    requires d.cache[name].slot < |c.table.recs| && c.table.recs[d.cache[name].slot].name == ""
    ensures RefCounts(d, r) == RefCounts(c, r)
  {
  }

  /** In a fresh store, a lease under a name that is empty or holds a NUL is added, and gone after a restart. */
  lemma NameLost(zero: Store, name: string, size: u64, owner: Owner)
    requires ZeroMemory(zero) && !Clean(name) && |name| < NAME_SIZE
    ensures Bounded(Restarted(zero))
    ensures var (q, ok) := Step(Restarted(zero), AddLease(name, size, owner, true, 0, RecordState.PreAdd));
      ok && name in q.leases.cache && IdPool.Sized(q.pool.lines) && name !in Restarted(q).leases.cache
  {
    ZeroMemoryInv(zero);
    FreshRoom(zero);
    var b, body := Restarted(zero), Lease(size, owner, true, 0, -1, 0, 0, RecordState.PreAdd);
    InvParts(b);
    assert Sound(b.leases, b.pool.lines);
    hide Restarted, RestoredCatalog, Inv, Shares, Sound;
    assert Added(b.leases, name, body).1 by { assert Contents(b.leases) == ViewOf(b).leases; }
    UncleanLost(b.leases, b.pool.lines, name, body);
    RestartedLeases(Step(b, AddLease(name, size, owner, true, 0, RecordState.PreAdd)).0);
  }

  lemma RestartedLeases(st: Store)
    requires IdPool.Sized(st.pool.lines)
    ensures Restarted(st).leases == RestoredCatalog(st.leases.table.recs, st.pool.lines)
  {
  }

  const NAME := "a"
  const IDS := LeaseResult([7], 0, 1, 0)
  const ADD := AddLease(NAME, 1, Owner(1, 0, 0), true, 0, RecordState.PreAdd)
  const RESULT := AddLeaseResult(NAME, IDS)

  lemma Succeeds(st: Store, op: Op)
    requires Inv(st) && Bounded(st) && Owned(st) && WellFormed(st, op)
    requires Legal(ViewOf(st), op) && Fits(st, op) && !LosesChain(st, op)
    ensures var (q, ok) := Step(st, op);
      ok && Inv(q) && Bounded(q) && Owned(q) && ViewOf(q) == Effect(ViewOf(st), op)
  {
    StepRefines(st, op);
    StepOwned(st, op);
    hide Step, Inv, Bounded, Owned, ViewOf, Effect, Legal, Fits;
  }

  lemma AddsLease(b: Store)
    requires Inv(b) && Bounded(b) && Owned(b) && b.leases.table.idle != [] && ViewOf(b).leases == map[]
    ensures var (q, ok) := Step(b, ADD);
      && ok && Inv(q) && Bounded(q) && Owned(q) && q.pool == b.pool
      && NAME in q.leases.cache && q.leases.cache[NAME].memIds == []
  {
    Succeeds(b, ADD);
    HeadsKept(b, ADD);
    hide Step, Inv, Bounded, Owned, ViewOf;
    InCache(Step(b, ADD).0);
  }

  lemma InCache(st: Store)
    requires Bounded(st) && NAME in ViewOf(st).leases
    ensures NAME in st.leases.cache && st.leases.cache[NAME].memIds == ViewOf(st).leases[NAME].memIds
  {
  }

  lemma StoresIds(st: Store)
    requires Inv(st) && Bounded(st) && Owned(st) && |st.pool.idle| > 0
    requires NAME in st.leases.cache && st.leases.cache[NAME].memIds == []
    ensures var (q, ok) := Step(st, RESULT);
      && ok && Inv(q) && Bounded(q) && Owned(q) && |q.pool.idle| == |st.pool.idle| - 1
      && NAME in q.leases.cache && q.leases.cache[NAME].memIds == [7]
  {
    hide *;
    ResultLegal(st);
    Succeeds(st, RESULT);
    OneLineLess(st);
    InCache(Step(st, RESULT).0);
  }

  lemma ResultLegal(st: Store)
    requires Bounded(st) && |st.pool.idle| > 0 && NAME in st.leases.cache
    ensures WellFormed(st, RESULT) && (LosesChain(st, RESULT) <==> st.leases.cache[NAME].memIds != [])
    ensures Legal(ViewOf(st), RESULT) && Fits(st, RESULT)
    ensures var v := Effect(ViewOf(st), RESULT).leases; NAME in v && v[NAME].memIds == [7]
  {
    hide Bounded;
  }

  lemma OneLineLess(st: Store)
    requires Inv(st) && Bounded(st) && NAME in st.leases.cache && |st.pool.idle| > 0
    ensures |Step(st, RESULT).0.pool.idle| == |st.pool.idle| - 1
  {
    InvParts(st);
    TakesOne(st.pool);
    assert Step(st, RESULT).0.pool == IdPool.Allocate(st.pool, [7]).0 by {
      hide Inv, Shares, Sound, IdPool.Allocate, IdPool.IdleExact;
    }
  }

  lemma TakesOne(p: IdPool.Pool)
    requires IdPool.IdleExact(p) && |p.idle| > 0
    ensures |IdPool.Allocate(p, [7]).0.idle| == |p.idle| - 1
  {
    IdPool.AllocateFillRoundTrip(p, [7]);
    hide IdPool.Allocate, IdPool.FindChain, IdPool.FillAllocated;
  }

  /** In a fresh store, a lease that is given its ids twice loses the first chain: some line is neither free nor owned. */
  lemma SecondResultLeaks(zero: Store)
    requires ZeroMemory(zero)
    ensures var b := Restarted(zero); var ops := [ADD, RESULT, RESULT];
      && ValidRun(b, ops) && Run(b, ops).1 == [true, true, true]
      && Bounded(Run(b, ops).0) && !Owned(Run(b, ops).0)
  {
    var b := Restarted(zero);
    ZeroMemoryInv(zero);
    FreshRoom(zero);
    hide *;
    AddsLease(b);
    var s1 := Step(b, ADD).0;
    StoresIds(s1);
    var s2 := Step(s1, RESULT).0;
    ResultLegal(s1);
    Leaks(s2);
    AddIsFormed(b);
    ThreeSteps(b, ADD, RESULT, RESULT);
  }

  lemma AddIsFormed(st: Store)
    ensures WellFormed(st, ADD)
  {
  }

  lemma Leaks(st: Store)
    requires Inv(st) && Bounded(st) && Owned(st) && |st.pool.idle| > 0
    requires NAME in st.leases.cache && st.leases.cache[NAME].memIds != []
    ensures WellFormed(st, RESULT)
    ensures var (q, ok) := Step(st, RESULT); ok && Bounded(q) && !Owned(q)
  {
    ResultLegal(st);
    StepOwned(st, RESULT);
    StepRefines(st, RESULT);
    hide Step, Inv, Bounded, Owned, ViewOf, Legal, Fits;
  }

  lemma ThreeSteps(st: Store, x: Op, y: Op, z: Op)
    requires Bounded(st) && WellFormed(st, x)
    requires var s1 := Step(st, x).0; Bounded(s1) && WellFormed(s1, y)
    requires var s2 := Step(Step(st, x).0, y).0; Bounded(s2) && WellFormed(s2, z) && Bounded(Step(s2, z).0)
    ensures var s1 := Step(st, x).0; var s2 := Step(s1, y).0;
      && ValidRun(st, [x, y, z])
      && Run(st, [x, y, z]) == (Step(s2, z).0, [Step(st, x).1, Step(s1, y).1, Step(s2, z).1])
  {
    hide Step, Bounded, WellFormed;
    var s1 := Step(st, x).0;
    var s2 := Step(s1, y).0;
    assert ValidRun(Step(s2, z).0, []);
    RunCons(s2, z, []);
    var a, b, c := Step(st, x).1, Step(s1, y).1, Step(s2, z).1;
    assert [z] + [] == [z] && [c] + [] == [c];
    RunCons(s1, y, [z]);
    assert [y] + [z] == [y, z] && [b] + [c] == [b, c];
    RunCons(st, x, [y, z]);
    assert [x] + [y, z] == [x, y, z] && [a] + [b, c] == [a, b, c];
  }

  lemma RunCons(st: Store, op: Op, rest: seq<Op>)
    requires Bounded(st) && WellFormed(st, op) && ValidRun(Step(st, op).0, rest)
    ensures ValidRun(st, [op] + rest)
    ensures var (q, ok) := Step(st, op); var (z, oks) := Run(q, rest); Run(st, [op] + rest) == (z, [ok] + oks)
  {
    hide Step, Bounded, WellFormed;
    assert ([op] + rest)[1..] == rest;
  }

  // ---- what callers must see to

  /** A new name is a non-empty string without a NUL. */
  predicate Named(op: Op) { op.AddRegion? || op.AddLease? || op.AddImport? ==> Clean(op.name) }

  predicate AllNamed(ops: seq<Op>) { forall i :: 0 <= i < |ops| ==> Named(ops[i]) }

  predicate NonePurges(ops: seq<Op>) { forall i :: 0 <= i < |ops| ==> !ops[i].DelRefsByPid? }

  lemma NamedStep(st: Store, op: Op)
    requires Inv(st) && !op.DelRefsByPid?
    ensures Bounded(st) && (WellFormed(st, op) <==> Named(op)) && (Named(op) ==> Inv(Step(st, op).0))
  {
    InvBounded(st);
    if Named(op) {
      StepRefines(st, op);
      hide Inv, Bounded, Step, ViewOf, Legal, Effect, Fits;
    }
  }

  lemma NamedCons(ops: seq<Op>)
    requires ops != []
    ensures AllNamed(ops) <==> Named(ops[0]) && AllNamed(ops[1..])
  {
    hide Named;
    assert forall i :: 0 < i < |ops| ==> ops[i] == ops[1..][i - 1];
  }

  /** The names are all a store asks of its callers. */
  lemma {:induction false} ValidIffNamed(st: Store, ops: seq<Op>)
    requires Inv(st) && NonePurges(ops)
    ensures ValidRun(st, ops) <==> AllNamed(ops)
    decreases |ops|
  {
    if ops != [] {
      hide Inv, Bounded, Step, WellFormed, Named, AllNamed;
      NamedStep(st, ops[0]);
      NamedCons(ops);
      if Named(ops[0]) {
        ValidIffNamed(Step(st, ops[0]).0, ops[1..]);
      }
    }
  }
}
