/** Further results over every reachable store: full ownership, live references, transposed listings, capacity. */
module StoreResults {
  import opened Words
  import opened SlotTable
  import opened Catalog
  import opened RefIndex
  import opened Holdings
  import opened StoreSpec
  import opened StoreTheorems
  import IdPool

  // ---- starting on freshly mapped, all-zero memory

  ghost predicate ZeroSlots<P>(recs: seq<Slot<P>>) {
    forall i :: 0 <= i < |recs| ==> recs[i].name == ""
  }

  ghost predicate ZeroMemory(st: Store) {
    && |st.regions.table.recs| == REGION_MAX && |st.leases.table.recs| == LEASE_MAX
    && |st.imports.table.recs| == IMPORT_MAX && |st.refs.table.recs| == REF_MAX
    && ZeroSlots(st.regions.table.recs) && ZeroSlots(st.leases.table.recs) && ZeroSlots(st.imports.table.recs)
    && (forall s :: 0 <= s < REF_MAX ==> st.refs.table.recs[s].pid == 0)
    && IdPool.Sized(st.pool.lines) && (forall l :: 0 <= l < IdPool.LINE_COUNT ==> st.pool.lines[l][0] == 0)
  }

  lemma ZeroCatalog<P>(recs: seq<Slot<P>>, m: seq<IdPool.Row>)
    requires IdPool.Sized(m) && ZeroSlots(recs)
    ensures var c := RestoredCatalog(recs, m);
      && Sound(c, m) && OneHeadEach(c) && Heads(c) == {} && c.cache == map[] && c.table.recs == recs
      && Contents(c) == map[]
  {
    hide IdPool.FillAllocated;
    var c := RestoredCatalog(recs, m);
    var live := Slots(recs, IsFree, false, 0);
    SlotsExact(recs, IsFree, false, 0);
    HasMember(live);
    assert forall k :: 0 <= k < |c.table.idle| ==> c.table.idle[k] in c.table.idle;
  }

  lemma ZeroPool(m: seq<IdPool.Row>)
    requires IdPool.Sized(m) && forall l :: 0 <= l < IdPool.LINE_COUNT ==> m[l][0] == 0
    ensures IdPool.Separate(IdPool.Initialize(m), {}) && IdPool.Covered(IdPool.Initialize(m), {})
  {
    hide IdPool.FindChain;
  }

  lemma ZeroRefs(recs: seq<Ref>)
    requires forall s :: 0 <= s < |recs| ==> recs[s].pid == 0
    ensures RefsOk(RestoredRefs(recs)) && RestoredRefs(recs).byIndex == map[] && RestoredRefs(recs).table.recs == recs
  {
    RestoredRefsOk(recs);
    SlotsExact(recs, RefFree, false, 0);
    HasMember(Slots(recs, RefFree, false, 0));
  }

  /** A store opened on all-zero memory is good, empty, and owns every line through its free list. */
  lemma ZeroMemoryInv(st: Store)
    requires ZeroMemory(st)
    ensures var b := Restarted(st);
      Inv(b) && Bounded(b) && Owned(b) && ViewOf(b) == View(map[], map[], map[], map[])
  {
    var b := Restarted(st);
    var m := st.pool.lines;
    ZeroCatalog(st.regions.table.recs, m);
    ZeroCatalog(st.leases.table.recs, m);
    ZeroCatalog(st.imports.table.recs, m);
    ZeroRefs(st.refs.table.recs);
    ZeroPool(m);
    hide RestoredCatalog, RestoredRefs, Sound, RefsOk, IdPool.Separate, IdPool.Covered, IdPool.FindChain, Contents, Heads, OneHeadEach;
    assert Heads(b.leases) + Heads(b.imports) == {};
    assert Shares(b.leases, b.imports, b.pool);
    InvBounded(b);
  }

  // ---- every line has an owner

  ghost predicate Owned(st: Store)
    requires IdPool.Sized(st.pool.lines) && InBounds(st.leases) && InBounds(st.imports)
  {
    AllOwned(st.leases, st.imports, st.pool)
  }

  /** A second result for a record that already holds ids. */
  ghost predicate LosesChain(st: Store, op: Op) {
    match op
    case AddLeaseResult(name, lease) =>
      name in st.leases.cache && st.leases.cache[name].memIds != []
      && lease.memIds != [] && Fits(st, op)
    case AddImportResult(name, attach) =>
      name in st.imports.cache && |name| < NAME_SIZE && st.imports.cache[name].memIds != []
      && attach.memIds != [] && Fits(st, op)
    case _ => false
  }

  /** Operations that neither allocate nor free a chain leave every owner as it is. */
  lemma HeadsKept(st: Store, op: Op)
    requires Inv(st) && Bounded(st) && WellFormed(st, op)
    requires !op.AddLeaseResult? && !op.AddImportResult? && !op.DelLease? && !op.DelImport? && !op.Restart?
    ensures var q := Step(st, op).0;
      && q.pool == st.pool && InBounds(q.leases) && InBounds(q.imports)
      && Heads(q.leases) == Heads(st.leases) && Heads(q.imports) == Heads(st.imports)
  {
    InvParts(st);
    assert Sound(st.leases, st.pool.lines) && OneHeadEach(st.leases) && OneHeadEach(st.imports);
    hide Inv, Shares, IdPool.FillAllocated, Added, Rewritten, Removed, Heads, OneHeadEach;
    match op
    case AddLease(name, size, owner, fdMode, distance, state) =>
      AddedSound(st.leases, st.pool.lines, name, Lease(size, owner, fdMode, distance, -1, 0, 0, state));
    case AddImport(name, size, pid) =>
      AddedSound(st.imports, st.pool.lines, name, Import(size, Owner(AsU32(pid), 0, 0), 0, 0, 0, PreAdd));
    case SetLeaseState(name, state) =>
      if name in st.leases.cache {
        RewrittenSound(st.leases, st.pool.lines, name, LeaseAt(st, name).(state := state));
      }
    case UpdateLease(name, owner, size) =>
      if name in st.leases.cache {
        RewrittenSound(st.leases, st.pool.lines, name, LeaseAt(st, name).(owner := owner, size := size));
      }
    case SetImportState(name, state) =>
      if name in st.imports.cache {
        RewrittenSound(st.imports, st.pool.lines, name, ImportAt(st, name).(state := state));
      }
    case _ =>
  }

  lemma LeasePoolOwned(st: Store, op: Op)
    requires Inv(st) && Bounded(st) && Owned(st) && (op.AddLeaseResult? || op.DelLease?) && op.name in st.leases.cache
    ensures Bounded(Step(st, op).0) && (Owned(Step(st, op).0) <==> !LosesChain(st, op))
  {
    assert Bounded(Step(st, op).0) by { StepRefines(st, op); }
    InvParts(st);
    hide Inv, Shares, IdPool.FillAllocated, ResultState, RemoveState, Heads, Sound, IdPool.Covered;
    if op.AddLeaseResult? {
      ResultKeeps(st.leases, st.imports, st.pool, op.name, LeaseDone(LeaseAt(st, op.name), op.lease), op.lease.memIds);
    } else {
      RemoveKeeps(st.leases, st.imports, st.pool, op.name);
    }
  }

  /** The same result seen from the other records that share the pool. */
  lemma ResultOwned<P, Q>(c: Catalog<P>, o: Catalog<Q>, pool: IdPool.Pool, name: string, body: P, ids: seq<u64>)
    requires Shares(o, c, pool) && name in c.cache && InBounds(c) && InBounds(o) && IdPool.Sized(pool.lines) && IdPool.InRange(pool.idle)
    requires AllOwned(o, c, pool)
    ensures var (d, q, _) := ResultState(c, pool, name, body, ids);
      && IdPool.Sized(q.lines) && InBounds(d)
      && (AllOwned(o, d, q) <==>
          !(ids != [] && IdPool.LinesNeed(|ids|) <= |pool.idle| && c.cache[name].memIds != []))
  {
    SharesSwap(o, c, pool);
    ResultKeeps(c, o, pool, name, body, ids);
    var (d, q, _) := ResultState(c, pool, name, body, ids);
    SharesParts(d, o, q);
    hide ResultState, Shares, Contents, Heads, IdPool.FillAllocated;
    AllOwnedSwap(d, o, q);
    hide AllOwned;
  }

  lemma SharesParts<P, Q>(c: Catalog<P>, o: Catalog<Q>, pool: IdPool.Pool)
    requires Shares(c, o, pool)
    ensures IdPool.Sized(pool.lines) && InBounds(c) && InBounds(o)
  {
  }

  lemma RemoveOwned<P, Q>(c: Catalog<P>, o: Catalog<Q>, pool: IdPool.Pool, name: string)
    requires Shares(o, c, pool) && name in c.cache && InBounds(c) && InBounds(o) && IdPool.Sized(pool.lines)
    requires AllOwned(o, c, pool)
    ensures var (d, q) := RemoveState(c, pool, name); IdPool.Sized(q.lines) && InBounds(d) && AllOwned(o, d, q)
  {
    SharesSwap(o, c, pool);
    RemoveKeeps(c, o, pool, name);
    var (d, q) := RemoveState(c, pool, name);
    SharesParts(d, o, q);
    hide RemoveState, Shares, Contents, Heads, IdPool.FillAllocated;
    AllOwnedSwap(d, o, q);
    hide AllOwned;
  }

  /** The two steps on imports that use the pool. */
  lemma ImportPoolSteps(st: Store, name: string, attach: ImportResult)
    requires Bounded(st) && name in st.imports.cache
    ensures var done := ResultState(st.imports, st.pool, name, ImportDone(ImportAt(st, name), attach), attach.memIds);
      Step(st, AddImportResult(name, attach)).0 == if |name| < NAME_SIZE then st.(imports := done.0, pool := done.1) else st
    ensures var done := RemoveState(st.imports, st.pool, name); var q := Step(st, DelImport(name)).0;
      q == st || q == st.(imports := done.0, pool := done.1)
  {
    hide ResultState, RemoveState;
  }

  lemma ImportResultOwned(st: Store, op: Op)
    requires Inv(st) && Bounded(st) && Owned(st) && op.AddImportResult? && op.name in st.imports.cache
    ensures Bounded(Step(st, op).0) && (Owned(Step(st, op).0) <==> !LosesChain(st, op))
  {
    hide Step, Inv, AllOwned, Shares, RemoveState, ResultState, ImportDone;
    assert Bounded(Step(st, op).0) by { StepRefines(st, op); }
    InvParts(st);
    var body := ImportDone(ImportAt(st, op.name), op.attach);
    ImportPoolSteps(st, op.name, op.attach);
    ResultOwned(st.imports, st.leases, st.pool, op.name, body, op.attach.memIds);
  }

  lemma ImportDeleteOwned(st: Store, op: Op)
    requires Inv(st) && Bounded(st) && Owned(st) && op.DelImport? && op.name in st.imports.cache
    ensures Bounded(Step(st, op).0) && Owned(Step(st, op).0)
  {
    hide Step, Inv, AllOwned, RemoveState, ResultState;
    StepRefines(st, op);
    InvParts(st);
    hide Shares;
    ImportPoolSteps(st, op.name, ImportResult([], 0, 0, 0, 0, 0));
    RemoveOwned(st.imports, st.leases, st.pool, op.name);
  }

  lemma AllOwnedSwap<P, Q>(c: Catalog<P>, o: Catalog<Q>, pool: IdPool.Pool)
    requires IdPool.Sized(pool.lines) && InBounds(c) && InBounds(o)
    ensures AllOwned(c, o, pool) <==> AllOwned(o, c, pool)
  {
    assert Heads(c) + Heads(o) == Heads(o) + Heads(c);
  }

  /**
    From a fully owned pool, a step leaves every line free or in exactly one live record's chain
    if and only if it is not a repeated result.
    */
  lemma StepOwned(st: Store, op: Op)
    requires Inv(st) && Bounded(st) && WellFormed(st, op) && Owned(st)
    ensures Bounded(Step(st, op).0) && (Owned(Step(st, op).0) <==> !LosesChain(st, op))
  {
    assert Bounded(Step(st, op).0) by { StepRefines(st, op); }
    hide Inv, Bounded, Heads, IdPool.Covered, WellFormed;
    if op.Restart? {
      RestartOwned(st);
    } else if op.AddLeaseResult? || op.DelLease? {
      if op.name in st.leases.cache {
        LeasePoolOwned(st, op);
      }
    } else if op.AddImportResult? || op.DelImport? {
      if op.name in st.imports.cache {
        if op.AddImportResult? {
          ImportResultOwned(st, op);
        } else {
          ImportDeleteOwned(st, op);
        }
      }
    } else {
      HeadsKept(st, op);
    }
  }

  lemma RestartOwned(st: Store)
    requires Inv(st) && Bounded(st) && Owned(st)
    ensures Bounded(Restarted(st)) && Owned(Restarted(st))
  {
    var q := Restarted(st);
    RestartExact(st);
    InvBounded(q);
    SameHeads(st.leases, q.leases);
    SameHeads(st.imports, q.imports);
    hide RestoredCatalog, RestoredRefs, IdPool.FindChain, Sound, RefsOk;
    IdleSame(st.pool, q.pool);
  }

  lemma IdleSame(p: IdPool.Pool, q: IdPool.Pool)
    requires IdPool.IdleExact(p) && IdPool.IdleExact(q) && p.lines == q.lines
    ensures forall l :: 0 <= l < IdPool.LINE_COUNT ==> (l in p.idle <==> l in q.idle)
  {
  }

  /** No operation of the run stores a second result for a record that holds ids. */
  ghost predicate OneResultEach(st: Store, ops: seq<Op>)
    requires ValidRun(st, ops)
    decreases |ops|
  {
    ops != [] ==> !LosesChain(st, ops[0]) && OneResultEach(Step(st, ops[0]).0, ops[1..])
  }

  /**
    In every state of a run without repeated results, free lines and live chains partition the
    pool: the chains are pairwise disjoint, and a line is free exactly when no live record owns it.
    */
  lemma {:induction false} RunOwned(st: Store, ops: seq<Op>)
    requires Inv(st) && Bounded(st) && Owned(st) && ValidRun(st, ops) && OneResultEach(st, ops)
    ensures var z := Run(st, ops).0;
      && Inv(z) && Bounded(z) && Owned(z)
      && IdPool.Separate(z.pool, Heads(z.leases) + Heads(z.imports))
      && (forall l :: 0 <= l < IdPool.LINE_COUNT ==>
            (l in z.pool.idle <==> l !in IdPool.OwnedLines(z.pool.lines, Heads(z.leases) + Heads(z.imports))))
    decreases |ops|
  {
    if ops == [] {
      InvParts(st);
      IdPool.OwnedNotIdle(st.pool, Heads(st.leases) + Heads(st.imports));
    } else {
      hide Inv, Bounded, WellFormed, Step, Owned, LosesChain;
      StepOwned(st, ops[0]);
      StepRefines(st, ops[0]);
      RunOwned(Step(st, ops[0]).0, ops[1..]);
    }
  }

  // ---- references

  /** While an import is referenced, no operation removes it or moves it to another slot. */
  lemma ReferencedStays(st: Store, op: Op, n: string)
    requires Inv(st) && Bounded(st) && WellFormed(st, op)
    requires n in st.imports.cache && st.imports.cache[n].slot in st.refs.byIndex
    ensures var q := Step(st, op).0;
      n in q.imports.cache && q.imports.cache[n].slot == st.imports.cache[n].slot
  {
    if op.Restart? {
      hide Inv;
      RestartExact(st);
    } else if op.AddImport? || op.AddImportResult? || op.SetImportState? || op.DelImport? {
      InvParts(st);
      hide Inv;
      ImportOpStays(st, op, n);
    } else {
      hide Inv;
      ImportsUntouched(st, op);
    }
  }

  lemma ImportsUntouched(st: Store, op: Op)
    requires Bounded(st) && !op.Restart?
    requires !(op.AddImport? || op.AddImportResult? || op.SetImportState? || op.DelImport?)
    ensures Step(st, op).0.imports == st.imports
  {
    hide Bounded, Added, Removed, Rewritten, ResultState, RemoveState, AddedRef, DroppedRef, DroppedPid;
  }

  lemma ImportOpStays(st: Store, op: Op, n: string)
    requires Bounded(st) && (op.AddImport? || op.AddImportResult? || op.SetImportState? || op.DelImport?)
    requires n in st.imports.cache && st.imports.cache[n].slot in st.refs.byIndex
    requires op.AddImport? ==> forall i :: i in st.imports.table.idle ==> i != st.imports.cache[n].slot
    ensures var q := Step(st, op).0;
      n in q.imports.cache && q.imports.cache[n].slot == st.imports.cache[n].slot
  {
    hide Bounded, IdPool.Allocate, IdPool.Release;
  }

  /** The process-first listing, from the process-first index. */
  ghost function PidCounts(c: Catalog<Import>, r: Refs): map<i32, map<string, nat>> {
    map p | p in r.byPid :: NamedSizes(c, r.byPid[p])
  }

  ghost function NamedSizes(c: Catalog<Import>, slots: map<nat, seq<nat>>): map<string, nat> {
    map n | n in c.cache && c.cache[n].slot in slots :: |slots[c.cache[n].slot]|
  }

  /** The two listings are transposes of each other, over every import and process. */
  lemma ListingsTranspose(st: Store, n: string, p: i32)
    requires Inv(st)
    ensures var a, b := RefCounts(st.imports, st.refs), PidCounts(st.imports, st.refs);
      && ((n in a && p in a[n]) <==> (p in b && n in b[p]))
      && (n in a && p in a[n] ==> b[p][n] == a[n][p] > 0)
  {
    hide Sound, Shares;
    if n in st.imports.cache {
      var i: nat := st.imports.cache[n].slot;
      assert Vec(st.refs.byIndex, i, p) == Vec(st.refs.byPid, p, i);
    }
  }

  // ---- capacity

  ghost function UsedSlots<P>(c: Catalog<P>, names: set<string>): set<nat>
    requires names <= c.cache.Keys
  {
    set n | n in names :: c.cache[n].slot
  }

  lemma {:induction false} UsedSlotsCard<P>(c: Catalog<P>, names: set<string>)
    requires names <= c.cache.Keys
    requires forall a, b :: a in c.cache && b in c.cache && c.cache[a].slot == c.cache[b].slot ==> a == b
    ensures |UsedSlots(c, names)| == |names|
  {
    if names == {} {
      assert UsedSlots(c, names) == {};
    } else {
      var n :| n in names;
      UsedSlotsCard(c, names - {n});
      assert UsedSlots(c, names) == UsedSlots(c, names - {n}) + {c.cache[n].slot};
    }
  }

  /** Free slots and cached names add up to the size of the array, so "no free slot" means full. */
  lemma SlotsAddUp<P>(c: Catalog<P>, m: seq<IdPool.Row>)
    requires IdPool.Sized(m) && Sound(c, m)
    ensures |c.table.idle| + |c.cache| == |c.table.recs|
  {
    hide IdPool.FillAllocated;
    var used := UsedSlots(c, c.cache.Keys);
    assert forall a, b :: a in c.cache && b in c.cache && c.cache[a].slot == c.cache[b].slot ==> a == b;
    UsedSlotsCard(c, c.cache.Keys);
    DistinctCard(c.table.idle);
    SlotsSplit(c, m);
    assert |Below(|c.table.recs|)| == |Elems(c.table.idle)| + |used|;
  }

  lemma SlotsSplit<P>(c: Catalog<P>, m: seq<IdPool.Row>)
    requires IdPool.Sized(m) && Sound(c, m)
    ensures Below(|c.table.recs|) == Elems(c.table.idle) + UsedSlots(c, c.cache.Keys)
    ensures Elems(c.table.idle) !! UsedSlots(c, c.cache.Keys)
  {
    hide IdPool.FillAllocated;
    forall i: nat | i < |c.table.recs|
      ensures i in c.table.idle || i in UsedSlots(c, c.cache.Keys)
    {
      var n := c.table.recs[i].name;
      assert n != "" ==> n in c.cache.Keys && c.cache[n].slot == i;
    }
  }
}
