/**
  The record store as a value: persistent slots and pool, in-memory caches, every operation, and
  restart. The main results relate it to a simple map-based view over whole runs.
  */
module StoreSpec {
  import opened Words
  import opened Catalog
  import opened RefIndex
  import opened RegionBitmap
  import opened Holdings
  import IdPool

  const REGION_MAX := 256
  const LEASE_MAX := 16384
  const IMPORT_MAX := 18432
  const REF_MAX := 1179648

  datatype RecordState = PreAdd | Finish | PreDel | Deleted
  datatype Owner = Owner(pid: u32, uid: u32, gid: u32)
  datatype Region = Region(size: u64, bitmap: Bitmap, affinity: Bitmap)
  datatype Lease = Lease(size: u64, owner: Owner, fdMode: bool, distance: nat,
                         numaId: int, unitSize: u64, slotId: u32, state: RecordState)
  datatype Import = Import(size: u64, owner: Owner, unitSize: u64, flag: u64, oflag: int, state: RecordState)

  datatype Store = Store(regions: Catalog<Region>, leases: Catalog<Lease>, imports: Catalog<Import>,
                         refs: Refs, pool: IdPool.Pool)

  datatype LeaseResult = LeaseResult(memIds: seq<u64>, numaId: int, unitSize: u64, slotId: u32)
  datatype ImportResult = ImportResult(memIds: seq<u64>, unitSize: u64, flag: u64, oflag: int, uid: u32, gid: u32)

  datatype Op =
    | AddRegion(name: string, size: u64, nodeIds: seq<nat>, affinity: seq<bool>)
    | DelRegion(name: string)
    | AddLease(name: string, size: u64, owner: Owner, fdMode: bool, distance: nat, state: RecordState)
    | AddLeaseResult(name: string, lease: LeaseResult)
    | SetLeaseState(name: string, state: RecordState)
    | UpdateLease(name: string, owner: Owner, size: u64)
    | DelLease(name: string)
    | AddImport(name: string, size: u64, pid: i32)
    | AddImportResult(name: string, attach: ImportResult)
    | SetImportState(name: string, state: RecordState)
    | DelImport(name: string)
    | AddRef(pid: i32, name: string)
    | DelRef(pid: i32, name: string)
    | DelRefsByPid(pid: i32, order: seq<nat>)
    | Restart

  // ---- invariant

  ghost predicate NoIds<P>(c: Catalog<P>) {
    forall n :: n in c.cache ==> c.cache[n].memIds == []
  }

  /** Every reference points to a slot that holds an import. */
  ghost predicate RefsLive(c: Catalog<Import>, r: Refs) {
    forall i :: i in r.byIndex ==> i < |c.table.recs| && c.table.recs[i].name != ""
  }

  ghost predicate Inv(st: Store) {
    && |st.regions.table.recs| == REGION_MAX && |st.leases.table.recs| == LEASE_MAX
    && |st.imports.table.recs| == IMPORT_MAX && |st.refs.table.recs| == REF_MAX
    && Shares(st.leases, st.imports, st.pool)
    && Sound(st.regions, st.pool.lines) && NoIds(st.regions)
    && RefsOk(st.refs) && RefsLive(st.imports, st.refs)
  }

  /** What operations need to be well defined; implied by the invariant. */
  ghost predicate Bounded(st: Store) {
    && InBounds(st.regions) && InBounds(st.leases) && InBounds(st.imports)
    && IdPool.Sized(st.pool.lines) && IdPool.InRange(st.pool.idle)
    && (st.refs.table.idle != [] ==> st.refs.table.idle[|st.refs.table.idle| - 1] < |st.refs.table.recs|)
  }

  lemma InvBounded(st: Store)
    requires Inv(st)
    ensures Bounded(st)
  {
    hide IdPool.FindChain, IdPool.FillAllocated, Holds;
    assert st.refs.table.idle != [] ==> st.refs.table.idle[|st.refs.table.idle| - 1] in st.refs.table.idle;
  }

  // ---- operations

  predicate NodesOk(nodeIds: seq<nat>, affinity: seq<bool>) {
    (forall i :: 0 <= i < |nodeIds| ==> nodeIds[i] < MAX_NODE) && |nodeIds| == |affinity|
  }

  function RegionOf(size: u64, nodeIds: seq<nat>, affinity: seq<bool>): Region
    requires NodesOk(nodeIds, affinity)
  {
    Region(size, Encoded(nodeIds, AllTrue(|nodeIds|)), Encoded(nodeIds, affinity))
  }

  ghost function Step(st: Store, op: Op): (r: (Store, bool))
    requires Bounded(st)
  {
    match op
    case AddRegion(name, size, nodeIds, affinity) =>
      if !NodesOk(nodeIds, affinity) then (st, false)
      else
        var (c, ok) := Added(st.regions, name, RegionOf(size, nodeIds, affinity));
        (st.(regions := c), ok)
    case DelRegion(name) =>
      if name !in st.regions.cache then (st, false)
      else (st.(regions := Removed(st.regions, name)), true)
    case AddLease(name, size, owner, fdMode, distance, state) =>
      var (c, ok) := Added(st.leases, name, Lease(size, owner, fdMode, distance, -1, 0, 0, state));
      (st.(leases := c), ok)
    case AddLeaseResult(name, lease) =>
      if name !in st.leases.cache then (st, false)
      else
        var (c, pool, ok) := ResultState(st.leases, st.pool, name, LeaseDone(LeaseAt(st, name), lease), lease.memIds);
        (st.(leases := c, pool := pool), ok)
    case SetLeaseState(name, state) =>
      if name !in st.leases.cache then (st, false)
      else (st.(leases := Rewritten(st.leases, name, LeaseAt(st, name).(state := state))), true)
    case UpdateLease(name, owner, size) =>
      if name !in st.leases.cache then (st, false)
      else (st.(leases := Rewritten(st.leases, name, LeaseAt(st, name).(owner := owner, size := size))), true)
    case DelLease(name) =>
      if name !in st.leases.cache then (st, false)
      else
        var (c, pool) := RemoveState(st.leases, st.pool, name);
        (st.(leases := c, pool := pool), true)
    case AddImport(name, size, pid) =>
      var (c, ok) := Added(st.imports, name, Import(size, Owner(AsU32(pid), 0, 0), 0, 0, 0, PreAdd));
      (st.(imports := c), ok)
    case AddImportResult(name, attach) =>
      if name !in st.imports.cache || |name| >= NAME_SIZE then (st, false)
      else
        var (c, pool, ok) := ResultState(st.imports, st.pool, name, ImportDone(ImportAt(st, name), attach), attach.memIds);
        (st.(imports := c, pool := pool), ok)
    case SetImportState(name, state) =>
      if name !in st.imports.cache then (st, false)
      else (st.(imports := Rewritten(st.imports, name, ImportAt(st, name).(state := state))), true)
    case DelImport(name) =>
      if name !in st.imports.cache || st.imports.cache[name].slot in st.refs.byIndex then (st, false)
      else
        var (c, pool) := RemoveState(st.imports, st.pool, name);
        (st.(imports := c, pool := pool), true)
    case AddRef(pid, name) =>
      if pid == 0 || name == "" || |name| >= NAME_SIZE || st.refs.table.idle == [] || name !in st.imports.cache
      then (st, false)
      else (st.(refs := AddedRef(st.refs, pid, st.imports.cache[name].slot)), true)
    case DelRef(pid, name) =>
      if pid == 0 || name == "" || |name| >= NAME_SIZE || name !in st.imports.cache then (st, false)
      else
        var (refs, ok) := DroppedRef(st.refs, pid, st.imports.cache[name].slot);
        (st.(refs := refs), ok)
    case DelRefsByPid(pid, order) =>
      if pid == 0 then (st, false) else (st.(refs := DroppedPid(st.refs, pid, order)), true)
    case Restart => (Restarted(st), true)
  }

  ghost function LeaseAt(st: Store, name: string): Lease
    requires InBounds(st.leases) && name in st.leases.cache
  {
    st.leases.table.recs[st.leases.cache[name].slot].body
  }

  ghost function ImportAt(st: Store, name: string): Import
    requires InBounds(st.imports) && name in st.imports.cache
  {
    st.imports.table.recs[st.imports.cache[name].slot].body
  }

  function LeaseDone(lease: Lease, done: LeaseResult): Lease {
    lease.(state := Finish, numaId := done.numaId, unitSize := done.unitSize, slotId := done.slotId)
  }

  function ImportDone(shm: Import, done: ImportResult): Import {
    shm.(owner := shm.owner.(uid := done.uid, gid := done.gid), state := Finish,
         unitSize := done.unitSize, oflag := done.oflag, flag := done.flag)
  }

  /** Everything rebuilt from the persistent arrays alone. */
  ghost function Restarted(st: Store): Store
    requires IdPool.Sized(st.pool.lines)
  {
    Store(RestoredCatalog(st.regions.table.recs, st.pool.lines),
          RestoredCatalog(st.leases.table.recs, st.pool.lines),
          RestoredCatalog(st.imports.table.recs, st.pool.lines),
          RestoredRefs(st.refs.table.recs),
          IdPool.Initialize(st.pool.lines))
  }

  // ---- the simple view: four maps

  datatype View = View(regions: map<string, Item<Region>>, leases: map<string, Item<Lease>>,
                       imports: map<string, Item<Import>>, refs: Counts)

  /** For each import name, how often each process references it. */
  type Counts = map<string, map<i32, nat>>

  function Sizes<K>(m: map<K, seq<nat>>): map<K, nat> {
    map k | k in m :: |m[k]|
  }

  /** The name-first listing, from the import-first index. */
  ghost function RefCounts(c: Catalog<Import>, r: Refs): Counts {
    map n | n in c.cache && c.cache[n].slot in r.byIndex :: Sizes(r.byIndex[c.cache[n].slot])
  }

  ghost function ViewOf(st: Store): View
    requires Bounded(st)
  {
    View(Contents(st.regions), Contents(st.leases), Contents(st.imports), RefCounts(st.imports, st.refs))
  }

  function Count(refs: Counts, n: string, p: i32): nat {
    if n in refs && p in refs[n] then refs[n][p] else 0
  }

  /** A count map with one count changed; processes and names without references are absent. */
  function Counted(refs: Counts, n: string, p: i32, count: nat): Counts {
    var m := if n in refs then refs[n] else map[];
    var m' := if count == 0 then m - {p} else m[p := count];
    if m' == map[] then refs - {n} else refs[n := m']
  }

  function WithoutPid(refs: Counts, p: i32): Counts {
    map n | n in refs && refs[n] - {p} != map[] :: refs[n] - {p}
  }

  /** The abstract effect of an operation that succeeded. */
  function Effect(v: View, op: Op): View
    requires Legal(v, op)
  {
    match op
    case AddRegion(name, size, nodeIds, affinity) =>
      v.(regions := v.regions[name := Item(RegionOf(size, nodeIds, affinity), [])])
    case DelRegion(name) => v.(regions := v.regions - {name})
    case AddLease(name, size, owner, fdMode, distance, state) =>
      v.(leases := v.leases[name := Item(Lease(size, owner, fdMode, distance, -1, 0, 0, state), [])])
    case AddLeaseResult(name, lease) =>
      v.(leases := v.leases[name := Item(LeaseDone(v.leases[name].body, lease), lease.memIds)])
    case SetLeaseState(name, state) =>
      v.(leases := v.leases[name := v.leases[name].(body := v.leases[name].body.(state := state))])
    case UpdateLease(name, owner, size) =>
      v.(leases := v.leases[name := v.leases[name].(body := v.leases[name].body.(owner := owner, size := size))])
    case DelLease(name) => v.(leases := v.leases - {name})
    case AddImport(name, size, pid) =>
      v.(imports := v.imports[name := Item(Import(size, Owner(AsU32(pid), 0, 0), 0, 0, 0, PreAdd), [])])
    case AddImportResult(name, attach) =>
      v.(imports := v.imports[name := Item(ImportDone(v.imports[name].body, attach), attach.memIds)])
    case SetImportState(name, state) =>
      v.(imports := v.imports[name := v.imports[name].(body := v.imports[name].body.(state := state))])
    case DelImport(name) => v.(imports := v.imports - {name})
    case AddRef(pid, name) => v.(refs := Counted(v.refs, name, pid, Count(v.refs, name, pid) + 1))
    case DelRef(pid, name) => v.(refs := Counted(v.refs, name, pid, Count(v.refs, name, pid) - 1))
    case DelRefsByPid(pid, _) => v.(refs := WithoutPid(v.refs, pid))
    case Restart => v
  }

  /** When the view alone allows an operation. */
  predicate Legal(v: View, op: Op) {
    match op
    case AddRegion(name, _, nodeIds, affinity) => |name| < NAME_SIZE && NodesOk(nodeIds, affinity) && name !in v.regions
    case DelRegion(name) => name in v.regions
    case AddLease(name, _, _, _, _, _) => |name| < NAME_SIZE && name !in v.leases
    case AddLeaseResult(name, lease) => name in v.leases && lease.memIds != []
    case SetLeaseState(name, _) => name in v.leases
    case UpdateLease(name, _, _) => name in v.leases
    case DelLease(name) => name in v.leases
    case AddImport(name, _, _) => |name| < NAME_SIZE && name !in v.imports
    case AddImportResult(name, attach) => name in v.imports && |name| < NAME_SIZE && attach.memIds != []
    case SetImportState(name, _) => name in v.imports
    case DelImport(name) => name in v.imports && name !in v.refs
    case AddRef(pid, name) => pid != 0 && name != "" && |name| < NAME_SIZE && name in v.imports
    case DelRef(pid, name) => pid != 0 && name != "" && |name| < NAME_SIZE && name in v.imports && Count(v.refs, name, pid) > 0
    case DelRefsByPid(pid, _) => pid != 0
    case Restart => true
  }

  /** An operation on the view: done when it is legal and there is room, else nothing happens. */
  function Attempt(v: View, op: Op, room: bool): (r: (View, bool)) {
    if room && Legal(v, op) then (Effect(v, op), true) else (v, false)
  }

  /** When there is room for it in the fixed arrays. */
  ghost predicate Fits(st: Store, op: Op) {
    match op
    case AddRegion(_, _, _, _) => st.regions.table.idle != []
    case AddLease(_, _, _, _, _, _) => st.leases.table.idle != []
    case AddLeaseResult(_, lease) => IdPool.LinesNeed(|lease.memIds|) <= |st.pool.idle|
    case AddImport(_, _, _) => st.imports.table.idle != []
    case AddImportResult(_, attach) => IdPool.LinesNeed(|attach.memIds|) <= |st.pool.idle|
    case AddRef(_, _) => st.refs.table.idle != []
    case _ => true
  }

  /** Names are C strings, and a traversal order lists exactly the imports of the process. */
  ghost predicate WellFormed(st: Store, op: Op) {
    match op
    case AddRegion(name, _, _, _) => Clean(name)
    case AddLease(name, _, _, _, _, _) => Clean(name)
    case AddImport(name, _, _) => Clean(name)
    case DelRefsByPid(pid, order) => IsOrder(st.refs, pid, order)
    case _ => true
  }
}
