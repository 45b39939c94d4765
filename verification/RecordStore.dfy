/**
  The record store as the daemon runs it: allocators over the mapped arrays, caches updated in
  place. Every method is proved to do exactly the corresponding step of StoreSpec.
  */
module RecordStore {
  import opened Words
  import opened SlotTable
  import opened Catalog
  import opened RefIndex
  import opened RegionBitmap
  import opened Holdings
  import opened StoreSpec
  import opened StoreTheorems
  import opened StoreResults
  import IdPool
  import IdPoolAllocator

  /** One mapped array of named records, its allocator, and the cache over it. */
  class NamedRecords<P> {
    const allocator: SlotTable.Allocator<Slot<P>>
    var cache: map<string, Entry>

    ghost predicate Wired() {
      allocator.isIdle == IsFree && allocator.clear == Cleared
    }

    ghost function Abs(): (c: Catalog<P>)
      reads this, allocator, allocator.records
    {
      Catalog(allocator.Abs(), cache)
    }

    constructor (records: array<Slot<P>>)
      ensures Wired() && allocator.records == records && Abs() == Catalog(Table(records[..], []), map[])
      ensures fresh(allocator)
    {
      allocator := new SlotTable.Allocator(records, IsFree, Cleared);
      cache := map[];
    }

    /** Rebuilds the cache from the records and the pool; a record whose chain is broken is skipped. */
    method Restore(pool: IdPoolAllocator.Allocator)
      requires Wired() && allocator.idle == [] && cache == map[] && pool.Mapped()
      modifies this, allocator
      ensures Abs() == RestoredCatalog(allocator.records[..], pool.memIds[..])
      ensures allocator.records[..] == old(allocator.records[..])
    {
      var live := allocator.Restore();
      ghost var recs, m := allocator.records[..], pool.memIds[..];
      SlotsExact(recs, IsFree, false, 0);
      hide IdPool.FillAllocated, Slots;
      for k := 0 to |live|
        invariant cache == RestoredCache(recs, live[..k], m)
        invariant allocator.idle == Slots(recs, IsFree, true, 0)
      {
        assert live[..k + 1][..k] == live[..k];
        var record := allocator.records[live[k]];
        var filled, memIds := true, [];
        if record.memIdCount != 0 {
          filled, memIds := pool.FillAllocated(record.memIdBuffer);
        }
        if filled && record.name !in cache {
          cache := cache[record.name := Entry(live[k], memIds)];
        }
      }
      assert live[..|live|] == live;
    }

    /** Takes a slot, writes the record, and only then finds out whether the name is taken. */
    method Add(name: string, body: P) returns (ok: bool)
      requires Wired() && InBounds(Abs())
      modifies this, allocator, allocator.records
      ensures (Abs(), ok) == Added(old(Abs()), name, body)
    {
      if |name| >= NAME_SIZE {
        return false;
      }
      var record := allocator.Allocate();
      if record == None {
        return false;
      }
      var i := record.value;
      assert i == old(allocator.idle)[|old(allocator.idle)| - 1];
      allocator.records[i] := Slot(CStr(name), body, 0, 0);
      if name in cache {
        allocator.Release(i);
        assert allocator.idle == old(allocator.idle);
        assert allocator.records[..] == old(allocator.records[..])[i := Cleared(Slot(CStr(name), body, 0, 0))];
        return false;
      }
      cache := cache[name := Entry(i, [])];
      return true;
    }

    method Remove(name: string) returns (record: Slot<P>)
      requires Wired() && InBounds(Abs()) && name in cache
      modifies this, allocator, allocator.records
      ensures Abs() == Removed(old(Abs()), name) && record == old(allocator.records[cache[name].slot])
    {
      var i := cache[name].slot;
      record := allocator.records[i];
      cache := cache - {name};
      allocator.Release(i);
    }

    method Rewrite(name: string, body: P)
      requires InBounds(Abs()) && name in cache
      modifies allocator.records
      ensures Abs() == Rewritten(old(Abs()), name, body)
    {
      var i := cache[name].slot;
      allocator.records[i] := allocator.records[i].(body := body);
    }

    method WriteIds(name: string, body: P, head: nat, ids: seq<u64>)
      requires InBounds(Abs()) && name in cache
      modifies this, allocator.records
      ensures Abs() == WithIds(old(Abs()), name, body, head, ids)
    {
      var i := cache[name].slot;
      allocator.records[i] := allocator.records[i].(body := body, memIdCount := |ids|, memIdBuffer := head);
      cache := cache[name := Entry(i, ids)];
    }

    /** Every record with its name, body and ids. */
    method List() returns (list: map<string, Item<P>>)
      requires InBounds(Abs())
      ensures list == Contents(Abs())
    {
      list := map[];
      var todo := cache.Keys;
      while todo != {}
        invariant todo <= cache.Keys
        invariant forall n :: n in list <==> n in cache && n !in todo
        invariant forall n :: n in list ==> list[n] == Contents(Abs())[n]
        decreases todo
      {
        var n :| n in todo;
        list := list[n := Item(allocator.records[cache[n].slot].body, cache[n].memIds)];
        todo := todo - {n};
      }
    }
  }

  /** The mapped reference slots and the two indexes over them. */
  class RefRecords {
    const allocator: SlotTable.Allocator<Ref>
    var byIndex: ByIndex
    var byPid: ByPid

    ghost predicate Wired() {
      allocator.isIdle == RefFree && allocator.clear == RefCleared
    }

    ghost function Abs(): (r: Refs)
      reads this, allocator, allocator.records
    {
      Refs(allocator.Abs(), byIndex, byPid)
    }

    constructor (records: array<Ref>)
      ensures Wired() && allocator.records == records && Abs() == Refs(Table(records[..], []), map[], map[])
      ensures fresh(allocator)
    {
      allocator := new SlotTable.Allocator(records, RefFree, RefCleared);
      byIndex, byPid := map[], map[];
    }

    method Restore()
      requires Wired() && allocator.idle == [] && byIndex == map[] && byPid == map[]
      modifies this, allocator
      ensures Abs() == RestoredRefs(allocator.records[..])
      ensures allocator.records[..] == old(allocator.records[..])
    {
      var live := allocator.Restore();
      ghost var recs := allocator.records[..];
      SlotsExact(recs, RefFree, false, 0);
      hide Slots, Push;
      for k := 0 to |live|
        invariant (byIndex, byPid) == RestoredIndexes(recs, live[..k])
        invariant allocator.idle == Slots(recs, RefFree, true, 0)
      {
        assert live[..k + 1][..k] == live[..k];
        var share := allocator.records[live[k]];
        var pid := AsI32(share.pid);
        byPid := Push(byPid, pid, share.shmImportIndex, live[k]);
        byIndex := Push(byIndex, share.shmImportIndex, pid, live[k]);
      }
      assert live[..|live|] == live;
    }

    /** Takes a slot first; when the import turns out to be missing the slot goes back untouched. */
    method Add(pid: i32, imported: bool, index: nat) returns (ok: bool)
      requires Wired() && Exact(Abs().table, RefFree)
      modifies this, allocator, allocator.records
      ensures ok <==> old(allocator.idle) != [] && imported
      ensures ok ==> old(allocator.idle)[|old(allocator.idle)| - 1] < allocator.records.Length
      ensures Abs() == if ok then AddedRef(old(Abs()), pid, index) else old(Abs())
    {
      var shm := allocator.Allocate();
      if shm == None {
        return false;
      }
      var s := shm.value;
      assert s == old(allocator.idle)[|old(allocator.idle)| - 1] && s in old(allocator.idle);
      if !imported {
        allocator.Release(s);
        assert RefCleared(old(allocator.records[s])) == old(allocator.records[s]);
        assert allocator.records[..] == old(allocator.records[..]);
        return false;
      }
      byIndex := Push(byIndex, index, pid, s);
      byPid := Push(byPid, pid, index, s);
      allocator.records[s] := Ref(AsU32(pid), index);
      return true;
    }

    method Drop(pid: i32, index: nat) returns (ok: bool)
      requires Wired()
      modifies this, allocator, allocator.records
      ensures (Abs(), ok) == DroppedRef(old(Abs()), pid, index)
    {
      var record: Option<nat> := None;
      var (x, v) := PopLast(byIndex, index, pid);
      byIndex := x;
      if v.Some? {
        record := v;
      }
      var (y, w) := PopLast(byPid, pid, index);
      byPid := y;
      if w.Some? {
        record := w;
      }
      if record == None {
        return false;
      }
      allocator.Release(record.value);
      return true;
    }

    /** Visits the imports of the process in some order, then frees every slot found. */
    method DropPid(pid: i32) returns (ghost order: seq<nat>)
      requires Wired()
      modifies this, allocator, allocator.records
      ensures IsOrder(old(Abs()), pid, order)
      ensures Abs() == DroppedPid(old(Abs()), pid, order)
    {
      order := [];
      if pid in byPid {
        var removed;
        removed, order := EraseFromIndex(pid, byPid[pid]);
        byPid := byPid - {pid};
        ReleaseAll(removed);
      }
    }

    method EraseFromIndex(pid: i32, mine: map<nat, seq<nat>>) returns (removed: seq<nat>, ghost order: seq<nat>)
      modifies this`byIndex
      ensures Distinct(order) && forall i :: i in order <==> i in mine
      ensures byIndex == ErasePid(old(byIndex), pid, order) && removed == Collected(mine, order)
    {
      removed, order := [], [];
      var todo := mine.Keys;
      hide EraseAt;
      while todo != {}
        invariant Distinct(order) && todo <= mine.Keys
        invariant forall i :: i in order <==> i in mine && i !in todo
        invariant byIndex == ErasePid(old(byIndex), pid, order) && removed == Collected(mine, order)
        decreases todo
      {
        var i :| i in todo;
        ghost var before := order;
        order := order + [i];
        assert order[..|order| - 1] == before;
        DistinctPush(before, i);
        byIndex := EraseAt(byIndex, pid, i);
        removed := removed + mine[i];
        todo := todo - {i};
      }
    }

    method ReleaseAll(slots: seq<nat>)
      requires Wired()
      modifies allocator, allocator.records
      ensures allocator.Abs() == ReleasedAll(old(allocator.Abs()), slots)
    {
      for k := 0 to |slots|
        invariant allocator.Abs() == ReleasedAll(old(allocator.Abs()), slots[..k])
      {
        assert slots[..k + 1][..k] == slots[..k];
        allocator.Release(slots[k]);
      }
      assert slots[..|slots|] == slots;
    }
  }

  lemma StepInv(st: Store, op: Op)
    requires Inv(st) && Bounded(st) && WellFormed(st, op)
    ensures Inv(Step(st, op).0) && Bounded(Step(st, op).0)
  {
    hide Inv, Bounded, WellFormed, Step;
    StepRefines(st, op);
  }

  // The definition of single steps, for proofs that hide it.

  lemma DelLeaseIs(st: Store, name: string)
    requires Bounded(st)
    ensures Step(st, Op.DelLease(name)) == if name !in st.leases.cache then (st, false)
      else var (c, pool) := RemoveState(st.leases, st.pool, name); (st.(leases := c, pool := pool), true)
  {
  }

  lemma UpdateLeaseIs(st: Store, name: string, owner: Owner, size: u64)
    requires Bounded(st)
    ensures Step(st, Op.UpdateLease(name, owner, size)) == if name !in st.leases.cache then (st, false)
      else var body := st.leases.table.recs[st.leases.cache[name].slot].body.(owner := owner, size := size);
           (st.(leases := Rewritten(st.leases, name, body)), true)
  {
  }

  lemma AddLeaseIs(st: Store, op: Op)
    requires Bounded(st) && op.AddLease?
    ensures Step(st, op) ==
      var (c, ok) := Added(st.leases, op.name, Lease(op.size, op.owner, op.fdMode, op.distance, -1, 0, 0, op.state));
      (st.(leases := c), ok)
  {
  }

  lemma DelImportIs(st: Store, name: string)
    requires Bounded(st)
    ensures Step(st, Op.DelImport(name)) ==
      if name !in st.imports.cache || st.imports.cache[name].slot in st.refs.byIndex then (st, false)
      else var (c, pool) := RemoveState(st.imports, st.pool, name); (st.(imports := c, pool := pool), true)
  {
  }

  lemma AddImportIs(st: Store, name: string, size: u64, pid: i32)
    requires Bounded(st)
    ensures Step(st, Op.AddImport(name, size, pid)) ==
      var (c, ok) := Added(st.imports, name, Import(size, Owner(AsU32(pid), 0, 0), 0, 0, 0, PreAdd));
      (st.(imports := c), ok)
  {
  }

  lemma DelRefIs(st: Store, pid: i32, name: string)
    requires Bounded(st)
    ensures Step(st, Op.DelRef(pid, name)) ==
      if pid == 0 || name == "" || |name| >= NAME_SIZE || name !in st.imports.cache then (st, false)
      else var (refs, ok) := DroppedRef(st.refs, pid, st.imports.cache[name].slot); (st.(refs := refs), ok)
  {
  }

  /** Deletes a record and frees its chain, if it has one; the outcome of the free is ignored. */
  method Forget<P>(records: NamedRecords<P>, pool: IdPoolAllocator.Allocator, name: string)
    requires records.Wired() && InBounds(records.Abs()) && pool.Valid() && name in records.cache
    modifies records, records.allocator, records.allocator.records, pool, pool.memIds
    ensures (records.Abs(), pool.Abs()) == RemoveState(old(records.Abs()), old(pool.Abs()), name)
  {
    hide IdPool.IdleExact, IdPool.Release, Removed;
    var record := records.Remove(name);
    if record.memIdCount != 0 {
      var _ := pool.Release(record.memIdBuffer);
    }
  }

  /** Stores ids in the pool and the result in the record, or fails and changes nothing. */
  method Keep<P>(records: NamedRecords<P>, pool: IdPoolAllocator.Allocator, name: string, body: P, ids: seq<u64>)
    returns (ok: bool)
    requires InBounds(records.Abs()) && pool.Valid() && name in records.cache
    modifies records, records.allocator.records, pool, pool.memIds
    ensures (records.Abs(), pool.Abs(), ok) == ResultState(old(records.Abs()), old(pool.Abs()), name, body, ids)
  {
    AllocateFits(pool.Abs(), ids);
    hide IdPool.IdleExact, IdPool.Allocate, WithIds;
    var head;
    ok, head := pool.Allocate(ids);
    if ok {
      records.WriteIds(name, body, head, ids);
    }
  }

  class RecordStore {
    const regions: NamedRecords<Region>
    const leases: NamedRecords<Lease>
    const imports: NamedRecords<Import>
    const refs: RefRecords
    const pool: IdPoolAllocator.Allocator

    ghost function Footprint(): set<object> {
      {regions, regions.allocator, regions.allocator.records, leases, leases.allocator, leases.allocator.records,
       imports, imports.allocator, imports.allocator.records, refs, refs.allocator, refs.allocator.records,
       pool, pool.memIds}
    }

    ghost predicate Wired() {
      && regions.Wired() && leases.Wired() && imports.Wired() && refs.Wired()
      && pool.memIds.Length == IdPool.LINE_COUNT
    }

    ghost function Abs(): (st: Store)
      reads Footprint()
    {
      Store(regions.Abs(), leases.Abs(), imports.Abs(), refs.Abs(), pool.Abs())
    }

    ghost predicate Valid()
      reads Footprint()
    {
      Wired() && Inv(Abs()) && Bounded(Abs())
    }

    lemma Parts()
      requires Valid()
      ensures Wired() && Inv(Abs()) && Bounded(Abs()) && pool.Valid()
      ensures Abs() == Store(regions.Abs(), leases.Abs(), imports.Abs(), refs.Abs(), pool.Abs())
      ensures InBounds(regions.Abs()) && InBounds(leases.Abs()) && InBounds(imports.Abs())
      ensures Exact(refs.Abs().table, RefFree)
      ensures regions.Wired() && leases.Wired() && imports.Wired() && refs.Wired()
      ensures leases.cache == leases.Abs().cache && imports.cache == imports.Abs().cache
      ensures forall n :: n in leases.cache ==> leases.cache[n].slot < leases.allocator.records.Length
      ensures leases.allocator.records[..] == leases.Abs().table.recs
      ensures refs.byIndex == refs.Abs().byIndex
      ensures forall n :: n in imports.cache ==> imports.cache[n].slot < imports.allocator.records.Length
      ensures imports.allocator.records[..] == imports.Abs().table.recs
    {
    }

    lemma Whole(st: Store)
      requires Wired() && st == Store(regions.Abs(), leases.Abs(), imports.Abs(), refs.Abs(), pool.Abs())
      ensures Abs() == st && (Inv(st) && Bounded(st) ==> Valid())
    {
    }

    /** Attaches to the mapped arrays and rebuilds every cache from them alone. */
    constructor (regionRecords: array<Slot<Region>>, leaseRecords: array<Slot<Lease>>,
                 importRecords: array<Slot<Import>>, refRecords: array<Ref>, lines: array<IdPool.Row>)
      requires lines.Length == IdPool.LINE_COUNT
      ensures Wired()
      ensures Abs() == Opened(regionRecords[..], leaseRecords[..], importRecords[..], refRecords[..], lines[..])
    {
      pool := new IdPoolAllocator.Allocator(lines);
      regions := new NamedRecords(regionRecords);
      leases := new NamedRecords(leaseRecords);
      imports := new NamedRecords(importRecords);
      refs := new RefRecords(refRecords);
      new;
      hide RestoredCatalog, RestoredRefs, IdPool.IdleExact, IdPool.Initialize, Opened, IdPool.InRange;
      ghost var filled := pool.Abs();
      Restore();
      assert pool.Abs() == filled;
      OpenedIs(regionRecords[..], leaseRecords[..], importRecords[..], refRecords[..], lines[..]);
    }

    method Restore()
      requires Wired() && pool.Mapped()
      requires regions.Abs() == Catalog(Table(regions.allocator.records[..], []), map[])
      requires leases.Abs() == Catalog(Table(leases.allocator.records[..], []), map[])
      requires imports.Abs() == Catalog(Table(imports.allocator.records[..], []), map[])
      requires refs.Abs() == Refs(Table(refs.allocator.records[..], []), map[], map[])
      modifies regions, regions.allocator, leases, leases.allocator, imports, imports.allocator, refs, refs.allocator
      ensures regions.Abs() == RestoredCatalog(regions.allocator.records[..], pool.memIds[..])
      ensures leases.Abs() == RestoredCatalog(leases.allocator.records[..], pool.memIds[..])
      ensures imports.Abs() == RestoredCatalog(imports.allocator.records[..], pool.memIds[..])
      ensures refs.Abs() == RestoredRefs(refs.allocator.records[..])
    {
      hide RestoredCatalog, RestoredRefs, IdPool.InRange;
      regions.Restore(pool);
      leases.Restore(pool);
      imports.Restore(pool);
      refs.Restore();
    }

    method AddRegionRecord(name: string, size: u64, nodeIds: seq<nat>, affinity: seq<bool>) returns (ok: bool)
      requires Valid()
      modifies Footprint()
      ensures (Abs(), ok) == Step(old(Abs()), Op.AddRegion(name, size, nodeIds, affinity))
      ensures Clean(name) ==> Valid()
    {
      Parts();
      ghost var st := Abs();
      if Clean(name) {
        StepInv(st, Op.AddRegion(name, size, nodeIds, affinity));
      }
      hide Valid, Abs, Inv, Bounded, InBounds;
      if !NodesOk(nodeIds, affinity) {
        Whole(st);
        return false;
      }
      hide Added, Encoded;
      var bitmap, bitmapAffinity := EncodeNodes(nodeIds, affinity);
      ok := regions.Add(name, Region(size, bitmap, bitmapAffinity));
      Whole(Step(st, Op.AddRegion(name, size, nodeIds, affinity)).0);
    }

    method DelRegionRecord(name: string) returns (ok: bool)
      requires Valid()
      modifies Footprint()
      ensures Valid() && (Abs(), ok) == Step(old(Abs()), Op.DelRegion(name))
    {
      Parts();
      ghost var st := Abs();
      StepInv(st, Op.DelRegion(name));
      hide Valid, Abs, Inv, Bounded, InBounds, Removed;
      if name !in regions.cache {
        return false;
      }
      var _ := regions.Remove(name);
      ok := true;
      Whole(Step(st, Op.DelRegion(name)).0);
    }

    method AddMemLeaseInput(name: string, size: u64, owner: Owner, fdMode: bool, distance: nat, state: RecordState) returns (ok: bool)
      requires Valid()
      modifies Footprint()
      ensures (Abs(), ok) == Step(old(Abs()), Op.AddLease(name, size, owner, fdMode, distance, state))
      ensures Clean(name) ==> Valid()
    {
      Parts();
      ghost var st := Abs();
      if Clean(name) {
        StepInv(st, Op.AddLease(name, size, owner, fdMode, distance, state));
      }
      AddLeaseIs(st, Op.AddLease(name, size, owner, fdMode, distance, state));
      hide *;
      ok := leases.Add(name, Lease(size, owner, fdMode, distance, -1, 0, 0, state));
      Whole(Step(st, Op.AddLease(name, size, owner, fdMode, distance, state)).0);
    }

    method AddMemLeaseResult(name: string, lease: LeaseResult) returns (ok: bool)
      requires Valid()
      modifies Footprint()
      ensures Valid() && (Abs(), ok) == Step(old(Abs()), Op.AddLeaseResult(name, lease))
    {
      Parts();
      ghost var st := Abs();
      StepInv(st, Op.AddLeaseResult(name, lease));
      hide Valid, Abs, Inv, Bounded, InBounds, ResultState;
      if name !in leases.cache {
        return false;
      }
      var was := leases.allocator.records[leases.cache[name].slot].body;
      ok := Keep(leases, pool, name, LeaseDone(was, lease), lease.memIds);
      Whole(Step(st, Op.AddLeaseResult(name, lease)).0);
    }

    method UpdateMemLeaseRecordState(name: string, state: RecordState) returns (ok: bool)
      requires Valid()
      modifies Footprint()
      ensures Valid() && (Abs(), ok) == Step(old(Abs()), Op.SetLeaseState(name, state))
    {
      Parts();
      ghost var st := Abs();
      StepInv(st, Op.SetLeaseState(name, state));
      hide Valid, Abs, Inv, Bounded, InBounds, Rewritten;
      if name !in leases.cache {
        return false;
      }
      var was := leases.allocator.records[leases.cache[name].slot].body;
      leases.Rewrite(name, was.(state := state));
      ok := true;
      Whole(Step(st, Op.SetLeaseState(name, state)).0);
    }

    method UpdateMemLeaseRecord(name: string, owner: Owner, size: u64) returns (ok: bool)
      requires Valid()
      modifies Footprint()
      ensures Valid() && (Abs(), ok) == Step(old(Abs()), Op.UpdateLease(name, owner, size))
    {
      Parts();
      ghost var st := Abs();
      StepInv(st, Op.UpdateLease(name, owner, size));
      UpdateLeaseIs(st, name, owner, size);
      hide *;
      if name !in leases.cache {
        return false;
      }
      var was := leases.allocator.records[leases.cache[name].slot].body;
      leases.Rewrite(name, was.(owner := owner, size := size));
      ok := true;
      Whole(Step(st, Op.UpdateLease(name, owner, size)).0);
    }

    method DelMemLeaseRecord(name: string) returns (ok: bool)
      requires Valid()
      modifies Footprint()
      ensures Valid() && (Abs(), ok) == Step(old(Abs()), Op.DelLease(name))
    {
      Parts();
      ghost var st := Abs();
      StepInv(st, Op.DelLease(name));
      DelLeaseIs(st, name);
      hide *;
      if name !in leases.cache {
        return false;
      }
      Forget(leases, pool, name);
      ok := true;
      Whole(Step(st, Op.DelLease(name)).0);
    }

    method AddShmImportInput(name: string, size: u64, pid: i32) returns (ok: bool)
      requires Valid()
      modifies Footprint()
      ensures (Abs(), ok) == Step(old(Abs()), Op.AddImport(name, size, pid))
      ensures Clean(name) ==> Valid()
    {
      Parts();
      ghost var st := Abs();
      if Clean(name) {
        StepInv(st, Op.AddImport(name, size, pid));
      }
      AddImportIs(st, name, size, pid);
      hide *;
      ok := imports.Add(name, Import(size, Owner(AsU32(pid), 0, 0), 0, 0, 0, PreAdd));
      Whole(Step(st, Op.AddImport(name, size, pid)).0);
    }

    method KeepImport(name: string, body: Import, ids: seq<u64>) returns (ok: bool)
      requires Wired() && InBounds(imports.Abs()) && pool.Valid() && name in imports.cache
      modifies imports, imports.allocator.records, pool, pool.memIds
      ensures (imports.Abs(), pool.Abs(), ok) == ResultState(old(imports.Abs()), old(pool.Abs()), name, body, ids)
      ensures regions.Abs() == old(regions.Abs()) && leases.Abs() == old(leases.Abs()) && refs.Abs() == old(refs.Abs())
    {
      hide ResultState, InBounds, IdPool.IdleExact;
      ok := Keep(imports, pool, name, body, ids);
    }

    method AddShmImportResult(name: string, attach: ImportResult) returns (ok: bool)
      requires Valid()
      modifies Footprint()
      ensures Valid() && (Abs(), ok) == Step(old(Abs()), Op.AddImportResult(name, attach))
    {
      Parts();
      ghost var st := Abs();
      StepInv(st, Op.AddImportResult(name, attach));
      hide Valid, Abs, Inv, Bounded, InBounds, ResultState;
      if |name| >= NAME_SIZE || name !in imports.cache {
        return false;
      }
      var was := imports.allocator.records[imports.cache[name].slot].body;
      ok := KeepImport(name, ImportDone(was, attach), attach.memIds);
      Whole(Step(st, Op.AddImportResult(name, attach)).0);
    }

    method UpdateShmImportRecordState(name: string, state: RecordState) returns (ok: bool)
      requires Valid()
      modifies Footprint()
      ensures Valid() && (Abs(), ok) == Step(old(Abs()), Op.SetImportState(name, state))
    {
      Parts();
      ghost var st := Abs();
      StepInv(st, Op.SetImportState(name, state));
      hide Valid, Abs, Inv, Bounded, InBounds, Rewritten;
      if name !in imports.cache {
        return false;
      }
      var was := imports.allocator.records[imports.cache[name].slot].body;
      imports.Rewrite(name, was.(state := state));
      ok := true;
      Whole(Step(st, Op.SetImportState(name, state)).0);
    }

    method ForgetImport(name: string)
      requires Wired() && InBounds(imports.Abs()) && pool.Valid() && name in imports.cache
      modifies imports, imports.allocator, imports.allocator.records, pool, pool.memIds
      ensures (imports.Abs(), pool.Abs()) == RemoveState(old(imports.Abs()), old(pool.Abs()), name)
      ensures regions.Abs() == old(regions.Abs()) && leases.Abs() == old(leases.Abs()) && refs.Abs() == old(refs.Abs())
    {
      hide RemoveState, InBounds, IdPool.IdleExact;
      Forget(imports, pool, name);
    }

    method DelShmImportRecord(name: string) returns (ok: bool)
      requires Valid()
      modifies Footprint()
      ensures Valid() && (Abs(), ok) == Step(old(Abs()), Op.DelImport(name))
    {
      Parts();
      ghost var st := Abs();
      StepInv(st, Op.DelImport(name));
      DelImportIs(st, name);
      hide *;
      if name !in imports.cache || imports.cache[name].slot in refs.byIndex {
        return false;
      }
      ForgetImport(name);
      ok := true;
      Whole(Step(st, Op.DelImport(name)).0);
    }

    method AddShmRefRecord(pid: i32, name: string) returns (ok: bool)
      requires Valid()
      modifies Footprint()
      ensures Valid() && (Abs(), ok) == Step(old(Abs()), Op.AddRef(pid, name))
    {
      Parts();
      ghost var st := Abs();
      StepInv(st, Op.AddRef(pid, name));
      hide Valid, Abs, Inv, Bounded, InBounds, AddedRef, Exact;
      if pid == 0 || name == "" || |name| >= NAME_SIZE {
        return false;
      }
      var imported := name in imports.cache;
      ok := refs.Add(pid, imported, if imported then imports.cache[name].slot else 0);
      Whole(Step(st, Op.AddRef(pid, name)).0);
    }

    method DropRef(pid: i32, index: nat) returns (ok: bool)
      requires Wired() && Exact(refs.Abs().table, RefFree)
      modifies refs, refs.allocator, refs.allocator.records
      ensures (refs.Abs(), ok) == DroppedRef(old(refs.Abs()), pid, index)
      ensures regions.Abs() == old(regions.Abs()) && leases.Abs() == old(leases.Abs())
      ensures imports.Abs() == old(imports.Abs()) && pool.Abs() == old(pool.Abs())
    {
      hide DroppedRef, Exact;
      ok := refs.Drop(pid, index);
    }

    method DelShmRefRecord(pid: i32, name: string) returns (ok: bool)
      requires Valid()
      modifies Footprint()
      ensures Valid() && (Abs(), ok) == Step(old(Abs()), Op.DelRef(pid, name))
    {
      Parts();
      ghost var st := Abs();
      StepInv(st, Op.DelRef(pid, name));
      DelRefIs(st, pid, name);
      hide *;
      if pid == 0 || name == "" || |name| >= NAME_SIZE || name !in imports.cache {
        return false;
      }
      ok := DropRef(pid, imports.cache[name].slot);
      Whole(Step(st, Op.DelRef(pid, name)).0);
    }

    method DelShmRefRecordsByPid(pid: i32) returns (ok: bool, ghost order: seq<nat>)
      requires Valid()
      modifies Footprint()
      ensures Valid() && IsOrder(old(Abs()).refs, pid, order)
      ensures (Abs(), ok) == Step(old(Abs()), Op.DelRefsByPid(pid, order))
    {
      Parts();
      ghost var st := Abs();
      if pid == 0 {
        order := AnyOrder(st.refs, pid);
        return false, order;
      }
      hide Valid, Abs, Inv, Bounded, DroppedPid;
      order := refs.DropPid(pid);
      StepInv(st, Op.DelRefsByPid(pid, order));
      Whole(Step(st, Op.DelRefsByPid(pid, order)).0);
      ok := true;
    }

    /** The name-first listing, walking the import-first index and naming each import by its slot. */
    method ListShmRefRecordNameF() returns (list: Counts)
      requires Valid()
      ensures list == RefCounts(Abs().imports, Abs().refs)
    {
      SlotNames(Abs());
      hide Valid, Inv, Bounded;
      list := CountUsers();
    }

    method CountUsers() returns (list: Counts)
      requires SlotsNamed(Abs().imports, refs.byIndex.Keys)
      ensures list == RefCounts(Abs().imports, Abs().refs)
    {
      list := map[];
      ghost var c := Abs().imports;
      hide Sizes;
      var todo := refs.byIndex.Keys;
      while todo != {}
        invariant todo <= refs.byIndex.Keys
        invariant forall n :: n in list <==> n in c.cache && c.cache[n].slot in refs.byIndex && c.cache[n].slot !in todo
        invariant forall n :: n in list ==> list[n] == Sizes(refs.byIndex[c.cache[n].slot])
        decreases todo
      {
        var i :| i in todo;
        var name := imports.allocator.records[i].name;
        list := AddCounts(list, name, refs.byIndex[i]);
        todo := todo - {i};
      }
    }

    /** The process-first listing, walking the process-first index. */
    method ListShmRefRecordPidF() returns (list: map<i32, map<string, nat>>)
      requires Valid()
      ensures list == PidCounts(Abs().imports, Abs().refs)
    {
      list := map[];
      ghost var c, r := Abs().imports, Abs().refs;
      PidSlotsLive(Abs());
      SlotNames(Abs());
      hide Valid, Inv, Bounded;
      var todo := refs.byPid.Keys;
      while todo != {}
        invariant todo <= refs.byPid.Keys
        invariant forall p :: p in list <==> p in r.byPid && p !in todo
        invariant forall p :: p in list ==> list[p] == NamedSizes(c, r.byPid[p])
        decreases todo
      {
        var p :| p in todo;
        var counts := CountNames(p);
        list := list[p := counts];
        todo := todo - {p};
      }
    }

    method CountNames(p: i32) returns (counts: map<string, nat>)
      requires p in refs.byPid && SlotsNamed(Abs().imports, refs.byPid[p].Keys)
      ensures counts == NamedSizes(Abs().imports, refs.byPid[p])
    {
      counts := map[];
      ghost var c := Abs().imports;
      var todo := refs.byPid[p].Keys;
      while todo != {}
        invariant todo <= refs.byPid[p].Keys
        invariant forall n :: n in counts <==> n in c.cache && c.cache[n].slot in refs.byPid[p] && c.cache[n].slot !in todo
        invariant forall n :: n in counts ==> counts[n] == |refs.byPid[p][c.cache[n].slot]|
        decreases todo
      {
        var i :| i in todo;
        var name := imports.allocator.records[i].name;
        counts := Plus(counts, name, |refs.byPid[p][i]|);
        todo := todo - {i};
      }
    }
  }

  function CountsOf(list: Counts, name: string): map<i32, nat> { if name in list then list[name] else map[] }

  function Plus(counts: map<string, nat>, name: string, more: nat): map<string, nat> {
    counts[name := (if name in counts then counts[name] else 0) + more]
  }

  /** Adds the lengths of the slot lists of one import to the counts of its name. */
  method AddSizes(counts: map<i32, nat>, slots: map<i32, seq<nat>>) returns (r: map<i32, nat>)
    ensures forall p :: p in r <==> p in counts || p in slots
    ensures forall p :: p in r ==> r[p] == (if p in counts then counts[p] else 0) + (if p in slots then |slots[p]| else 0)
  {
    r := counts;
    var todo := slots.Keys;
    while todo != {}
      invariant todo <= slots.Keys
      invariant forall p :: p in r <==> p in counts || (p in slots && p !in todo)
      invariant forall p :: p in r ==>
        r[p] == (if p in counts then counts[p] else 0) + (if p in slots && p !in todo then |slots[p]| else 0)
      decreases todo
    {
      var p :| p in todo;
      r := r[p := (if p in r then r[p] else 0) + |slots[p]|];
      todo := todo - {p};
    }
  }

  method AddCounts(list: Counts, name: string, slots: map<i32, seq<nat>>) returns (r: Counts)
    ensures name !in list ==> r == list[name := Sizes(slots)]
  {
    var counts := AddSizes(CountsOf(list, name), slots);
    r := list[name := counts];
    if name !in list {
      assert counts == Sizes(slots);
    }
  }

  /** Slots in use whose record carries the name the cache has for them. */
  ghost predicate SlotsNamed(c: Catalog<Import>, slots: set<nat>) {
    && (forall i :: i in slots ==> i < |c.table.recs| && c.table.recs[i].name in c.cache && c.cache[c.table.recs[i].name].slot == i)
    && (forall n :: n in c.cache && c.cache[n].slot in slots ==> c.table.recs[c.cache[n].slot].name == n)
  }

  lemma SlotNames(st: Store)
    requires Inv(st)
    ensures SlotsNamed(st.imports, st.refs.byIndex.Keys)
  {
    hide RefsOk;
  }

  lemma PidSlotsLive(st: Store)
    requires Inv(st)
    ensures forall p :: p in st.refs.byPid ==> SlotsNamed(st.imports, st.refs.byPid[p].Keys)
  {
    SlotNames(st);
    assert RefsOk(st.refs);
    hide Sound, Shares;
    forall p: i32 | p in st.refs.byPid
      ensures SlotsNamed(st.imports, st.refs.byPid[p].Keys)
    {
      forall i: nat | i in st.refs.byPid[p]
        ensures i in st.refs.byIndex
      {
        assert Vec(st.refs.byPid, p, i) == st.refs.byPid[p][i] != [];
        assert Vec(st.refs.byIndex, i, p) == Vec(st.refs.byPid, p, i);
      }
    }
  }

  lemma AnyOrder(r: Refs, pid: i32) returns (order: seq<nat>)
    ensures IsOrder(r, pid, order)
  {
    if pid in r.byPid {
      order := OrderOf(r.byPid[pid].Keys);
    } else {
      order := [];
    }
  }

  lemma {:induction false} OrderOf(s: set<nat>) returns (order: seq<nat>)
    ensures Distinct(order) && forall i :: i in order <==> i in s
  {
    if s == {} {
      order := [];
    } else {
      var i :| i in s;
      var rest := OrderOf(s - {i});
      DistinctPush(rest, i);
      order := rest + [i];
    }
  }

  /** The store that opening these mapped arrays yields. */
  ghost function Opened(regions: seq<Slot<Region>>, leases: seq<Slot<Lease>>, imports: seq<Slot<Import>>,
                        refs: seq<Ref>, lines: seq<IdPool.Row>): Store
    requires IdPool.Sized(lines)
  {
    Restarted(Store(Catalog(Table(regions, []), map[]), Catalog(Table(leases, []), map[]),
                    Catalog(Table(imports, []), map[]), Refs(Table(refs, []), map[], map[]), IdPool.Pool(lines, [])))
  }

  lemma OpenedIs(regions: seq<Slot<Region>>, leases: seq<Slot<Lease>>, imports: seq<Slot<Import>>, refs: seq<Ref>, lines: seq<IdPool.Row>)
    requires IdPool.Sized(lines)
    ensures Opened(regions, leases, imports, refs, lines)
         == Store(RestoredCatalog(regions, lines), RestoredCatalog(leases, lines), RestoredCatalog(imports, lines),
                  RestoredRefs(refs), IdPool.Initialize(lines))
  {
  }

  /** Opening the arrays a good store left behind: the same view, in a store that is good again. */
  lemma OpenAfterClose(st: Store)
    requires Inv(st)
    ensures IdPool.Sized(st.pool.lines)
    ensures var q := Opened(st.regions.table.recs, st.leases.table.recs, st.imports.table.recs,
                            st.refs.table.recs, st.pool.lines);
      Inv(q) && Bounded(q) && Bounded(st) && ViewOf(q) == ViewOf(st)
  {
    RestartExact(st);
    RestartView(st);
    hide Inv, RestoredCatalog, RestoredRefs, ViewOf, Bounded;
  }
}
