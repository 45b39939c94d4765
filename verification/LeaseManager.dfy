/** The lease manager updating its maps in place; every method is proved against LeaseSpec. */
module LeaseManager {
  import opened Words
  import opened Catalog
  import opened StoreSpec
  import opened Engine
  import opened LeaseSpec
  import opened LeaseRecovery

  class MLSManager {
    var usedMemory: map<string, MemInfo>
    var numaBufferedMemory: seq<MemInfo>
    var fdBufferedMemory: seq<MemInfo>
    var records: Leases
    var isEnableLeaseBuffered: bool
    var maxBufferedMemNum: nat

    ghost function Abs(): (m: Manager)
      reads this
    {
      Manager(usedMemory, numaBufferedMemory, fdBufferedMemory, records, isEnableLeaseBuffered, maxBufferedMemNum)
    }

    /** Starts on the records a previous life left behind, with empty maps. */
    constructor (stored: Leases, maxBuffered: nat)
      ensures Abs() == Manager(map[], [], [], stored, true, maxBuffered)
    {
      usedMemory, numaBufferedMemory, fdBufferedMemory := map[], [], [];
      records, isEnableLeaseBuffered, maxBufferedMemNum := stored, true, maxBuffered;
    }

    method CallRepo(op: Op, room: bool) returns (ok: bool)
      modifies this`records
      ensures (records, ok) == Repo(old(records), op, room)
    {
      var (after, done) := Repo(records, op, room);
      records := after;
      ok := done;
    }

    method PreAddUsedMem(name: string, size: u64, owner: Owner, isNuma: bool, perfLevel: nat, room: bool) returns (ok: bool)
      modifies this
      ensures (Abs(), ok) == PreAddUsed(old(Abs()), name, size, owner, isNuma, perfLevel, room)
    {
      if name in usedMemory {
        return false;
      }
      hide Repo;
      ok := CallRepo(AddLease(name, size, owner, !isNuma, perfLevel % 256, RecordState.PreAdd), room);
      if ok {
        usedMemory := usedMemory[name := MemInfo(name, owner, size, 0, [], 0, perfLevel, 0, isNuma, RecordState.PreAdd)];
      } else {
        FailedRepo(old(records), AddLease(name, size, owner, !isNuma, perfLevel % 256, RecordState.PreAdd), room);
      }
    }

    method FinishAddUsedMem(name: string, done: LeaseResult, room: bool) returns (ok: bool)
      modifies this
      ensures (Abs(), ok) == FinishAdd(old(Abs()), name, done, room)
    {
      if name !in usedMemory {
        return false;
      }
      hide Repo;
      FailedRepo(records, AddLeaseResult(name, done), room);
      ok := CallRepo(AddLeaseResult(name, done), room);
      if ok {
        var memory := usedMemory[name];
        usedMemory := usedMemory[name := memory.(numaId := done.numaId, memIds := done.memIds,
                                                 unitSize := done.unitSize, slotId := done.slotId, state := Finish)];
      }
    }

    method DeleteUsedMem(name: string) returns (ok: bool)
      modifies this
      ensures (Abs(), ok) == Delete(old(Abs()), name)
    {
      if name !in usedMemory {
        return false;
      }
      hide Repo;
      FailedRepo(records, DelLease(name), true);
      ok := CallRepo(DelLease(name), true);
      if ok {
        usedMemory := usedMemory - {name};
      }
    }

    method UpdateMemRecordState(name: string, state: RecordState) returns (ok: bool)
      modifies this
      ensures (Abs(), ok) == SetState(old(Abs()), name, state)
    {
      if name !in usedMemory {
        return false;
      }
      hide Repo;
      FailedRepo(records, SetLeaseState(name, state), true);
      ok := CallRepo(SetLeaseState(name, state), true);
      if ok {
        usedMemory := usedMemory[name := usedMemory[name].(state := state)];
      }
    }

    method SetBuffer(isNuma: bool, s: seq<MemInfo>)
      modifies this`numaBufferedMemory, this`fdBufferedMemory
      ensures Abs() == WithBuffer(old(Abs()), isNuma, s)
    {
      if isNuma {
        numaBufferedMemory := s;
      } else {
        fdBufferedMemory := s;
      }
    }

    method InsertUsed(info: MemInfo)
      modifies this`usedMemory
      ensures usedMemory == if info.name in old(usedMemory) then old(usedMemory) else old(usedMemory)[info.name := info]
    {
      if info.name !in usedMemory {
        usedMemory := usedMemory[info.name := info];
      }
    }

    method TakeBuffered(isNuma: bool, it: nat, size: u64, owner: Owner) returns (reply: Option<MemInfo>)
      requires it < |Buffer(Abs(), isNuma)|
      modifies this
      ensures (Abs(), reply) == Take(old(Abs()), isNuma, it, size, owner)
    {
      var s := if isNuma then numaBufferedMemory else fdBufferedMemory;
      hide Repo, UnitCount, Resized;
      FailedRepo(records, UpdateLease(s[it].name, owner, size), true);
      var ok := CallRepo(UpdateLease(s[it].name, owner, size), true);
      if !ok {
        return None;
      }
      SetBuffer(isNuma, s[..it] + s[it + 1..]);
      var info := s[it].(owner := owner, size := size, isNuma := isNuma);
      hide WithBuffer;
      InsertUsed(info);
      var count := UnitCount(size, info.unitSize);
      if count == None {
        return None;
      }
      reply := Some(info.(memIds := Resized(info.memIds, count.value)));
    }

    method ReuseBufferedMem(size: u64, isNuma: bool, slots: Option<seq<u32>>, owner: Owner) returns (reply: Option<MemInfo>)
      requires Sorted(numaBufferedMemory) && Sorted(fdBufferedMemory)
      modifies this
      ensures (Abs(), reply) == Reuse(old(Abs()), size, isNuma, slots, owner)
    {
      if !isEnableLeaseBuffered || slots == None {
        return None;
      }
      var s := if isNuma then numaBufferedMemory else fdBufferedMemory;
      var it := FindReusable(s, size, slots.value);
      if it == |s| {
        return None;
      }
      hide Take, Sorted, FirstFit;
      reply := TakeBuffered(isNuma, it, size, owner);
    }

    method PreDeleteUsedMem(name: string) returns (o: Outcome)
      modifies this
      ensures (Abs(), o) == PreDelete(old(Abs()), name)
    {
      if name !in usedMemory {
        return Refused;
      }
      hide Repo;
      var x := usedMemory[name];
      var s := if x.isNuma then numaBufferedMemory else fdBufferedMemory;
      if isEnableLeaseBuffered && |s| < maxBufferedMemNum {
        var context, newSize := x.owner.(pid := 0), FullSize(x.unitSize, |x.memIds|);
        FailedRepo(records, UpdateLease(name, context, newSize), true);
        var ok := CallRepo(UpdateLease(name, context, newSize), true);
        if !ok {
          return Refused;
        }
        var t := InsertBuffered(s, x.(owner := context, size := newSize));
        if x.isNuma { numaBufferedMemory := t; } else { fdBufferedMemory := t; }
        usedMemory := usedMemory - {name};
        return Buffered;
      }
      FailedRepo(records, SetLeaseState(name, PreDel), true);
      var ok := CallRepo(SetLeaseState(name, PreDel), true);
      o := if ok then Marked else Refused;
    }

    /** Frees the buffered leases through the engine, keeping those it refuses. */
    method DeleteAllBufferedMem(free: string -> Freed)
      modifies this
      ensures Abs() == DeleteAll(old(Abs()), free)
    {
      if !isEnableLeaseBuffered {
        return;
      }
      numaBufferedMemory := FlushBuffer(numaBufferedMemory, free);
      fdBufferedMemory := FlushBuffer(fdBufferedMemory, free);
    }

    method FlushBuffer(s: seq<MemInfo>, free: string -> Freed) returns (kept: seq<MemInfo>)
      modifies this`records
      ensures (kept, records) == Flushed(s, old(records), free)
    {
      kept := [];
      hide Flushed;
      assert s[0..] == s && [] + Flushed(s, records, free).0 == Flushed(s, records, free).0;
      for pos := 0 to |s|
        invariant Flushed(s, old(records), free).0 == kept + Flushed(s[pos..], records, free).0
        invariant Flushed(s, old(records), free).1 == Flushed(s[pos..], records, free).1
      {
        FlushedAt(s, pos, records, free, kept);
        var gone := FreeBuffered(s[pos].name, free);
        if !gone {
          kept := kept + [s[pos]];
        }
      }
      FlushedNone(records, free);
      assert s[|s|..] == [] && kept + [] == kept;
    }

    /** Marks one lease for deletion and frees it; a lease without a record, or one the engine refuses, stays. */
    method FreeBuffered(name: string, free: string -> Freed) returns (gone: bool)
      modifies this`records
      ensures (gone, records) == Freeing(name, old(records), free)
    {
      if name !in records {
        return false;
      }
      records := records[name := records[name].(body := records[name].body.(state := PreDel))];
      gone := free(name) != FreeError;
      if gone {
        records := records - {name};
        assert records == old(records) - {name};
      } else {
        records := records[name := records[name].(body := records[name].body.(state := Finish))];
        assert records == old(records)[name := old(records)[name].(body := old(records)[name].body.(state := Finish))];
      }
    }

    /** Files every stored record again, asking the engine about the half-done ones. */
    method RecoverFromRecord(answers: string -> Answer, enabled: bool) returns (ghost order: seq<string>)
      modifies this
      ensures Lists(order, old(records))
      ensures Abs() == RecoveredFrom(old(Abs()).(enabled := enabled), old(records), order, answers)
    {
      order := [];
      var list := records;
      var todo := list.Keys;
      ghost var start := Abs().(enabled := enabled);
      isEnableLeaseBuffered := enabled;
      hide FateOf, Repo, Filed, InfoOf;
      while todo != {}
        invariant Distinct(order) && todo <= list.Keys && forall n :: n in order <==> n in list && n !in todo
        invariant forall i :: 0 <= i < |order| ==> order[i] in list
        invariant Abs() == RecoveredFrom(start, list, order, answers)
        decreases todo
      {
        var n :| n in todo;
        ghost var before := order;
        order := order + [n];
        DistinctPush(before, n);
        assert order[..|order| - 1] == before;
        RecoverRecord(n, list[n], answers(n));
        todo := todo - {n};
      }
    }

    method RecoverRecord(n: string, item: Item<Lease>, a: Answer)
      modifies this
      ensures Abs() == RecoverOne(old(Abs()), n, item, a)
    {
      var state := item.body.state;
      if state == RecordState.PreAdd {
        if a == Failed {
          return;
        }
        if a == NoSuchMemory || a == At(NotExist) || a == At(Deleting) {
          var _ := CallRepo(DelLease(n), true);
          return;
        }
      }
      if state == PreDel {
        if a == Failed {
          return;
        }
        if a == NoSuchMemory || a == At(NotExist) || a == At(Deleting) || a == At(WaitUnexport) {
          state := Deleted;
        } else {
          state := Finish;
        }
        DeleteAfterMark(records, n, state);
        var _ := CallRepo(SetLeaseState(n, state), true);
      }
      if state == Deleted {
        var _ := CallRepo(DelLease(n), true);
        return;
      }
      hide Repo, Inserted;
      FileInfo(MemInfo(n, item.body.owner, item.body.size, item.body.numaId, item.memIds, item.body.unitSize,
                       item.body.distance, item.body.slotId, !item.body.fdMode, state));
    }

    /** Into a buffer when nobody owns the lease, else among those in use. */
    method FileInfo(info: MemInfo)
      modifies this
      ensures Abs() == Filed(old(Abs()), info)
    {
      if info.owner.pid == 0 {
        if info.isNuma {
          numaBufferedMemory := InsertBuffered(numaBufferedMemory, info);
        } else {
          fdBufferedMemory := InsertBuffered(fdBufferedMemory, info);
        }
      } else {
        InsertUsed(info);
      }
    }
  }

  lemma FlushedNone(records: Leases, free: string -> Freed)
    ensures Flushed([], records, free) == ([], records)
  {
  }

  lemma FlushedAt(s: seq<MemInfo>, pos: nat, records: Leases, free: string -> Freed, kept: seq<MemInfo>)
    requires pos < |s|
    ensures var (gone, r) := Freeing(s[pos].name, records, free);
      && Flushed(s[pos..], records, free).1 == Flushed(s[pos + 1..], r, free).1
      && kept + Flushed(s[pos..], records, free).0
         == (if gone then kept else kept + [s[pos]]) + Flushed(s[pos + 1..], r, free).0
  {
    assert s[pos..][1..] == s[pos + 1..];
    var (gone, r) := Freeing(s[pos].name, records, free);
    var t := Flushed(s[pos + 1..], r, free).0;
    assert Flushed(s[pos..], records, free).0 == if gone then t else [s[pos]] + t;
    assert kept + ([s[pos]] + t) == kept + [s[pos]] + t;
  }

  lemma FailedRepo(records: Leases, op: Op, room: bool)
    ensures !Repo(records, op, room).1 ==> Repo(records, op, room).0 == records
  {
  }

  /** The position of the first entry that is not smaller than a request. */
  method LowerBound(s: seq<MemInfo>, size: u64) returns (it: nat)
    requires Sorted(s)
    ensures it <= |s| && (forall j :: 0 <= j < it ==> s[j].size < size) && (forall j :: it <= j < |s| ==> s[j].size >= size)
  {
    it := 0;
    while it < |s| && s[it].size < size
      invariant it <= |s| && forall j :: 0 <= j < it ==> s[j].size < size
    {
      it := it + 1;
    }
    assert forall j :: it < j < |s| ==> Before(s[it], s[j]);
  }

  /** Skips entries that are too small, then those lent by other nodes, and takes the first left. */
  method FindReusable(s: seq<MemInfo>, size: u64, slots: seq<u32>) returns (it: nat)
    requires Sorted(s)
    ensures it == FirstFit(s, size, slots, 0)
  {
    it := LowerBound(s, size);
    FirstFitSkips(s, size, slots, it);
    while it < |s| && s[it].slotId !in slots
      invariant it <= |s| && FirstFit(s, size, slots, 0) == FirstFit(s, size, slots, it)
      invariant forall j :: it <= j < |s| ==> s[j].size >= size
    {
      it := it + 1;
    }
  }

  lemma {:induction false} FirstFitSkips(s: seq<MemInfo>, size: u64, slots: seq<u32>, lower: nat)
    requires lower <= |s| && forall j :: 0 <= j < lower ==> s[j].size < size
    ensures FirstFit(s, size, slots, 0) == FirstFit(s, size, slots, lower)
  {
    var i, k := FirstFit(s, size, slots, 0), FirstFit(s, size, slots, lower);
    assert i >= lower || i == |s|;
  }

  lemma InsertedSkips(s: seq<MemInfo>, x: MemInfo, i: nat)
    requires i < |s| && Before(s[i], x)
    ensures s[..i] + Inserted(s[i..], x) == s[..i + 1] + Inserted(s[i + 1..], x)
  {
    BeforeOrder(s[i], x, s[i]);
    hide Before;
    assert s[i..][1..] == s[i + 1..];
    assert s[..i + 1] == s[..i] + [s[i]];
  }

  method InsertBuffered(s: seq<MemInfo>, x: MemInfo) returns (t: seq<MemInfo>)
    ensures t == Inserted(s, x)
  {
    hide Before;
    var i := 0;
    while i < |s| && Before(s[i], x)
      invariant 0 <= i <= |s| && Inserted(s, x) == s[..i] + Inserted(s[i..], x)
    {
      InsertedSkips(s, x, i);
      i := i + 1;
    }
    if i < |s| && !Before(x, s[i]) {
      t := s;
      assert s == s[..i] + s[i..];
    } else {
      t := s[..i] + [x] + s[i..];
    }
  }
}
