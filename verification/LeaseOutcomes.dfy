/** What each call of the lease manager leaves behind, written out field by field. */
module LeaseOutcomes {
  import opened Words
  import opened Catalog
  import opened StoreSpec
  import opened LeaseSpec
  import opened LeaseTheorems
  import opened LeaseRecovery
  import opened Engine

  ghost predicate SameBuffers(m: Manager, q: Manager) {
    q.numa == m.numa && q.fd == m.fd && q.enabled == m.enabled && q.maxBuffered == m.maxBuffered
  }

  /** A lease asked for: nothing is known about its memory yet. */
  lemma PreAddSays(m: Manager, name: string, size: u64, owner: Owner, isNuma: bool, perfLevel: nat, room: bool)
    requires Good(m)
    ensures var (q, ok) := PreAddUsed(m, name, size, owner, isNuma, perfLevel, room);
      && (ok <==> room && |name| < 64 && name !in m.records)
      && (if !ok then q == m else
            && SameBuffers(m, q) && Elsewhere(m.used, q.used, name) && Elsewhere(m.records, q.records, name)
            && name in q.used && name in q.records && q.records[name].memIds == []
            && var x, b := q.used[name], q.records[name].body;
            && x.name == name && x.owner == owner && x.size == size && x.isNuma == isNuma && x.perfLevel == perfLevel
            && x.memIds == [] && x.numaId == 0 && x.unitSize == 0 && x.slotId == 0 && x.state == RecordState.PreAdd
            && b.owner == owner && b.size == size && b.fdMode == !isNuma && b.distance == perfLevel % 256
            && b.numaId == -1 && b.unitSize == 0 && b.slotId == 0 && b.state == RecordState.PreAdd)
  {
    PreAddGood(m, name, size, owner, isNuma, perfLevel, room);
    hide Good, Complete;
  }

  /** The memory has arrived: ids, NUMA node, unit size and lender are known in both places. */
  lemma FinishAddSays(m: Manager, name: string, done: LeaseResult, room: bool)
    requires Good(m)
    ensures var (q, ok) := FinishAdd(m, name, done, room);
      && (ok <==> room && name in m.used && done.memIds != [])
      && (if !ok then q == m else
            && SameBuffers(m, q) && Elsewhere(m.used, q.used, name) && Elsewhere(m.records, q.records, name)
            && name in q.used && name in m.records && name in q.records && q.records[name].memIds == done.memIds
            && var x, y, a, b := m.used[name], q.used[name], m.records[name].body, q.records[name].body;
            && y.memIds == done.memIds && y.numaId == done.numaId && y.unitSize == done.unitSize
            && y.slotId == done.slotId && y.state == Finish
            && y.name == x.name && y.owner == x.owner && y.size == x.size && y.isNuma == x.isNuma && y.perfLevel == x.perfLevel
            && b.numaId == done.numaId && b.unitSize == done.unitSize && b.slotId == done.slotId && b.state == Finish
            && b.owner == a.owner && b.size == a.size && b.fdMode == a.fdMode && b.distance == a.distance)
  {
    FinishAddGood(m, name, done, room);
    assert name in m.used ==> Backed(m.used[name], m.records);
    hide Good, Complete;
  }

  lemma SetStateSays(m: Manager, name: string, state: RecordState)
    requires Good(m)
    ensures var (q, ok) := SetState(m, name, state);
      && (ok <==> name in m.used)
      && (if !ok then q == m else
            && SameBuffers(m, q) && Elsewhere(m.used, q.used, name) && Elsewhere(m.records, q.records, name)
            && name in q.used && name in m.records && name in q.records
            && q.used[name] == m.used[name].(state := state)
            && q.records[name] == Item(m.records[name].body.(state := state), m.records[name].memIds))
  {
    assert name in m.used ==> Backed(m.used[name], m.records);
    hide Good;
  }

  lemma DeleteSays(m: Manager, name: string)
    requires Good(m)
    ensures var (q, ok) := Delete(m, name);
      && (ok <==> name in m.used)
      && (if !ok then q == m else
            && SameBuffers(m, q) && Elsewhere(m.used, q.used, name) && Elsewhere(m.records, q.records, name)
            && name !in q.used && name !in q.records)
  {
    assert name in m.used ==> Backed(m.used[name], m.records);
    hide Good;
  }

  // ---- giving back and reusing

  /** A returned lease, as it waits in its buffer: no owner process, and all of its units. */
  ghost predicate Waiting(x: MemInfo, y: MemInfo) {
    && y.name == x.name && y.memIds == x.memIds && y.unitSize == x.unitSize && y.slotId == x.slotId && y.isNuma == x.isNuma
    && y.numaId == x.numaId && y.perfLevel == x.perfLevel && y.state == x.state
    && y.owner.pid == 0 && y.owner.uid == x.owner.uid && y.owner.gid == x.owner.gid
    && y.size < 0x1_0000_0000_0000_0000 && y.size == x.unitSize * |x.memIds| % 0x1_0000_0000_0000_0000
  }

  /** Size and owner of the record follow; the rest of it stays. */
  ghost predicate RecordFollows(a: Item<Lease>, b: Item<Lease>, y: MemInfo) {
    && b.memIds == a.memIds && b.body.owner == y.owner && b.body.size == y.size
    && b.body.fdMode == a.body.fdMode && b.body.distance == a.body.distance && b.body.numaId == a.body.numaId
    && b.body.unitSize == a.body.unitSize && b.body.slotId == a.body.slotId && b.body.state == a.body.state
  }

  /** The kind's buffer has the entry, and what it had before. */
  ghost predicate BufferGains(m: Manager, q: Manager, isNuma: bool, y: MemInfo) {
    && Buffer(q, !isNuma) == Buffer(m, !isNuma)
    && forall z :: z in Buffer(q, isNuma) <==> z in Buffer(m, isNuma) || z == y
  }

  lemma BuffersAs(m: Manager, name: string) returns (y: MemInfo)
    requires Good(m) && name in m.used && m.enabled && |Buffer(m, m.used[name].isNuma)| < m.maxBuffered
    ensures var q := PreDelete(m, name).0;
      && Waiting(m.used[name], y) && BufferGains(m, q, m.used[name].isNuma, y)
      && q.used == m.used - {name} && Elsewhere(m.records, q.records, name)
      && name in m.records && name in q.records && RecordFollows(m.records[name], q.records[name], y)
      && q.enabled == m.enabled
  {
    var x := m.used[name];
    assert x.name == name && Backed(x, m.records);
    y := x.(owner := x.owner.(pid := 0), size := x.unitSize * |x.memIds| % 0x1_0000_0000_0000_0000);
    Partition(m);
    var s := Buffer(m, x.isNuma);
    assert Sorted(s);
    forall i | 0 <= i < |s|
      ensures s[i].name != name
    {
      assert s[i].name in Names(s);
    }
    hide Good, Names, Sorted;
    InsertedSorted(s, y);
    hide Inserted;
  }

  /**
    What giving a lease back does: refused when it is not in use; into its buffer, whole and without
    owner process, while there is room; else only its record is marked for deletion.
    */
  lemma PreDeleteSays(m: Manager, name: string)
    requires Good(m)
    ensures var (q, o) := PreDelete(m, name);
      if name !in m.used then o == Refused && q == m
      else if m.enabled && |Buffer(m, m.used[name].isNuma)| < m.maxBuffered then
        && o == Buffered && q.used == m.used - {name} && q.enabled == m.enabled && q.maxBuffered == m.maxBuffered
        && Elsewhere(m.records, q.records, name) && name in m.records && name in q.records
        && exists y :: Waiting(m.used[name], y) && BufferGains(m, q, m.used[name].isNuma, y)
                       && RecordFollows(m.records[name], q.records[name], y)
      else
        && o == Marked && q.used == m.used && SameBuffers(m, q) && Elsewhere(m.records, q.records, name)
        && name in m.records && name in q.records
        && q.records[name] == Item(m.records[name].body.(state := PreDel), m.records[name].memIds)
  {
    if name in m.used {
      assert Backed(m.used[name], m.records);
      PreDeleteGood(m, name);
      if m.enabled && |Buffer(m, m.used[name].isNuma)| < m.maxBuffered {
        var y := BuffersAs(m, name);
        hide Good, Complete, Names, Waiting, BufferGains, RecordFollows;
      } else {
        hide Good, Complete, Names;
      }
    }
  }

  /** A lease given back can serve a request for all of its units, of its kind and from its lender. */
  lemma GivenBackServes(m: Manager, name: string, slots: seq<u32>, owner: Owner)
    requires Good(m) && name in m.used && m.enabled && |Buffer(m, m.used[name].isNuma)| < m.maxBuffered
    requires var x := m.used[name]; x.unitSize * |x.memIds| < 0x1_0000_0000_0000_0000 && x.slotId in slots
    ensures var q := PreDelete(m, name).0; var x := m.used[name];
      Reuse(q, x.unitSize * |x.memIds|, x.isNuma, Some(slots), owner).0 != q
  {
    hide Good, Complete, PreDelete, Names, Reuse, LeastFit, TakenFrom, RecordFollows, Elsewhere, Waiting;
    var x, q := m.used[name], PreDelete(m, name).0;
    PreDeleteGood(m, name);
    var y := BuffersAs(m, name);
    WaitingWhole(x, y);
    ReuseBestFit(q, y.size, x.isNuma, slots, owner);
    assert y in Buffer(q, x.isNuma);
  }

  lemma WaitingWhole(x: MemInfo, y: MemInfo)
    requires Waiting(x, y)
    ensures y.slotId == x.slotId && (x.unitSize * |x.memIds| < 0x1_0000_0000_0000_0000 ==> y.size == x.unitSize * |x.memIds|)
  {
  }

  /** The unit count is refused exactly when the 64-bit sum would overflow or there is no unit size. */
  lemma UnitCountIff(size: u64, unitSize: u64)
    ensures UnitCount(size, unitSize).Some? <==> unitSize != 0 && size + unitSize < 0x1_0000_0000_0000_0000
  {
  }

  /** A taken lease, as its new owner sees it: all of it but owner and size as it was. */
  ghost predicate Handed(x: MemInfo, y: MemInfo, owner: Owner, size: u64) {
    && y.owner == owner && y.size == size && y.name == x.name && y.unitSize == x.unitSize && y.slotId == x.slotId
    && y.isNuma == x.isNuma && y.numaId == x.numaId && y.perfLevel == x.perfLevel && y.state == x.state
  }

  /** As few units as hold the size, each with the id it had; a unit the lease does not have is given the id 0. */
  ghost predicate Units(ids: seq<u64>, given: seq<u64>, size: u64, unitSize: u64) {
    && size <= |given| * unitSize < size + unitSize
    && forall i :: 0 <= i < |given| ==> given[i] == if i < |ids| then ids[i] else 0
  }

  lemma UnitsGiven(ids: seq<u64>, size: u64, unitSize: u64)
    requires UnitCount(size, unitSize).Some?
    ensures Units(ids, Resized(ids, UnitCount(size, unitSize).value), size, unitSize)
  {
    var sum: int := size + unitSize - 1;
    var count := sum / unitSize;
    assert sum == unitSize * count + sum % unitSize && 0 <= sum % unitSize < unitSize;
    assert |Resized(ids, count)| == count;
  }

  /** What a reuse that finds a lease leaves and replies. */
  ghost predicate Serves(m: Manager, q: Manager, reply: Option<MemInfo>, size: u64, isNuma: bool, owner: Owner, x: MemInfo) {
    && x in Buffer(m, isNuma) && Elsewhere(m.used, q.used, x.name) && Elsewhere(m.records, q.records, x.name)
    && x.name in q.used && Handed(x, q.used[x.name], owner, size) && q.used[x.name].memIds == x.memIds
    && Buffer(q, !isNuma) == Buffer(m, !isNuma) && (forall z :: z in Buffer(q, isNuma) <==> z in Buffer(m, isNuma) && z != x)
    && x.name in m.records && x.name in q.records && RecordFollows(m.records[x.name], q.records[x.name], q.used[x.name])
    && (reply.Some? <==> x.unitSize != 0 && size + x.unitSize < 0x1_0000_0000_0000_0000)
    && (reply.Some? ==> Handed(x, reply.value, owner, size) && Units(x.memIds, reply.value.memIds, size, x.unitSize))
  }

  lemma TakeSays(m: Manager, isNuma: bool, i: nat, size: u64, owner: Owner)
    requires Good(m) && i < |Buffer(m, isNuma)|
    ensures var (q, reply) := Take(m, isNuma, i, size, owner); Serves(m, q, reply, size, isNuma, owner, Buffer(m, isNuma)[i])
  {
    hide Good, UnitCount, Resized, Repo, RecordFollows, Units;
    var s := Buffer(m, isNuma);
    var x := s[i];
    if UnitCount(size, x.unitSize).Some? {
      UnitsGiven(x.memIds, size, x.unitSize);
    }
    EntryFacts(m, isNuma, i);
    TakenOut(s, i);
    UnitCountIff(size, x.unitSize);
    UpdateFollows(m.records, x.name, owner, size);
    var q := Take(m, isNuma, i, size, owner).0;
    assert RecordFollows(m.records[x.name], q.records[x.name], q.used[x.name]);
  }

  lemma EntryFacts(m: Manager, isNuma: bool, i: nat)
    requires Good(m) && i < |Buffer(m, isNuma)|
    ensures var s := Buffer(m, isNuma);
      && s[i] in s && s[i].isNuma == isNuma && s[i].name in m.records && s[i].name !in m.used
      && forall j, k :: 0 <= j < k < |s| ==> s[j].name != s[k].name
  {
    var s := Buffer(m, isNuma);
    assert Backed(s[i], m.records) && s[i].name in Names(s);
    DistinctNames(s, isNuma, m.records);
    Partition(m);
    hide Good, Names;
  }

  lemma UpdateFollows(records: Leases, n: string, owner: Owner, size: u64)
    requires n in records
    ensures var (r, ok) := Repo(records, UpdateLease(n, owner, size), true);
      && ok && Elsewhere(records, r, n) && n in r
      && forall y: MemInfo :: y.owner == owner && y.size == size ==> RecordFollows(records[n], r[n], y)
  {
  }

  lemma TakenOut(s: seq<MemInfo>, i: nat)
    requires i < |s| && forall j, k :: 0 <= j < k < |s| ==> s[j].name != s[k].name
    ensures forall z :: z in s[..i] + s[i + 1..] <==> z in s && z != s[i]
  {
    var t := s[..i] + s[i + 1..];
    forall z
      ensures z in t <==> z in s && z != s[i]
    {
      if z in s && z != s[i] {
        var k :| 0 <= k < |s| && s[k] == z;
        assert t[if k < i then k else k - 1] == z;
      }
    }
  }

  /**
    What a request for buffered memory does: nothing without buffering, without an answer about the
    lenders or without a fitting lease; else the least fitting one is handed over, and replied
    exactly when the count of its units can be computed.
    */
  lemma ReuseSays(m: Manager, size: u64, isNuma: bool, slots: Option<seq<u32>>, owner: Owner)
    requires Good(m)
    ensures var (q, reply) := Reuse(m, size, isNuma, slots, owner); var s := Buffer(m, isNuma);
      if !m.enabled || slots == None || forall x :: x in s ==> !(x.size >= size && x.slotId in slots.value)
      then q == m && reply == None
      else exists x: MemInfo ::
        && x.size >= size && x.slotId in slots.value && LeastFit(s, size, slots.value, x)
        && Serves(m, q, reply, size, isNuma, owner, x)
  {
    if m.enabled && slots.Some? {
      var s := Buffer(m, isNuma);
      var i := FirstFit(s, size, slots.value, 0);
      if i < |s| {
        TakeSays(m, isNuma, i, size, owner);
        assert Sorted(s) && s[i] in s;
        hide Good, Take, Serves, LeastFit, Sorted;
        FirstIsLeast(s, size, slots.value, i);
      } else {
        hide Good, Take;
      }
    }
  }

  // ---- recovery

  /** An entry as recovery makes it from a record. */
  ghost predicate FiledFrom(n: string, item: Item<Lease>, y: MemInfo) {
    && y.name == n && y.owner == item.body.owner && y.size == item.body.size && y.numaId == item.body.numaId
    && y.memIds == item.memIds && y.unitSize == item.body.unitSize && y.perfLevel == item.body.distance
    && y.slotId == item.body.slotId && y.isNuma == !item.body.fdMode
    && y.state == (if item.body.state == RecordState.PreAdd then RecordState.PreAdd else Finish)
  }

  /**
    Every record that is neither reported gone nor left unanswered is in exactly the map its owner
    and kind say, with every field of the record; no other name is in a map.
    */
  lemma RecoveredSays(records: Leases, order: seq<string>, answers: string -> Answer, enabled: bool, maxBuffered: nat, n: string)
    requires Lists(order, records)
    ensures var r := Recovered(records, order, answers, enabled, maxBuffered);
      if n !in records || ReportedGone(records[n].body.state, answers(n)) || Unanswered(records[n].body.state, answers(n))
      then n !in r.used && n !in Names(r.numa) && n !in Names(r.fd)
      else if records[n].body.owner.pid != 0 then n in r.used && FiledFrom(n, records[n], r.used[n])
      else exists y :: y in Buffer(r, !records[n].body.fdMode) && FiledFrom(n, records[n], y)
  {
    var r := Recovered(records, order, answers, enabled, maxBuffered);
    RecoveredExact(records, order, answers, enabled, maxBuffered);
    FateMeans();
    NamesOf(r.numa);
    NamesOf(r.fd);
    hide Recovered, Names, RecordsAfter;
    if Kept(records, n, answers) {
      var x := KeptInfo(records, n, answers);
      assert FiledFrom(n, records[n], x) && (x.owner.pid == 0 ==> x in Buffer(r, x.isNuma));
    }
  }
}
