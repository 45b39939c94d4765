/**
  The lease manager as a value: leases in use, two size-ordered buffers of leases kept for reuse,
  and the lease records of the store (a plain map, which is what StoreTheorems.RunRefines shows
  the store to be). Engine calls are parameters.
  */
module LeaseSpec {
  import opened Words
  import opened Catalog
  import opened StoreSpec
  import opened Engine

  type Leases = map<string, Item<Lease>>

  datatype MemInfo = MemInfo(name: string, owner: Owner, size: u64, numaId: int, memIds: seq<u64>,
                             unitSize: u64, perfLevel: nat, slotId: u32, isNuma: bool, state: RecordState)

  datatype Manager = Manager(used: map<string, MemInfo>, numa: seq<MemInfo>, fd: seq<MemInfo>,
                             records: Leases, enabled: bool, maxBuffered: nat)

  // ---- the order of the buffers: size first, then name

  predicate Before(x: MemInfo, y: MemInfo) {
    if x.size != y.size then x.size < y.size else NameLess(x.name, y.name)
  }

  lemma BeforeOrder(x: MemInfo, y: MemInfo, z: MemInfo)
    ensures !Before(x, x)
    ensures Before(x, y) || Before(y, x) || (x.size == y.size && x.name == y.name)
    ensures Before(x, y) && Before(y, z) ==> Before(x, z)
  {
    NameLessOrder(x.name, y.name, z.name);
  }

  ghost predicate Sorted(s: seq<MemInfo>) {
    forall i, j :: 0 <= i < j < |s| ==> Before(s[i], s[j])
  }

  /** Insertion into an ordered map: nothing happens if the key is there already. */
  function Inserted(s: seq<MemInfo>, x: MemInfo): (r: seq<MemInfo>) {
    if s == [] || Before(x, s[0]) then [x] + s
    else if Before(s[0], x) then [s[0]] + Inserted(s[1..], x)
    else s
  }

  lemma {:induction false} InsertedSorted(s: seq<MemInfo>, x: MemInfo)
    requires Sorted(s)
    requires forall i :: 0 <= i < |s| ==> s[i].name != x.name
    ensures Sorted(Inserted(s, x))
    ensures forall y :: y in Inserted(s, x) <==> y in s || y == x
    ensures |Inserted(s, x)| == |s| + 1
  {
    if s != [] {
      BeforeOrder(x, s[0], x);
      if Before(x, s[0]) {
        forall j | 0 <= j < |s|
          ensures Before(x, s[j])
        {
          BeforeOrder(x, s[0], s[j]);
        }
      } else {
        InsertedSorted(s[1..], x);
        var r := Inserted(s[1..], x);
        forall j | 0 <= j < |r|
          ensures Before(s[0], r[j])
        {
          assert r[j] in s[1..] || r[j] == x;
        }
        assert s == [s[0]] + s[1..];
      }
    }
  }

  // ---- what the manager keeps

  const WORD := 0x1_0000_0000_0000_0000

  /** The size of a buffered lease: all its units, in 64-bit arithmetic. */
  function FullSize(unitSize: u64, count: nat): u64 { unitSize * count % WORD }

  /** Entry and record agree on owner, size, unit size, ids, lender, kind and, once there are ids, the NUMA node. */
  ghost predicate Agree(x: MemInfo, item: Item<Lease>) {
    && (item.memIds != [] ==> item.body.numaId == x.numaId)
    && item.body.owner == x.owner && item.body.size == x.size && item.body.unitSize == x.unitSize
    && item.memIds == x.memIds && item.body.slotId == x.slotId
    && item.body.fdMode == !x.isNuma && item.body.distance == x.perfLevel % 256
  }

  ghost predicate Backed(x: MemInfo, records: Leases) {
    x.name in records && Agree(x, records[x.name])
  }

  ghost predicate BufferOk(s: seq<MemInfo>, isNuma: bool, records: Leases) {
    && Sorted(s)
    && (forall i :: 0 <= i < |s| ==> s[i].isNuma == isNuma && s[i].owner.pid == 0 && Backed(s[i], records))
    && (forall i :: 0 <= i < |s| ==> s[i].size == FullSize(s[i].unitSize, |s[i].memIds|))
  }

  ghost predicate UsedOk(used: map<string, MemInfo>, records: Leases) {
    forall n :: n in used ==> used[n].name == n && used[n].owner.pid != 0 && Backed(used[n], records)
  }

  /** A record without an owning process is a buffered lease at its full size. */
  ghost predicate RecordOk(item: Item<Lease>) {
    && (item.body.owner.pid == 0 ==> item.body.size == FullSize(item.body.unitSize, |item.memIds|))
    && item.body.distance < 256
  }

  ghost predicate RecordsOk(records: Leases) {
    forall n :: n in records ==> RecordOk(records[n])
  }

  ghost predicate Good(m: Manager) {
    && UsedOk(m.used, m.records) && RecordsOk(m.records)
    && BufferOk(m.numa, true, m.records) && BufferOk(m.fd, false, m.records)
  }

  ghost function Names(s: seq<MemInfo>): set<string> {
    set i | 0 <= i < |s| :: s[i].name
  }

  /** Every stored lease is in one of the three maps. */
  ghost predicate Complete(m: Manager) {
    m.records.Keys == m.used.Keys + Names(m.numa) + Names(m.fd)
  }

  /**
    Partition: in every good state a lease name is in at most one of the three maps, at most once
    in a buffer, and always in the store.
    */
  lemma Partition(m: Manager)
    requires Good(m)
    ensures m.used.Keys !! Names(m.numa) && m.used.Keys !! Names(m.fd) && Names(m.numa) !! Names(m.fd)
    ensures forall i, j :: 0 <= i < j < |m.numa| ==> m.numa[i].name != m.numa[j].name
    ensures forall i, j :: 0 <= i < j < |m.fd| ==> m.fd[i].name != m.fd[j].name
    ensures m.used.Keys + Names(m.numa) + Names(m.fd) <= m.records.Keys
  {
    DistinctNames(m.numa, true, m.records);
    DistinctNames(m.fd, false, m.records);
    BufferNames(m.numa, true, m.records);
    BufferNames(m.fd, false, m.records);
  }

  /** The record alone tells that a name is buffered, and in which buffer. */
  lemma BufferNames(s: seq<MemInfo>, isNuma: bool, records: Leases)
    requires BufferOk(s, isNuma, records)
    ensures forall n :: n in Names(s) ==>
      n in records && records[n].body.owner.pid == 0 && records[n].body.fdMode == !isNuma
  {
  }

  lemma DistinctNames(s: seq<MemInfo>, isNuma: bool, records: Leases)
    requires BufferOk(s, isNuma, records)
    ensures forall i, j :: 0 <= i < j < |s| ==> s[i].name != s[j].name
  {
    forall i, j | 0 <= i < j < |s|
      ensures s[i].name != s[j].name
    {
      BeforeOrder(s[i], s[j], s[i]);
      NameLessOrder(s[i].name, s[i].name, s[i].name);
    }
  }

  // ---- operations

  /** One repository call: the store operation, on the lease records. */
  function Repo(records: Leases, op: Op, room: bool): (r: (Leases, bool)) {
    var (v, ok) := Attempt(View(map[], records, map[], map[]), op, room);
    (v.leases, ok)
  }

  function PreAddUsed(m: Manager, name: string, size: u64, owner: Owner, isNuma: bool, perfLevel: nat, room: bool): (r: (Manager, bool)) {
    if name in m.used then (m, false)
    else
      var (records, ok) := Repo(m.records, AddLease(name, size, owner, !isNuma, perfLevel % 256, RecordState.PreAdd), room);
      if !ok then (m, false)
      else (m.(records := records,
               used := m.used[name := MemInfo(name, owner, size, 0, [], 0, perfLevel, 0, isNuma, RecordState.PreAdd)]), true)
  }

  function FinishAdd(m: Manager, name: string, done: LeaseResult, room: bool): (r: (Manager, bool)) {
    if name !in m.used then (m, false)
    else
      var (records, ok) := Repo(m.records, AddLeaseResult(name, done), room);
      if !ok then (m, false)
      else (m.(records := records,
               used := m.used[name := m.used[name].(numaId := done.numaId, memIds := done.memIds,
                                                    unitSize := done.unitSize, slotId := done.slotId, state := Finish)]), true)
  }

  function Buffer(m: Manager, isNuma: bool): seq<MemInfo> { if isNuma then m.numa else m.fd }

  function WithBuffer(m: Manager, isNuma: bool, s: seq<MemInfo>): Manager {
    if isNuma then m.(numa := s) else m.(fd := s)
  }

  /** The first entry, in buffer order, that is large enough and lent by an allowed node. */
  function FirstFit(s: seq<MemInfo>, size: u64, slots: seq<u32>, from: nat): (i: nat)
    requires from <= |s|
    ensures from <= i <= |s|
    ensures i < |s| ==> s[i].size >= size && s[i].slotId in slots
    ensures forall j :: from <= j < i ==> !(s[j].size >= size && s[j].slotId in slots)
    decreases |s| - from
  {
    if from == |s| || (s[from].size >= size && s[from].slotId in slots) then from
    else FirstFit(s, size, slots, from + 1)
  }

  /** How many units a request needs; None when the arithmetic is refused. */
  function UnitCount(size: u64, unitSize: u64): Option<nat> {
    if unitSize == 0 || size > WORD - 1 - unitSize then None
    else Some((size + unitSize - 1) / unitSize)
  }

  /** Moves entry i of a buffer to the leases in use, its record first. */
  function Take(m: Manager, isNuma: bool, i: nat, size: u64, owner: Owner): (r: (Manager, Option<MemInfo>))
    requires i < |Buffer(m, isNuma)|
  {
    var s := Buffer(m, isNuma);
    var (records, ok) := Repo(m.records, UpdateLease(s[i].name, owner, size), true);
    if !ok then (m, None)
    else
      var info := s[i].(owner := owner, size := size, isNuma := isNuma);
      var used := if info.name in m.used then m.used else m.used[info.name := info];
      var count := UnitCount(size, info.unitSize);
      (WithBuffer(m, isNuma, s[..i] + s[i + 1..]).(records := records, used := used),
       if count == None then None else Some(info.(memIds := Resized(info.memIds, count.value))))
  }

  /** `slots` is the engine's list of lenders of the region, None when it cannot tell. */
  function Reuse(m: Manager, size: u64, isNuma: bool, slots: Option<seq<u32>>, owner: Owner): (r: (Manager, Option<MemInfo>)) {
    if !m.enabled || slots == None then (m, None)
    else
      var i := FirstFit(Buffer(m, isNuma), size, slots.value, 0);
      if i == |Buffer(m, isNuma)| then (m, None) else Take(m, isNuma, i, size, owner)
  }

  /** vector::resize: cut off, or padded with zeros. */
  function Resized(ids: seq<u64>, count: nat): seq<u64> {
    if count <= |ids| then ids[..count] else ids + seq(count - |ids|, _ => 0)
  }

  datatype Outcome = Refused | Marked | Buffered

  /** Gives a lease back: into its buffer if there is room there, else marked for deletion. */
  function PreDelete(m: Manager, name: string): (r: (Manager, Outcome)) {
    if name !in m.used then (m, Refused)
    else
      var x := m.used[name];
      var s := Buffer(m, x.isNuma);
      if m.enabled && |s| < m.maxBuffered then
        var owner, size := x.owner.(pid := 0), FullSize(x.unitSize, |x.memIds|);
        var (records, ok) := Repo(m.records, UpdateLease(name, owner, size), true);
        if !ok then (m, Refused)
        else (WithBuffer(m, x.isNuma, Inserted(s, x.(owner := owner, size := size)))
                .(records := records, used := m.used - {name}), Buffered)
      else
        var (records, ok) := Repo(m.records, SetLeaseState(name, PreDel), true);
        if !ok then (m, Refused) else (m.(records := records), Marked)
  }

  function Delete(m: Manager, name: string): (r: (Manager, bool)) {
    if name !in m.used then (m, false)
    else
      var (records, ok) := Repo(m.records, DelLease(name), true);
      if !ok then (m, false) else (m.(records := records, used := m.used - {name}), true)
  }

  function SetState(m: Manager, name: string, state: RecordState): (r: (Manager, bool)) {
    if name !in m.used then (m, false)
    else
      var (records, ok) := Repo(m.records, SetLeaseState(name, state), true);
      if !ok then (m, false) else (m.(records := records, used := m.used[name := m.used[name].(state := state)]), true)
  }

  /** Frees one lease; it stays, finished, when the engine refuses. A lease without a record stays too. */
  function Freeing(n: string, records: Leases, free: string -> Freed): (r: (bool, Leases)) {
    if n !in records then (false, records)
    else if free(n) == FreeError then (false, records[n := records[n].(body := records[n].body.(state := Finish))])
    else (true, records - {n})
  }

  /** Frees buffered leases one by one; those the engine refuses stay buffered and stored. */
  function Flushed(s: seq<MemInfo>, records: Leases, free: string -> Freed): (r: (seq<MemInfo>, Leases)) {
    if s == [] then ([], records)
    else
      var (gone, q) := Freeing(s[0].name, records, free);
      var (t, r) := Flushed(s[1..], q, free);
      (if gone then t else [s[0]] + t, r)
  }

  function DeleteAll(m: Manager, free: string -> Freed): (r: Manager) {
    if !m.enabled then m
    else
      var (numa, r) := Flushed(m.numa, m.records, free);
      var (fd, q) := Flushed(m.fd, r, free);
      m.(numa := numa, fd := fd, records := q)
  }

  // ---- recovery after a restart

  /** Marking a record before deleting it makes no difference to what is left. */
  lemma DeleteAfterMark(records: Leases, n: string, state: RecordState)
    ensures Repo(Repo(records, SetLeaseState(n, state), true).0, DelLease(n), true).0 == Repo(records, DelLease(n), true).0
  {
    if n in records {
      assert records[n := records[n].(body := records[n].body.(state := state))] - {n} == records - {n};
    }
  }

  /** What recovery does with a record, given its state and the engine's answer about it. */
  function FateOf(state: RecordState, a: Answer): Fate {
    match state
    case PreAdd => if a == Failed then Skip else if GoneForAdd(a) then Erase else Keep(RecordState.PreAdd)
    case PreDel => if a == Failed then Skip else if GoneForDelete(a) then Erase else Keep(Finish)
    case Deleted => Erase
    case Finish => Keep(Finish)
  }

  function InfoOf(n: string, item: Item<Lease>, state: RecordState): MemInfo {
    MemInfo(n, item.body.owner, item.body.size, item.body.numaId, item.memIds, item.body.unitSize,
            item.body.distance, item.body.slotId, !item.body.fdMode, state)
  }

  function Filed(m: Manager, x: MemInfo): Manager {
    if x.owner.pid != 0 then m.(used := if x.name in m.used then m.used else m.used[x.name := x])
    else WithBuffer(m, x.isNuma, Inserted(Buffer(m, x.isNuma), x))
  }

  function RecoverOne(m: Manager, n: string, item: Item<Lease>, a: Answer): Manager {
    match FateOf(item.body.state, a)
    case Skip => m
    case Erase => m.(records := Repo(m.records, DelLease(n), true).0)
    case Keep(state) =>
      var records := if item.body.state == PreDel then Repo(m.records, SetLeaseState(n, Finish), true).0 else m.records;
      Filed(m.(records := records), InfoOf(n, item, state))
  }

  /** Recovery over the listed records, in the order the store lists them. */
  function RecoveredFrom(m: Manager, records: Leases, order: seq<string>, answers: string -> Answer): Manager
    requires forall i :: 0 <= i < |order| ==> order[i] in records
  {
    if order == [] then m
    else
      var n := order[|order| - 1];
      RecoverOne(RecoveredFrom(m, records, order[..|order| - 1], answers), n, records[n], answers(n))
  }

  /** Recovery after a restart, from empty maps. */
  function Recovered(records: Leases, order: seq<string>, answers: string -> Answer, enabled: bool, maxBuffered: nat): Manager
    requires forall i :: 0 <= i < |order| ==> order[i] in records
  {
    RecoveredFrom(Manager(map[], [], [], records, enabled, maxBuffered), records, order, answers)
  }
}
