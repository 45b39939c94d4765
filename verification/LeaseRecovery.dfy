/** Recovery, emptying the buffers, and whole runs of the lease manager. */
module LeaseRecovery {
  import opened Words
  import opened Catalog
  import opened StoreSpec
  import opened Engine
  import opened LeaseSpec
  import opened LeaseTheorems

  // ---- emptying the buffers

  /** What freeing `names` does to the records: refused ones are marked finished, the rest are gone. */
  ghost predicate FlushedRecords(r: Leases, q: Leases, names: set<string>, free: string -> Freed) {
    && (forall n :: n !in names ==> (n in q <==> n in r) && (n in q ==> q[n] == r[n]))
    && (forall n :: n in names ==> (n in q <==> free(n) == FreeError))
    && (forall n :: n in names && n in q ==> n in r && q[n] == r[n].(body := r[n].body.(state := Finish)))
  }

  lemma {:induction false} FlushedExact(s: seq<MemInfo>, isNuma: bool, r: Leases, free: string -> Freed)
    requires BufferOk(s, isNuma, r) && RecordsOk(r)
    ensures var (t, q) := Flushed(s, r, free);
      && BufferOk(t, isNuma, q) && RecordsOk(q) && FlushedRecords(r, q, Names(s), free)
      && (forall x :: x in t <==> x in s && free(x.name) == FreeError)
  {
    if s != [] {
      var n, rest := s[0].name, s[1..];
      assert s == [s[0]] + rest && Backed(s[0], r);
      DistinctNames(s, isNuma, r);
      assert n !in Names(rest);
      assert Names(s) == {n} + Names(rest);
      hide Names, Sorted;
      BufferSubset(s, rest, isNuma, r) by { assert Sorted(rest) by { TailSorted(s); } }
      var r' := if free(n) == FreeError then r[n := r[n].(body := r[n].body.(state := Finish))] else r - {n};
      BufferFrame(rest, isNuma, r, r', n);
      FlushedExact(rest, isNuma, r', free);
      var (t, q) := Flushed(rest, r', free);
      FlushedMore(r, r', q, n, Names(rest), free);
      if free(n) == FreeError {
        assert Backed(s[0], q);
        BufferCons(s, t, isNuma, q);
      }
      hide BufferOk, FlushedRecords, RecordsOk;
    }
  }

  lemma TailSorted(s: seq<MemInfo>)
    requires s != [] && Sorted(s)
    ensures Sorted(s[1..])
  {
  }

  lemma FlushedMore(r: Leases, r': Leases, q: Leases, n: string, names: set<string>, free: string -> Freed)
    requires n in r && n !in names && FlushedRecords(r', q, names, free)
    requires r' == if free(n) == FreeError then r[n := r[n].(body := r[n].body.(state := Finish))] else r - {n}
    ensures FlushedRecords(r, q, {n} + names, free)
  {
  }

  lemma BufferCons(s: seq<MemInfo>, t: seq<MemInfo>, isNuma: bool, q: Leases)
    requires s != [] && Sorted(s) && BufferOk(t, isNuma, q) && forall x :: x in t ==> x in s[1..]
    requires s[0].isNuma == isNuma && s[0].owner.pid == 0 && Backed(s[0], q) && s[0].size == FullSize(s[0].unitSize, |s[0].memIds|)
    ensures BufferOk([s[0]] + t, isNuma, q)
  {
    assert forall i :: 0 <= i < |t| ==> t[i] in s[1..];
  }

  /** After emptying, exactly the leases the engine would not free are left, stored as finished. */
  lemma DeleteAllGood(m: Manager, free: string -> Freed)
    requires Good(m)
    ensures var q := DeleteAll(m, free);
      && Good(q) && (Complete(m) ==> Complete(q)) && q.used == m.used
      && (m.enabled ==> forall x :: x in q.numa <==> x in m.numa && free(x.name) == FreeError)
      && (m.enabled ==> forall x :: x in q.fd <==> x in m.fd && free(x.name) == FreeError)
      && (m.enabled ==> FlushedRecords(m.records, q.records, Names(m.numa) + Names(m.fd), free))
  {
    if m.enabled {
      var (numa, r) := Flushed(m.numa, m.records, free);
      var (fd, q) := Flushed(m.fd, r, free);
      Partition(m);
      FlushedExact(m.numa, true, m.records, free);
      KeptElsewhere(m.fd, false, m.records, r, Names(m.numa));
      FlushedExact(m.fd, false, r, free);
      KeptElsewhere(numa, true, r, q, Names(m.fd));
      UsedElsewhere(m.used, m.records, q, Names(m.numa) + Names(m.fd));
      FlushedBoth(m.records, r, q, Names(m.numa), Names(m.fd), free);
      if Complete(m) {
        FlushedNames(m.numa, numa, free);
        FlushedNames(m.fd, fd, free);
        FlushedComplete(m, DeleteAll(m, free), r, free);
      }
    }
  }

  lemma FlushedBoth(r: Leases, mid: Leases, q: Leases, a: set<string>, b: set<string>, free: string -> Freed)
    requires a !! b && FlushedRecords(r, mid, a, free) && FlushedRecords(mid, q, b, free)
    ensures FlushedRecords(r, q, a + b, free)
  {
  }

  lemma KeptElsewhere(s: seq<MemInfo>, isNuma: bool, r: Leases, q: Leases, names: set<string>)
    requires BufferOk(s, isNuma, r) && Names(s) !! names
    requires forall n :: n !in names ==> (n in q <==> n in r) && (n in q ==> q[n] == r[n])
    ensures BufferOk(s, isNuma, q)
  {
    forall i | 0 <= i < |s|
      ensures Backed(s[i], q)
    {
      assert s[i].name in Names(s);
    }
  }

  lemma UsedElsewhere(used: map<string, MemInfo>, r: Leases, q: Leases, names: set<string>)
    requires UsedOk(used, r) && used.Keys !! names
    requires forall n :: n !in names ==> (n in q <==> n in r) && (n in q ==> q[n] == r[n])
    ensures UsedOk(used, q)
  {
  }

  lemma FlushedNames(s: seq<MemInfo>, t: seq<MemInfo>, free: string -> Freed)
    requires forall x :: x in t <==> x in s && free(x.name) == FreeError
    ensures forall n :: n in Names(t) <==> n in Names(s) && free(n) == FreeError
  {
    NamesOf(s);
    NamesOf(t);
  }

  lemma FlushedComplete(m: Manager, q: Manager, r: Leases, free: string -> Freed)
    requires Complete(m) && q.used == m.used && m.used.Keys !! Names(m.numa) + Names(m.fd)
    requires forall n :: n in Names(q.numa) <==> n in Names(m.numa) && free(n) == FreeError
    requires forall n :: n in Names(q.fd) <==> n in Names(m.fd) && free(n) == FreeError
    requires FlushedRecords(m.records, r, Names(m.numa), free) && FlushedRecords(r, q.records, Names(m.fd), free)
    requires Names(m.numa) !! Names(m.fd)
    ensures Complete(q)
  {
    forall n
      ensures n in q.records.Keys <==> n in q.used.Keys + Names(q.numa) + Names(q.fd)
    {
      assert n in m.records.Keys <==> n in m.used.Keys + Names(m.numa) + Names(m.fd);
    }
  }

  // ---- recovery

  /** Name `n` of the records ends up in some map. */
  ghost predicate Kept(records: Leases, n: string, answers: string -> Answer) {
    n in records && FateOf(records[n].body.state, answers(n)).Keep?
  }

  ghost function KeptInfo(records: Leases, n: string, answers: string -> Answer): MemInfo
    requires Kept(records, n, answers)
  {
    InfoOf(n, records[n], FateOf(records[n].body.state, answers(n)).state)
  }

  /** A buffer holds, in order, exactly the kept ownerless leases of its kind among `names`. */
  ghost predicate BufferIs(s: seq<MemInfo>, isNuma: bool, records: Leases, names: seq<string>, answers: string -> Answer) {
    && Sorted(s)
    && (forall x :: x in s <==>
          (x.name in names && Kept(records, x.name, answers) && x == KeptInfo(records, x.name, answers)
           && x.owner.pid == 0 && x.isNuma == isNuma))
  }

  ghost predicate UsedIs(used: map<string, MemInfo>, records: Leases, names: seq<string>, answers: string -> Answer) {
    forall n :: (n in used <==> n in names && Kept(records, n, answers) && records[n].body.owner.pid != 0)
      && (n in used ==> used[n] == KeptInfo(records, n, answers))
  }

  /** The records after `names` have been looked at. */
  ghost function RecordsAfter(records: Leases, names: seq<string>, answers: string -> Answer): Leases {
    map n | n in records && !(n in names && FateOf(records[n].body.state, answers(n)) == Erase) ::
      if n in names && Kept(records, n, answers) && records[n].body.state == PreDel
      then records[n].(body := records[n].body.(state := Finish)) else records[n]
  }

  lemma {:induction false} RecoveredExact(records: Leases, order: seq<string>, answers: string -> Answer, enabled: bool, maxBuffered: nat)
    requires Distinct(order) && forall i :: 0 <= i < |order| ==> order[i] in records
    ensures var m := Recovered(records, order, answers, enabled, maxBuffered);
      && m.records == RecordsAfter(records, order, answers)
      && UsedIs(m.used, records, order, answers)
      && BufferIs(m.numa, true, records, order, answers) && BufferIs(m.fd, false, records, order, answers)
  {
    if order != [] {
      var k := |order| - 1;
      var n := order[k];
      DistinctPop(order);
      assert forall i :: 0 <= i < k ==> order[..k][i] in records;
      RecoveredExact(records, order[..k], answers, enabled, maxBuffered);
      var was := Recovered(records, order[..k], answers, enabled, maxBuffered);
      RecoverOneExact(was, records, order[..k], n, answers);
      assert order == order[..k] + [n];
    } else {
      assert RecordsAfter(records, order, answers) == records;
    }
  }

  lemma RecoverOneExact(m: Manager, records: Leases, names: seq<string>, n: string, answers: string -> Answer)
    requires n in records && n !in names && m.records == RecordsAfter(records, names, answers)
    requires UsedIs(m.used, records, names, answers)
    requires BufferIs(m.numa, true, records, names, answers) && BufferIs(m.fd, false, records, names, answers)
    ensures var q := RecoverOne(m, n, records[n], answers(n)); var more := names + [n];
      && q.records == RecordsAfter(records, more, answers)
      && UsedIs(q.used, records, more, answers)
      && BufferIs(q.numa, true, records, more, answers) && BufferIs(q.fd, false, records, more, answers)
  {
    assert m.records[n] == records[n];
    RecordsOne(m, records, names, n, answers);
    hide RecordsAfter;
    RecoverOneIs(m, records, n, answers);
    hide RecoverOne, FateOf, BufferIs, UsedIs, Inserted;
    UsedMore(m.used, records, names, n, answers);
    BufferMore(m.numa, true, records, names, n, answers);
    BufferMore(m.fd, false, records, names, n, answers);
  }

  /** A kept lease without an owner process, of one kind. */
  ghost predicate Spare(records: Leases, n: string, isNuma: bool, answers: string -> Answer) {
    && Kept(records, n, answers)
    && KeptInfo(records, n, answers).owner.pid == 0 && KeptInfo(records, n, answers).isNuma == isNuma
  }

  ghost function BufferWith(s: seq<MemInfo>, isNuma: bool, records: Leases, n: string, answers: string -> Answer): seq<MemInfo> {
    if Spare(records, n, isNuma, answers) then Inserted(s, KeptInfo(records, n, answers)) else s
  }

  ghost function UsedWith(used: map<string, MemInfo>, records: Leases, n: string, answers: string -> Answer): map<string, MemInfo> {
    if n !in used && Kept(records, n, answers) && KeptInfo(records, n, answers).owner.pid != 0
    then used[n := KeptInfo(records, n, answers)] else used
  }

  /** Where recovery files a record. */
  lemma RecoverOneIs(m: Manager, records: Leases, n: string, answers: string -> Answer)
    requires n in records
    ensures var q := RecoverOne(m, n, records[n], answers(n));
      && q.used == UsedWith(m.used, records, n, answers)
      && q.numa == BufferWith(m.numa, true, records, n, answers) && q.fd == BufferWith(m.fd, false, records, n, answers)
  {
    hide Repo, Inserted;
  }

  lemma UsedMore(used: map<string, MemInfo>, records: Leases, names: seq<string>, n: string, answers: string -> Answer)
    requires n in records && n !in names && UsedIs(used, records, names, answers)
    ensures UsedIs(UsedWith(used, records, n, answers), records, names + [n], answers)
  {
    assert forall x :: x in names + [n] <==> x in names || x == n;
    assert n !in used;
    hide FateOf;
  }

  lemma BufferMore(s: seq<MemInfo>, isNuma: bool, records: Leases, names: seq<string>, n: string, answers: string -> Answer)
    requires n in records && n !in names && BufferIs(s, isNuma, records, names, answers)
    ensures BufferIs(BufferWith(s, isNuma, records, n, answers), isNuma, records, names + [n], answers)
  {
    assert forall y :: y in names + [n] <==> y in names || y == n;
    if Spare(records, n, isNuma, answers) {
      assert forall i :: 0 <= i < |s| ==> s[i] in s;
      InsertedSorted(s, KeptInfo(records, n, answers));
    }
    hide Inserted, Sorted, FateOf;
  }

  lemma RepoIs(records: Leases, n: string)
    requires n in records
    ensures Repo(records, DelLease(n), true).0 == records - {n}
    ensures Repo(records, SetLeaseState(n, Finish), true).0 == records[n := records[n].(body := records[n].body.(state := Finish))]
  {
  }

  /** What becomes of one record, looked at or not. */
  ghost function After(records: Leases, seen: bool, n: string, answers: string -> Answer): Option<Item<Lease>> {
    if n !in records || (seen && FateOf(records[n].body.state, answers(n)) == Erase) then None
    else if seen && Kept(records, n, answers) && records[n].body.state == PreDel
    then Some(records[n].(body := records[n].body.(state := Finish)))
    else Some(records[n])
  }

  ghost function Lookup(r: Leases, n: string): Option<Item<Lease>> {
    if n in r then Some(r[n]) else None
  }

  lemma RecordsAfterAt(records: Leases, names: seq<string>, answers: string -> Answer)
    ensures forall n :: Lookup(RecordsAfter(records, names, answers), n) == After(records, n in names, n, answers)
  {
  }

  lemma SameLookups(r: Leases, q: Leases)
    requires forall n :: Lookup(r, n) == Lookup(q, n)
    ensures r == q
  {
    forall n
      ensures n in r <==> n in q
      ensures n in r ==> r[n] == q[n]
    {
      assert Lookup(r, n) == Lookup(q, n);
    }
  }

  lemma RecordsOne(m: Manager, records: Leases, names: seq<string>, n: string, answers: string -> Answer)
    requires n in records && n !in names && m.records == RecordsAfter(records, names, answers)
    ensures RecoverOne(m, n, records[n], answers(n)).records == RecordsAfter(records, names + [n], answers)
  {
    hide RecordsAfter, Repo, Inserted;
    var q := RecoverOne(m, n, records[n], answers(n)).records;
    var after := RecordsAfter(records, names + [n], answers);
    RecordsAfterAt(records, names, answers);
    RecordsAfterAt(records, names + [n], answers);
    assert Lookup(m.records, n) == After(records, false, n, answers);
    RepoIs(m.records, n);
    assert Lookup(q, n) == After(records, true, n, answers);
    forall x
      ensures Lookup(q, x) == Lookup(after, x)
    {
      assert x in names + [n] <==> x in names || x == n;
      assert x != n ==> Lookup(q, x) == Lookup(m.records, x);
    }
    SameLookups(q, after);
  }

  ghost predicate Lists(order: seq<string>, records: Leases) {
    Distinct(order) && forall n :: n in order <==> n in records
  }

  /** Every kept lease is backed by what recovery leaves of its record. */
  lemma KeptBacked(records: Leases, order: seq<string>, answers: string -> Answer, n: string)
    requires RecordsOk(records) && Lists(order, records) && Kept(records, n, answers)
    ensures Backed(KeptInfo(records, n, answers), RecordsAfter(records, order, answers))
  {
    assert RecordOk(records[n]);
  }

  /**
    From the records of any good state and empty maps, recovery yields a good state. A record is
    erased exactly when it was deleted, or half-added or half-deleted and the engine reports it
    gone; a record is left half-deleted exactly when it was and the engine did not answer about it,
    and no map entry is; and every stored lease is back in a map if and only if the engine answered
    for every half-added or half-deleted one.
    */
  lemma RecoveryGood(m: Manager, order: seq<string>, answers: string -> Answer, enabled: bool)
    requires Good(m) && Lists(order, m.records)
    ensures var r := Recovered(m.records, order, answers, enabled, m.maxBuffered);
      && Good(r)
      && (forall n :: n in r.records <==> n in m.records && !ReportedGone(m.records[n].body.state, answers(n)))
      && (forall n :: n in r.records ==> LeftAs(m.records[n].body.state, answers(n), r.records[n].body.state))
      && (forall n :: n in r.used ==> r.used[n].state == RecordState.PreAdd || r.used[n].state == Finish)
      && (forall x :: x in r.numa || x in r.fd ==> x.state == RecordState.PreAdd || x.state == Finish)
      && (Complete(r) <==> forall n :: n in m.records ==> !Unanswered(m.records[n].body.state, answers(n)))
  {
    var r := Recovered(m.records, order, answers, enabled, m.maxBuffered);
    FateMeans();
    hide ReportedGone, Unanswered, LeftAs, Recovered, Names;
    RecoveredExact(m.records, order, answers, enabled, m.maxBuffered);
    RecoveredComplete(r, m.records, order, answers);
    RecoveredRecords(m.records, order, answers);
    forall n | Kept(m.records, n, answers)
      ensures Backed(KeptInfo(m.records, n, answers), r.records)
    {
      KeptBacked(m.records, order, answers, n);
    }
    hide RecordsAfter, Complete, Backed, RecordsOk, FateOf;
    RecoveredBuffer(r.numa, true, m.records, order, answers, r.records);
    RecoveredBuffer(r.fd, false, m.records, order, answers, r.records);
    KeptStates(m.records, answers);
    hide BufferOk;
  }

  /** Deleted, or half-done and unknown to the engine or on its way out there. */
  ghost predicate ReportedGone(state: RecordState, a: Answer) {
    || state == Deleted
    || (state == RecordState.PreAdd && a in {NoSuchMemory, At(NotExist), At(Deleting)})
    || (state == PreDel && a in {NoSuchMemory, At(NotExist), At(Deleting), At(WaitUnexport)})
  }

  /** Half-done, and the engine cannot be asked. */
  ghost predicate Unanswered(state: RecordState, a: Answer) {
    (state == RecordState.PreAdd || state == PreDel) && a == Failed
  }

  /** The state recovery leaves in a record it does not erase. */
  ghost predicate LeftAs(before: RecordState, a: Answer, after: RecordState) {
    && after != Deleted && (after == RecordState.PreAdd <==> before == RecordState.PreAdd)
    && (after == PreDel <==> before == PreDel && a == Failed)
  }

  lemma FateMeans()
    ensures forall state, a :: FateOf(state, a) == Erase <==> ReportedGone(state, a)
    ensures forall state, a :: FateOf(state, a) == Skip <==> Unanswered(state, a)
  {
  }

  lemma KeptStates(records: Leases, answers: string -> Answer)
    ensures forall n :: Kept(records, n, answers) ==>
      KeptInfo(records, n, answers).state == RecordState.PreAdd || KeptInfo(records, n, answers).state == Finish
  {
  }

  lemma RecoveredRecords(records: Leases, order: seq<string>, answers: string -> Answer)
    requires Lists(order, records) && RecordsOk(records)
    ensures var r := RecordsAfter(records, order, answers);
      && RecordsOk(r)
      && (forall n :: n in r <==> n in records && FateOf(records[n].body.state, answers(n)) != Erase)
      && (forall n :: n in r ==> LeftAs(records[n].body.state, answers(n), r[n].body.state))
  {
  }

  lemma RecoveredBuffer(s: seq<MemInfo>, isNuma: bool, records: Leases, order: seq<string>, answers: string -> Answer, q: Leases)
    requires BufferIs(s, isNuma, records, order, answers) && RecordsOk(records)
    requires forall n :: Kept(records, n, answers) ==> Backed(KeptInfo(records, n, answers), q)
    ensures BufferOk(s, isNuma, q)
  {
    forall i | 0 <= i < |s|
      ensures s[i].isNuma == isNuma && s[i].owner.pid == 0 && Backed(s[i], q)
      ensures s[i].size == FullSize(s[i].unitSize, |s[i].memIds|)
    {
      assert s[i] in s;
      assert RecordOk(records[s[i].name]);
    }
  }

  lemma RecoveredComplete(r: Manager, records: Leases, order: seq<string>, answers: string -> Answer)
    requires Lists(order, records) && r.records == RecordsAfter(records, order, answers)
    requires UsedIs(r.used, records, order, answers)
    requires BufferIs(r.numa, true, records, order, answers) && BufferIs(r.fd, false, records, order, answers)
    ensures Complete(r) <==> forall n :: n in records ==> FateOf(records[n].body.state, answers(n)) != Skip
  {
    RecordsAfterAt(records, order, answers);
    forall n
      ensures n in r.used.Keys + Names(r.numa) + Names(r.fd) <==> Kept(records, n, answers)
      ensures n in r.records <==> n in records && FateOf(records[n].body.state, answers(n)) != Erase
    {
      assert Lookup(r.records, n) == After(records, n in order, n, answers);
      NamesOf(r.numa);
      NamesOf(r.fd);
      if Kept(records, n, answers) {
        var x := KeptInfo(records, n, answers);
        assert n in r.used || x in r.numa || x in r.fd;
      }
    }
    assert forall n :: n in r.records.Keys <==> n in r.records;
    if Complete(r) {
      forall n | n in records
        ensures FateOf(records[n].body.state, answers(n)) != Skip
      {
        assert n in r.records.Keys <==> n in r.used.Keys + Names(r.numa) + Names(r.fd);
      }
    }
  }

  /** The parts of an entry that a restart must give back. */
  ghost predicate SameLease(x: MemInfo, y: MemInfo) {
    && y.name == x.name && y.owner == x.owner && y.size == x.size && y.memIds == x.memIds
    && y.unitSize == x.unitSize && y.slotId == x.slotId && y.isNuma == x.isNuma
    && (x.memIds != [] ==> y.numaId == x.numaId) && y.perfLevel == x.perfLevel % 256 && y.state == Finish
  }

  /** A finished lease comes back into the same map with the same owner, size, ids, lender and NUMA node. */
  lemma FinishedComesBack(m: Manager, order: seq<string>, answers: string -> Answer, enabled: bool, x: MemInfo)
    requires Good(m) && Lists(order, m.records)
    requires (x.name in m.used && x == m.used[x.name]) || x in m.numa || x in m.fd
    requires x.name in m.records && m.records[x.name].body.state == Finish
    ensures var r := Recovered(m.records, order, answers, enabled, m.maxBuffered);
      && (x.name in m.used ==> x.name in r.used && SameLease(x, r.used[x.name]))
      && (x in m.numa ==> exists y :: y in r.numa && SameLease(x, y))
      && (x in m.fd ==> exists y :: y in r.fd && SameLease(x, y))
  {
    var r := Recovered(m.records, order, answers, enabled, m.maxBuffered);
    RecoveredExact(m.records, order, answers, enabled, m.maxBuffered);
    hide Recovered;
    Partition(m);
    NamesOf(m.numa);
    NamesOf(m.fd);
    assert Kept(m.records, x.name, answers);
    var y := KeptInfo(m.records, x.name, answers);
    if x.name in m.used {
      assert Backed(m.used[x.name], m.records);
    } else if x in m.numa {
      assert Backed(x, m.records) && y in r.numa && SameLease(x, y);
    } else {
      assert Backed(x, m.records) && y in r.fd && SameLease(x, y);
    }
  }

  /** Where recovery files a kept lease: in use exactly when it has an owner, else by its kind. */
  lemma KeptWhere(records: Leases, order: seq<string>, answers: string -> Answer, enabled: bool, maxBuffered: nat, n: string)
    requires Lists(order, records) && Kept(records, n, answers)
    ensures var r := Recovered(records, order, answers, enabled, maxBuffered); var lease := records[n].body;
      && (n in r.used <==> lease.owner.pid != 0)
      && (n in Names(r.numa) <==> lease.owner.pid == 0 && !lease.fdMode)
      && (n in Names(r.fd) <==> lease.owner.pid == 0 && lease.fdMode)
  {
    var r := Recovered(records, order, answers, enabled, maxBuffered);
    RecoveredExact(records, order, answers, enabled, maxBuffered);
    hide Recovered;
    NamesOf(r.numa);
    NamesOf(r.fd);
    var x := KeptInfo(records, n, answers);
    assert x.owner.pid == 0 ==> if x.isNuma then x in r.numa else x in r.fd;
  }

  /** An instance: borrowed for process 0, a finished lease in use comes back from a restart in a buffer. */
  lemma OwnerlessMoves(name: string, size: u64, isNuma: bool, done: LeaseResult, answers: string -> Answer)
    requires |name| < NAME_SIZE && done.memIds != []
    ensures var a := PreAddUsed(Manager(map[], [], [], map[], true, 1), name, size, Owner(0, 0, 0), isNuma, 0, true).0;
      var b := FinishAdd(a, name, done, true).0;
      && name in b.used && b.used[name].state == Finish && Lists([name], b.records)
      && var r := Recovered(b.records, [name], answers, true, 1);
         name !in r.used && name in Names(Buffer(r, isNuma))
  {
    var a := PreAddUsed(Manager(map[], [], [], map[], true, 1), name, size, Owner(0, 0, 0), isNuma, 0, true).0;
    var b := FinishAdd(a, name, done, true).0;
    assert Lists([name], b.records) && Kept(b.records, name, answers);
    KeptWhere(b.records, [name], answers, true, 1, name);
    hide Recovered;
  }

  // ---- whole runs

  datatype Call =
    | DoPreAdd(name: string, size: u64, owner: Owner, isNuma: bool, perfLevel: nat, room: bool)
    | DoFinishAdd(name: string, done: LeaseResult, room: bool)
    | DoReuse(size: u64, isNuma: bool, slots: Option<seq<u32>>, owner: Owner)
    | DoPreDelete(name: string)
    | DoDelete(name: string)
    | DoSetState(name: string, state: RecordState)
    | DoDeleteAll(free: string -> Freed)
    | DoRestart(order: seq<string>, answers: string -> Answer, enabled: bool)

  /** Recovery sees every stored record. */
  ghost predicate Listable(m: Manager, c: Call) { c.DoRestart? ==> Lists(c.order, m.records) }

  /** A lease taken for process 0, which is how the manager marks a lease without an owner. */
  predicate Ownerless(c: Call) { (c.DoPreAdd? || c.DoReuse?) && c.owner.pid == 0 }

  ghost predicate Callable(m: Manager, c: Call) { Listable(m, c) && !Ownerless(c) }

  ghost function Called(m: Manager, c: Call): Manager
    requires Listable(m, c)
  {
    match c
    case DoPreAdd(name, size, owner, isNuma, perfLevel, room) => PreAddUsed(m, name, size, owner, isNuma, perfLevel, room).0
    case DoFinishAdd(name, done, room) => FinishAdd(m, name, done, room).0
    case DoReuse(size, isNuma, slots, owner) => Reuse(m, size, isNuma, slots, owner).0
    case DoPreDelete(name) => PreDelete(m, name).0
    case DoDelete(name) => Delete(m, name).0
    case DoSetState(name, state) => SetState(m, name, state).0
    case DoDeleteAll(free) => DeleteAll(m, free)
    case DoRestart(order, answers, enabled) => Recovered(m.records, order, answers, enabled, m.maxBuffered)
  }

  /** A restart in which the engine answers about every half-done lease. */
  ghost predicate Answered(m: Manager, c: Call) {
    c.DoRestart? ==> forall n :: n in m.records ==> !Unanswered(m.records[n].body.state, c.answers(n))
  }

  /** Every call keeps the manager good, except exactly one that takes a lease for process 0. */
  lemma CallGoodIff(m: Manager, c: Call)
    requires Good(m) && Listable(m, c)
    ensures Good(Called(m, c)) <==> (Ownerless(c) ==> Called(m, c) == m)
    ensures Complete(m) && Answered(m, c) ==> Complete(Called(m, c))
  {
    hide Good, Complete, FinishAdd, Reuse, PreDelete, Delete, SetState, DeleteAll, Recovered;
    match c
    case DoPreAdd(name, size, owner, isNuma, perfLevel, room) =>
      PreAddGood(m, name, size, owner, isNuma, perfLevel, room);
      PreAddRefused(m, name, size, owner, isNuma, perfLevel, room);
      hide PreAddUsed;
    case DoFinishAdd(name, done, room) => FinishAddGood(m, name, done, room);
    case DoReuse(size, isNuma, slots, owner) => ReuseGood(m, size, isNuma, slots, owner);
    case DoPreDelete(name) => PreDeleteGood(m, name);
    case DoDelete(name) => DeleteGood(m, name);
    case DoSetState(name, state) => SetStateGood(m, name, state);
    case DoDeleteAll(free) => DeleteAllGood(m, free);
    case DoRestart(order, answers, enabled) => RecoveryGood(m, order, answers, enabled);
  }

  lemma PreAddRefused(m: Manager, name: string, size: u64, owner: Owner, isNuma: bool, perfLevel: nat, room: bool)
    ensures var (q, ok) := PreAddUsed(m, name, size, owner, isNuma, perfLevel, room); q == m <==> !ok
  {
    hide Repo;
  }

  lemma CallGood(m: Manager, c: Call)
    requires Good(m) && Callable(m, c)
    ensures Good(Called(m, c)) && (Complete(m) && Answered(m, c) ==> Complete(Called(m, c)))
  {
    hide Good, Complete, Called, Answered;
    CallGoodIff(m, c);
  }

  lemma ReuseGood(m: Manager, size: u64, isNuma: bool, slots: Option<seq<u32>>, owner: Owner)
    requires Good(m)
    ensures var q := Reuse(m, size, isNuma, slots, owner).0;
      (Good(q) <==> q == m || owner.pid != 0) && (Complete(m) ==> Complete(q))
  {
    if m.enabled && slots.Some? {
      hide Good, Complete;
      ReuseBestFit(m, size, isNuma, slots.value, owner);
    }
  }

  ghost predicate CallableRun(m: Manager, cs: seq<Call>)
    decreases |cs|
  {
    cs != [] ==> Callable(m, cs[0]) && CallableRun(Called(m, cs[0]), cs[1..])
  }

  ghost function AfterRun(m: Manager, cs: seq<Call>): Manager
    requires CallableRun(m, cs)
    decreases |cs|
  {
    if cs == [] then m else AfterRun(Called(m, cs[0]), cs[1..])
  }

  ghost predicate AnsweredRun(m: Manager, cs: seq<Call>)
    requires CallableRun(m, cs)
    decreases |cs|
  {
    cs != [] ==> Answered(m, cs[0]) && AnsweredRun(Called(m, cs[0]), cs[1..])
  }

  /**
    After any run of calls and restarts from a good state, every lease name is in at most one of
    the three maps, every entry agrees with its record, and every mapped name is stored; and the
    mapped names are all the stored ones when every restart was answered.
    */
  lemma {:induction false} RunPartition(m: Manager, cs: seq<Call>)
    requires Good(m) && CallableRun(m, cs)
    ensures var z := AfterRun(m, cs);
      && Good(z)
      && z.used.Keys !! Names(z.numa) && z.used.Keys !! Names(z.fd) && Names(z.numa) !! Names(z.fd)
      && z.used.Keys + Names(z.numa) + Names(z.fd) <= z.records.Keys
      && (Complete(m) && AnsweredRun(m, cs) ==> z.used.Keys + Names(z.numa) + Names(z.fd) == z.records.Keys)
    decreases |cs|
  {
    if cs == [] {
      Partition(m);
    } else {
      CallGood(m, cs[0]);
      RunPartition(Called(m, cs[0]), cs[1..]);
    }
  }

  // ---- a lease from borrow to return

  lemma NewLease(m: Manager, name: string, size: u64, owner: Owner, isNuma: bool, perfLevel: nat, done: LeaseResult)
    requires |name| < NAME_SIZE && name !in m.records && name !in m.used && done.memIds != []
    ensures var a := PreAddUsed(m, name, size, owner, isNuma, perfLevel, true).0;
      var b := FinishAdd(a, name, done, true).0;
      && name in b.used && b.used[name].isNuma == isNuma && b.used[name].name == name
      && b == m.(used := b.used, records := b.records)
      && b.used - {name} == m.used && b.records - {name} == m.records && name in b.records
  {
    var a := PreAddUsed(m, name, size, owner, isNuma, perfLevel, true).0;
    var b := FinishAdd(a, name, done, true).0;
    assert b.used - {name} == m.used && b.records - {name} == m.records;
  }

  lemma MarkedDeleted(m: Manager, b: Manager, name: string)
    requires name in b.used && name in b.records && b == m.(used := b.used, records := b.records)
    requires b.used - {name} == m.used && b.records - {name} == m.records && PreDelete(b, name).1 == Marked
    ensures Delete(PreDelete(b, name).0, name) == (m, true)
  {
    var c := PreDelete(b, name).0;
    assert c.used == b.used && c.records - {name} == b.records - {name};
  }

  lemma BufferedNames(b: Manager, name: string)
    requires Good(b) && name in b.used && b.used[name].name == name && PreDelete(b, name).1 == Buffered
    ensures var (c, s) := (PreDelete(b, name).0, Buffer(b, b.used[name].isNuma));
      && c.used == b.used - {name} && Buffer(c, !b.used[name].isNuma) == Buffer(b, !b.used[name].isNuma)
      && c.records - {name} == b.records - {name}
      && Names(Buffer(c, b.used[name].isNuma)) == Names(s) + {name}
  {
    var x := b.used[name];
    var s := Buffer(b, x.isNuma);
    var y := x.(owner := x.owner.(pid := 0), size := FullSize(x.unitSize, |x.memIds|));
    Partition(b);
    assert Sorted(s);
    NamesOf(s);
    NamesOf(Inserted(s, y));
    hide Good, Sorted, Names;
    forall i | 0 <= i < |s|
      ensures s[i].name != name
    {
      assert s[i] in s;
    }
    InsertedSorted(s, y);
    hide Inserted;
  }

  /** Borrowed, finished, marked and deleted, a lease leaves no trace; buffered, it only moved to its buffer. */
  lemma BorrowReturn(m: Manager, name: string, size: u64, owner: Owner, isNuma: bool, perfLevel: nat, done: LeaseResult)
    requires Good(m) && |name| < NAME_SIZE && name !in m.records && owner.pid != 0 && done.memIds != []
    ensures var (a, added) := PreAddUsed(m, name, size, owner, isNuma, perfLevel, true);
      var (b, finished) := FinishAdd(a, name, done, true);
      var (c, o) := PreDelete(b, name);
      && added && finished && o != Refused
      && (o == Marked ==> Delete(c, name) == (m, true))
      && (o == Buffered ==> c.used == m.used && Names(Buffer(c, isNuma)) == Names(Buffer(m, isNuma)) + {name}
                            && Buffer(c, !isNuma) == Buffer(m, !isNuma) && c.records - {name} == m.records)
  {
    var a := PreAddUsed(m, name, size, owner, isNuma, perfLevel, true).0;
    var b := FinishAdd(a, name, done, true).0;
    var (c, o) := PreDelete(b, name);
    PreAddGood(m, name, size, owner, isNuma, perfLevel, true);
    FinishAddGood(a, name, done, true);
    PreDeleteGood(b, name);
    Partition(m);
    hide Complete;
    NewLease(m, name, size, owner, isNuma, perfLevel, done);
    hide Good, PreAddUsed, FinishAdd;
    if o == Buffered {
      BufferedNames(b, name);
    } else {
      MarkedDeleted(m, b, name);
    }
  }
}
