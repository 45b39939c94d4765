/** What the lease manager keeps over every run: partition, agreement with the store, best-fit reuse. */
module LeaseTheorems {
  import opened Words
  import opened Catalog
  import opened StoreSpec
  import opened LeaseSpec

  // ---- changing one record

  ghost predicate SameBut(r: Leases, q: Leases, n: string) {
    forall x :: x != n ==> (x in q <==> x in r) && (x in q ==> q[x] == r[x])
  }

  lemma BufferFrame(s: seq<MemInfo>, isNuma: bool, r: Leases, q: Leases, n: string)
    requires BufferOk(s, isNuma, r) && SameBut(r, q, n) && n !in Names(s)
    ensures BufferOk(s, isNuma, q)
  {
    forall i | 0 <= i < |s|
      ensures Backed(s[i], q)
    {
      assert s[i].name in Names(s);
    }
  }

  /** A lease in use can change its record without disturbing the buffers. */
  lemma UsedChange(m: Manager, q: Leases, used: map<string, MemInfo>, n: string)
    requires Good(m) && SameBut(m.records, q, n) && used - {n} == m.used - {n}
    requires n in m.used || n !in m.records
    requires n in used ==> used[n].name == n && used[n].owner.pid != 0 && Backed(used[n], q)
    requires n in q ==> RecordOk(q[n])
    ensures Good(m.(records := q, used := used))
  {
    Partition(m);
    assert n !in Names(m.numa) && n !in Names(m.fd);
    BufferFrame(m.numa, true, m.records, q, n);
    BufferFrame(m.fd, false, m.records, q, n);
    UsedFrame(m.used, m.records, used, q, n);
  }

  lemma UsedFrame(used: map<string, MemInfo>, r: Leases, used': map<string, MemInfo>, q: Leases, n: string)
    requires UsedOk(used, r) && SameBut(r, q, n) && used' - {n} == used - {n}
    requires n in used' ==> used'[n].name == n && used'[n].owner.pid != 0 && Backed(used'[n], q)
    ensures UsedOk(used', q)
  {
    forall x | x in used' && x != n
      ensures x in used && used'[x] == used[x]
    {
      assert x in used' - {n};
    }
  }

  /** Two of the three parts lose or gain `n`; completeness follows the record. */
  lemma CompleteIs(m: Manager, q: Manager, n: string)
    requires Complete(m) && SameBut(m.records, q.records, n)
    requires q.used.Keys - {n} == m.used.Keys - {n}
    requires Names(q.numa) - {n} == Names(m.numa) - {n} && Names(q.fd) - {n} == Names(m.fd) - {n}
    requires n in q.records <==> n in q.used || n in Names(q.numa) || n in Names(q.fd)
    ensures Complete(q)
  {
    forall x
      ensures x in q.records <==> x in q.used || x in Names(q.numa) || x in Names(q.fd)
    {
      if x != n {
        assert x in q.used.Keys <==> x in m.used.Keys by {
          assert x in q.used.Keys - {n} <==> x in m.used.Keys - {n};
        }
        assert x in Names(q.numa) <==> x in Names(m.numa) by {
          assert x in Names(q.numa) - {n} <==> x in Names(m.numa) - {n};
        }
        assert x in Names(q.fd) <==> x in Names(m.fd) by {
          assert x in Names(q.fd) - {n} <==> x in Names(m.fd) - {n};
        }
        assert x in m.records.Keys <==> x in m.used.Keys + Names(m.numa) + Names(m.fd);
      }
    }
  }

  /** A lease added keeps the manager good exactly when it has an owning process; that is how leases in use are told from buffered ones. */
  lemma PreAddGood(m: Manager, name: string, size: u64, owner: Owner, isNuma: bool, perfLevel: nat, room: bool)
    requires Good(m)
    ensures var (q, ok) := PreAddUsed(m, name, size, owner, isNuma, perfLevel, room);
      && (Good(q) <==> !ok || owner.pid != 0) && (Complete(m) ==> Complete(q))
      && (ok <==> room && |name| < NAME_SIZE && name !in m.records)
      && (ok ==> name in q.used && name in q.records)
  {
    var (q, ok) := PreAddUsed(m, name, size, owner, isNuma, perfLevel, room);
    Partition(m);
    if ok {
      if owner.pid != 0 {
        UsedChange(m, q.records, q.used, name);
      } else {
        assert name in q.used && q.used[name].owner.pid == 0;
      }
      if Complete(m) {
        CompleteIs(m, q, name);
      }
    }
  }

  lemma UsedStepGood(m: Manager, q: Manager, name: string)
    requires Good(m) && name in m.used && SameBut(m.records, q.records, name)
    requires q == m.(records := q.records, used := q.used) && q.used - {name} == m.used - {name}
    requires name in q.used <==> name in q.records
    requires name in q.used ==> q.used[name].name == name && q.used[name].owner.pid != 0 && Backed(q.used[name], q.records)
    ensures Good(q) && (Complete(m) ==> Complete(q))
  {
    Partition(m);
    UsedChange(m, q.records, q.used, name);
    if Complete(m) {
      assert q.used.Keys - {name} == m.used.Keys - {name} by {
        assert (q.used - {name}).Keys == (m.used - {name}).Keys;
      }
      CompleteIs(m, q, name);
    }
  }

  lemma FinishAddGood(m: Manager, name: string, done: LeaseResult, room: bool)
    requires Good(m)
    ensures var (q, ok) := FinishAdd(m, name, done, room);
      && Good(q) && (Complete(m) ==> Complete(q))
      && (ok <==> room && name in m.used && done.memIds != [])
      && (ok ==> q.used[name].memIds == done.memIds && q.used[name].state == Finish)
  {
    var (q, ok) := FinishAdd(m, name, done, room);
    if ok {
      UsedStepGood(m, q, name);
    }
  }

  lemma DeleteGood(m: Manager, name: string)
    requires Good(m)
    ensures var (q, ok) := Delete(m, name);
      && Good(q) && (Complete(m) ==> Complete(q))
      && (ok <==> name in m.used) && name !in q.used && (ok ==> name !in q.records)
  {
    if name in m.used {
      UsedStepGood(m, Delete(m, name).0, name);
    }
  }

  lemma SetStateGood(m: Manager, name: string, state: RecordState)
    requires Good(m)
    ensures var (q, ok) := SetState(m, name, state);
      && Good(q) && (Complete(m) ==> Complete(q)) && (ok <==> name in m.used)
      && (ok ==> q.used[name].state == state == q.records[name].body.state)
  {
    if name in m.used {
      UsedStepGood(m, SetState(m, name, state).0, name);
    }
  }

  lemma NamesOf(s: seq<MemInfo>)
    ensures forall n :: n in Names(s) <==> exists x :: x in s && x.name == n
  {
    forall n | n in Names(s)
      ensures exists x :: x in s && x.name == n
    {
      var i :| 0 <= i < |s| && s[i].name == n;
      assert s[i] in s;
    }
  }

  /** Giving a lease back keeps every invariant; it is buffered exactly while its buffer has room. */
  lemma PreDeleteGood(m: Manager, name: string)
    requires Good(m)
    ensures var (q, o) := PreDelete(m, name);
      && Good(q) && (Complete(m) ==> Complete(q))
      && (o == Refused <==> name !in m.used)
      && (o == Buffered <==> name in m.used && m.enabled && |Buffer(m, m.used[name].isNuma)| < m.maxBuffered)
      && (o == Buffered ==> name !in q.used && name in Names(Buffer(q, m.used[name].isNuma)))
      && (o == Marked ==> q.used == m.used && q.records[name].body.state == PreDel)
  {
    if name in m.used {
      assert m.used[name].name == name && Backed(m.used[name], m.records);
      if m.enabled && |Buffer(m, m.used[name].isNuma)| < m.maxBuffered {
        BuffersIt(m, name);
        hide PreDelete, Good, Complete, Names, Backed;
      } else {
        UsedStepGood(m, PreDelete(m, name).0, name);
        hide Good, Complete, Names;
      }
    }
  }

  lemma BuffersIt(m: Manager, name: string)
    requires Good(m) && name in m.used && m.enabled && |Buffer(m, m.used[name].isNuma)| < m.maxBuffered
    ensures var (q, o) := PreDelete(m, name);
      && o == Buffered && Good(q) && (Complete(m) ==> Complete(q))
      && name !in q.used && name in Names(Buffer(q, m.used[name].isNuma))
  {
    var x := m.used[name];
    assert x.name == name && Backed(x, m.records);
    var y := x.(owner := x.owner.(pid := 0), size := FullSize(x.unitSize, |x.memIds|));
    hide Inserted, Sorted, FullSize;
    MoveToBuffer(m, y, Readdressed(m.records, name, y.owner, y.size));
    hide Good, Complete, Names;
  }

  /** A lease in use moves to the buffer of its kind, its record following. */
  lemma MoveToBuffer(m: Manager, y: MemInfo, r: Leases)
    requires Good(m) && y.name in m.used && SameBut(m.records, r, y.name) && Backed(y, r)
    requires y.owner.pid == 0 && y.size == FullSize(y.unitSize, |y.memIds|)
    ensures var q := WithBuffer(m, y.isNuma, Inserted(Buffer(m, y.isNuma), y)).(records := r, used := m.used - {y.name});
      Good(q) && (Complete(m) ==> Complete(q)) && y.name in Names(Buffer(q, y.isNuma))
  {
    var s, t := Buffer(m, y.isNuma), Inserted(Buffer(m, y.isNuma), y);
    var q := WithBuffer(m, y.isNuma, t).(records := r, used := m.used - {y.name});
    hide Inserted, Sorted, Names;
    Partition(m);
    BufferFrame(m.numa, true, m.records, r, y.name);
    BufferFrame(m.fd, false, m.records, r, y.name);
    UsedFrame(m.used, m.records, q.used, r, y.name);
    BufferInsert(s, y, y.isNuma, r);
    hide BufferOk, UsedOk;
    if Complete(m) {
      CompleteIs(m, q, y.name);
    }
  }

  /** A buffered lease moves to the leases in use, its record following. */
  lemma MoveToUsed(m: Manager, isNuma: bool, i: nat, x: MemInfo, r: Leases)
    requires Good(m) && i < |Buffer(m, isNuma)| && x.name == Buffer(m, isNuma)[i].name
    requires SameBut(m.records, r, x.name) && Backed(x, r)
    ensures var s := Buffer(m, isNuma);
      var q := WithBuffer(m, isNuma, s[..i] + s[i + 1..]).(records := r, used := m.used[x.name := x]);
      x.name !in m.used && (Good(q) <==> x.owner.pid != 0) && (Complete(m) ==> Complete(q)) && x.name !in Names(Buffer(q, isNuma))
  {
    var s := Buffer(m, isNuma);
    var t := s[..i] + s[i + 1..];
    var q := WithBuffer(m, isNuma, t).(records := r, used := m.used[x.name := x]);
    Partition(m);
    assert x.name in Names(s);
    Without(s, i);
    hide Names;
    BufferSubset(s, t, isNuma, m.records);
    BufferFrame(t, isNuma, m.records, r, x.name);
    BufferFrame(Buffer(m, !isNuma), !isNuma, m.records, r, x.name);
    if x.owner.pid != 0 {
      UsedFrame(m.used, m.records, q.used, r, x.name);
    } else {
      assert x.name in q.used && q.used[x.name].owner.pid == 0;
      assert !UsedOk(q.used, q.records);
    }
    hide BufferOk, UsedOk;
    if Complete(m) {
      CompleteIs(m, q, x.name);
    }
  }

  lemma Without(s: seq<MemInfo>, i: nat)
    requires i < |s| && Sorted(s) && forall j, k :: 0 <= j < k < |s| ==> s[j].name != s[k].name
    ensures var t := s[..i] + s[i + 1..];
      Sorted(t) && Names(t) == Names(s) - {s[i].name} && (forall x :: x in t ==> x in s)
  {
    var t := s[..i] + s[i + 1..];
    forall n | n in Names(s) && n != s[i].name
      ensures n in Names(t)
    {
      var k :| 0 <= k < |s| && s[k].name == n;
      assert t[if k < i then k else k - 1].name == n;
    }
  }

  lemma BufferSubset(s: seq<MemInfo>, t: seq<MemInfo>, isNuma: bool, records: Leases)
    requires BufferOk(s, isNuma, records) && Sorted(t) && forall x :: x in t ==> x in s
    ensures BufferOk(t, isNuma, records)
  {
    forall i | 0 <= i < |t|
      ensures t[i].isNuma == isNuma && t[i].owner.pid == 0 && Backed(t[i], records)
      ensures t[i].size == FullSize(t[i].unitSize, |t[i].memIds|)
    {
      assert t[i] in s;
    }
  }

  /** A buffer stays good when a backed, correctly sized entry with a new name joins it in order. */
  lemma BufferInsert(s: seq<MemInfo>, y: MemInfo, isNuma: bool, records: Leases)
    requires BufferOk(s, isNuma, records) && y.name !in Names(s)
    requires y.isNuma == isNuma && y.owner.pid == 0 && Backed(y, records) && y.size == FullSize(y.unitSize, |y.memIds|)
    ensures BufferOk(Inserted(s, y), isNuma, records) && Names(Inserted(s, y)) == Names(s) + {y.name}
  {
    var t := Inserted(s, y);
    assert forall i :: 0 <= i < |s| ==> s[i].name in Names(s);
    InsertedSorted(s, y);
    hide Inserted, Sorted;
    NamesOf(s);
    NamesOf(t);
    assert y in t;
    forall i | 0 <= i < |t|
      ensures t[i].isNuma == isNuma && t[i].owner.pid == 0 && Backed(t[i], records)
      ensures t[i].size == FullSize(t[i].unitSize, |t[i].memIds|)
    {
      assert t[i] in t;
    }
  }

  // ---- reuse

  /**
    Reuse succeeds on the store exactly when some buffered lease fits; the lease taken has the
    least (size, name) key among all that fit; and everything the manager keeps is kept exactly
    when the requester has a process id, whether or not the unit arithmetic accepts the request.
    */
  lemma ReuseBestFit(m: Manager, size: u64, isNuma: bool, slots: seq<u32>, owner: Owner)
    requires Good(m) && m.enabled
    ensures var (q, reply) := Reuse(m, size, isNuma, Some(slots), owner); var s := Buffer(m, isNuma);
      && (Good(q) <==> q == m || owner.pid != 0) && (Complete(m) ==> Complete(q))
      && (q == m <==> forall x :: x in s ==> !(x.size >= size && x.slotId in slots))
      && (q != m ==> exists x ::
            Fits(s, size, slots, x) && TakenFrom(m, q, isNuma, size, owner, x) && LeastFit(s, size, slots, x))
  {
    var s := Buffer(m, isNuma);
    var i := FirstFit(s, size, slots, 0);
    if i < |s| {
      ReuseMoves(m, size, isNuma, slots, owner);
      assert Sorted(s);
      hide Reuse, Good, Sorted, Before, Complete, FirstFit, TakenFrom, LeastFit;
      assert s[i] in s && Fits(s, size, slots, s[i]);
      FirstIsLeast(s, size, slots, i);
    } else {
      hide Good, Sorted, Before, Complete, Names;
    }
  }

  /** What reuse does when an entry fits. */
  lemma ReuseMoves(m: Manager, size: u64, isNuma: bool, slots: seq<u32>, owner: Owner)
    requires Good(m) && m.enabled && FirstFit(Buffer(m, isNuma), size, slots, 0) < |Buffer(m, isNuma)|
    ensures var q := Reuse(m, size, isNuma, Some(slots), owner).0; var s := Buffer(m, isNuma);
      && q != m && (Good(q) <==> owner.pid != 0) && (Complete(m) ==> Complete(q))
      && TakenFrom(m, q, isNuma, size, owner, s[FirstFit(s, size, slots, 0)])
  {
    var s := Buffer(m, isNuma);
    var x := s[FirstFit(s, size, slots, 0)];
    assert x.isNuma == isNuma && Backed(x, m.records);
    hide FirstFit, Sorted, Reuse, Names, Complete;
    var i, q := FirstFit(s, size, slots, 0), Reuse(m, size, isNuma, Some(slots), owner).0;
    TakingGood(m, isNuma, i, x.(owner := owner, size := size), Readdressed(m.records, x.name, owner, size));
    ReuseTakes(m, size, isNuma, slots, owner);
    hide Good, Backed;
    assert x.name in q.used;
  }

  lemma TakingGood(m: Manager, isNuma: bool, i: nat, info: MemInfo, r: Leases)
    requires Good(m) && i < |Buffer(m, isNuma)|
    requires info == Buffer(m, isNuma)[i].(owner := info.owner, size := info.size)
    requires info.name in m.records && r == Readdressed(m.records, info.name, info.owner, info.size)
    ensures var s := Buffer(m, isNuma);
      var q := WithBuffer(m, isNuma, s[..i] + s[i + 1..]).(records := r, used := m.used[info.name := info]);
      && info.name !in m.used && (Good(q) <==> info.owner.pid != 0) && (Complete(m) ==> Complete(q))
      && info.name !in Names(Buffer(q, isNuma)) && Buffer(q, !isNuma) == Buffer(m, !isNuma)
  {
    assert Backed(Buffer(m, isNuma)[i], m.records);
    MoveToUsed(m, isNuma, i, info, r);
    hide Good, Complete, Names, Backed;
  }

  ghost function Readdressed(records: Leases, n: string, owner: Owner, size: u64): Leases
    requires n in records
  {
    records[n := records[n].(body := records[n].body.(owner := owner, size := size))]
  }

  /** The state after reuse when an entry fits. */
  lemma ReuseTakes(m: Manager, size: u64, isNuma: bool, slots: seq<u32>, owner: Owner)
    requires m.enabled && FirstFit(Buffer(m, isNuma), size, slots, 0) < |Buffer(m, isNuma)|
    requires var x := Buffer(m, isNuma)[FirstFit(Buffer(m, isNuma), size, slots, 0)];
      x.name in m.records && x.isNuma == isNuma && x.name !in m.used
    ensures var s := Buffer(m, isNuma); var i := FirstFit(s, size, slots, 0); var x := s[i];
      Reuse(m, size, isNuma, Some(slots), owner).0 == WithBuffer(m, isNuma, s[..i] + s[i + 1..])
        .(records := Readdressed(m.records, x.name, owner, size), used := m.used[x.name := x.(owner := owner, size := size)])
  {
    hide FirstFit;
  }

  /** No entry that fits comes before `x`. */
  ghost predicate LeastFit(s: seq<MemInfo>, size: u64, slots: seq<u32>, x: MemInfo) {
    forall y :: Fits(s, size, slots, y) ==> y == x || Before(x, y)
  }

  lemma FirstIsLeast(s: seq<MemInfo>, size: u64, slots: seq<u32>, i: nat)
    requires Sorted(s) && i < |s|
    requires forall j :: 0 <= j < i ==> !(s[j].size >= size && s[j].slotId in slots)
    ensures LeastFit(s, size, slots, s[i])
  {
    forall y | Fits(s, size, slots, y)
      ensures y == s[i] || Before(s[i], y)
    {
      var j :| 0 <= j < |s| && s[j] == y;
      assert j >= i;
    }
  }

  ghost predicate Fits(s: seq<MemInfo>, size: u64, slots: seq<u32>, x: MemInfo) {
    x in s && x.size >= size && x.slotId in slots
  }

  /** `x` left its buffer and is in use by `owner` with the requested size. */
  ghost predicate TakenFrom(m: Manager, q: Manager, isNuma: bool, size: u64, owner: Owner, x: MemInfo) {
    && x.name !in m.used && q.used == m.used[x.name := x.(owner := owner, size := size)]
    && x.name !in Names(Buffer(q, isNuma)) && Buffer(q, !isNuma) == Buffer(m, !isNuma)
  }

  /** What the client computes for the number of units to map. */
  function ClientMapCount(size: u64, unitSize: u64): nat
    requires unitSize != 0
  {
    if size % unitSize == 0 then size / unitSize else size / unitSize + 1
  }

  lemma UnitCountIsClients(size: u64, unitSize: u64)
    requires UnitCount(size, unitSize).Some?
    ensures UnitCount(size, unitSize).value == ClientMapCount(size, unitSize)
  {
    var k := size / unitSize;
    var r := size % unitSize;
    assert size == k * unitSize + r;
    if r == 0 {
      assert (k * unitSize + (unitSize - 1)) / unitSize == k by { DivUnique(k, unitSize - 1, unitSize); }
    } else {
      assert size + unitSize - 1 == (k + 1) * unitSize + (r - 1);
      DivUnique(k + 1, r - 1, unitSize);
    }
  }

  lemma MulFacts(t: int, d: int)
    requires d > 0
    ensures t >= 1 ==> t * d >= d
    ensures t <= -1 ==> t * d <= -d
  {
  }

  lemma DivUnique(k: int, r: int, d: int)
    requires 0 <= r < d
    ensures (k * d + r) / d == k
  {
    var n := k * d + r;
    var q := n / d;
    assert (q - k) * d == r - n % d by {
      assert n == q * d + n % d;
    }
    MulFacts(q - k, d);
  }

  /**
    Never short: whenever reuse replies, the reply is a prefix of the lease's own ids with exactly
    the client's map count, never padded; the full list stays with the lease.
    */
  lemma ReuseNeverShort(m: Manager, size: u64, isNuma: bool, slots: Option<seq<u32>>, owner: Owner)
    requires Good(m) && Reuse(m, size, isNuma, slots, owner).1.Some?
    ensures var (q, reply) := Reuse(m, size, isNuma, slots, owner); var n := reply.value.name;
      && reply.value.unitSize != 0 && n in q.records
      && |reply.value.memIds| == ClientMapCount(size, reply.value.unitSize)
      && reply.value.memIds <= q.records[n].memIds == m.records[n].memIds
  {
    var s := Buffer(m, isNuma);
    var i := FirstFit(s, size, slots.value, 0);
    assert Backed(s[i], m.records);
    UnitCountIsClients(size, s[i].unitSize);
    CeilFits(size, s[i].unitSize, |s[i].memIds|);
  }

  lemma CeilFits(size: u64, unitSize: u64, count: nat)
    requires unitSize != 0 && size <= FullSize(unitSize, count)
    ensures ClientMapCount(size, unitSize) <= count
  {
    assert unitSize * count % WORD <= unitSize * count;
    var k := size / unitSize;
    assert size == k * unitSize + size % unitSize;
    MulFacts(k - count, unitSize);
    assert (k - count) * unitSize == k * unitSize - unitSize * count;
  }
}
