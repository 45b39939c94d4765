/**
  References from processes to imported shared memory: the persistent reference slots and the
  two in-memory indexes over them, import-first and process-first, that must mirror each other.
  */
module RefIndex {
  import opened Words
  import opened SlotTable

  datatype Ref = Ref(pid: u32, shmImportIndex: nat)
  type ByIndex = map<nat, map<i32, seq<nat>>>
  type ByPid = map<i32, map<nat, seq<nat>>>
  datatype Refs = Refs(table: Table<Ref>, byIndex: ByIndex, byPid: ByPid)

  predicate RefFree(r: Ref) { r.pid == 0 }
  function RefCleared(r: Ref): Ref { r.(pid := 0) }

  /** A signed process id stored in an unsigned field and read back. */
  function AsU32(p: i32): u32 { if p < 0 then p + 0x1_0000_0000 else p }
  function AsI32(u: u32): i32 { if u >= 0x8000_0000 then u - 0x1_0000_0000 else u }

  // ---- two-level indexes

  function Vec<K, L>(x: map<K, map<L, seq<nat>>>, k: K, l: L): seq<nat> {
    if k in x && l in x[k] then x[k][l] else []
  }

  function Push<K, L>(x: map<K, map<L, seq<nat>>>, k: K, l: L, s: nat): map<K, map<L, seq<nat>>> {
    x[k := (if k in x then x[k] else map[])[l := Vec(x, k, l) + [s]]]
  }

  /** Takes the last value stored under a key, dropping the key when nothing is left. */
  function EraseLastMultiValue<L>(m: map<L, seq<nat>>, l: L): (map<L, seq<nat>>, Option<nat>) {
    if l !in m then (m, None)
    else if m[l] == [] then (m - {l}, None)
    else
      var rest := m[l][..|m[l]| - 1];
      (if rest == [] then m - {l} else m[l := rest], Some(m[l][|m[l]| - 1]))
  }

  function PopLast<K, L>(x: map<K, map<L, seq<nat>>>, k: K, l: L): (map<K, map<L, seq<nat>>>, Option<nat>) {
    if k !in x then (x, None)
    else
      var (m, v) := EraseLastMultiValue(x[k], l);
      (if m == map[] then x - {k} else x[k := m], v)
  }

  function EraseAt(x: ByIndex, pid: i32, i: nat): ByIndex {
    var m := (if i in x then x[i] else map[]) - {pid};
    if m == map[] then x - {i} else x[i := m]
  }

  /** Removes process `pid` from the import-first index at each import of `order`. */
  function ErasePid(x: ByIndex, pid: i32, order: seq<nat>): ByIndex {
    if order == [] then x
    else EraseAt(ErasePid(x, pid, order[..|order| - 1]), pid, order[|order| - 1])
  }

  /** All slots stored under the keys of `order`, in that order. */
  function Collected(m: map<nat, seq<nat>>, order: seq<nat>): seq<nat> {
    if order == [] then []
    else
      var i := order[|order| - 1];
      Collected(m, order[..|order| - 1]) + (if i in m then m[i] else [])
  }

  // ---- operations

  function AddedRef(r: Refs, pid: i32, index: nat): (q: Refs)
    requires r.table.idle != [] && r.table.idle[|r.table.idle| - 1] < |r.table.recs|
  {
    var k := |r.table.idle| - 1;
    var s := r.table.idle[k];
    Refs(Table(r.table.recs[s := Ref(AsU32(pid), index)], r.table.idle[..k]),
         Push(r.byIndex, index, pid, s), Push(r.byPid, pid, index, s))
  }

  function ReleasedRef(t: Table<Ref>, s: nat): Table<Ref> {
    if s >= |t.recs| then t else Table(t.recs[s := RefCleared(t.recs[s])], t.idle + [s])
  }

  /** Pops both indexes; the slot popped from the process-first index wins, as in the source. */
  function DroppedRef(r: Refs, pid: i32, index: nat): (q: (Refs, bool)) {
    var (byIndex, v) := PopLast(r.byIndex, index, pid);
    var (byPid, w) := PopLast(r.byPid, pid, index);
    var record := if w.Some? then w else v;
    if record.None? then (Refs(r.table, byIndex, byPid), false)
    else (Refs(ReleasedRef(r.table, record.value), byIndex, byPid), true)
  }

  function ReleasedAll(t: Table<Ref>, slots: seq<nat>): Table<Ref> {
    if slots == [] then t else ReleasedRef(ReleasedAll(t, slots[..|slots| - 1]), slots[|slots| - 1])
  }

  /** `order` is the order in which the unordered map of the process is traversed. */
  function DroppedPid(r: Refs, pid: i32, order: seq<nat>): (q: Refs) {
    if pid !in r.byPid then r
    else Refs(ReleasedAll(r.table, Collected(r.byPid[pid], order)),
              ErasePid(r.byIndex, pid, order), r.byPid - {pid})
  }

  ghost predicate IsOrder(r: Refs, pid: i32, order: seq<nat>) {
    Distinct(order) && forall i :: i in order <==> pid in r.byPid && i in r.byPid[pid]
  }

  // ---- invariant

  ghost predicate NonEmpty<K, L>(x: map<K, map<L, seq<nat>>>) {
    && (forall k :: k in x ==> x[k] != map[])
    && (forall k, l :: k in x && l in x[k] ==> x[k][l] != [])
  }

  ghost predicate Mirror(x: ByIndex, y: ByPid) {
    forall i: nat, p: i32 :: Vec(x, i, p) == Vec(y, p, i)
  }

  /** The indexes hold exactly the slots of `done`, each once, under its own import and process. */
  ghost predicate Holds(recs: seq<Ref>, x: ByIndex, y: ByPid, done: set<nat>) {
    && NonEmpty(x) && NonEmpty(y) && Mirror(x, y)
    && (forall i: nat, p: i32 :: Distinct(Vec(x, i, p)))
    && (forall i: nat, p: i32, s {:trigger s in Vec(x, i, p)} :: s in Vec(x, i, p) ==> s in done && s < |recs| && recs[s] == Ref(AsU32(p), i))
    && (forall s {:trigger s in done} :: s in done ==>
          s < |recs| && recs[s].pid != 0 && s in Vec(x, recs[s].shmImportIndex, AsI32(recs[s].pid)))
  }

  ghost function LiveRefs(recs: seq<Ref>): set<nat> {
    set s | 0 <= s < |recs| && recs[s].pid != 0
  }

  ghost predicate RefsOk(r: Refs) {
    Exact(r.table, RefFree) && Holds(r.table.recs, r.byIndex, r.byPid, LiveRefs(r.table.recs))
  }

  // ---- facts about one index

  lemma PushVec<K, L>(x: map<K, map<L, seq<nat>>>, k: K, l: L, s: nat)
    requires NonEmpty(x)
    ensures NonEmpty(Push(x, k, l, s))
    ensures forall a, b :: Vec(Push(x, k, l, s), a, b) == if a == k && b == l then Vec(x, k, l) + [s] else Vec(x, a, b)
  {
    var y := Push(x, k, l, s);
    assert l in y[k];
    assert forall a :: a in y && a != k ==> a in x && y[a] == x[a];
  }

  lemma PopLastVec<K, L>(x: map<K, map<L, seq<nat>>>, k: K, l: L)
    requires NonEmpty(x)
    ensures var (y, v) := PopLast(x, k, l); var was := Vec(x, k, l);
      && NonEmpty(y)
      && v == (if was == [] then None else Some(was[|was| - 1]))
      && (forall a, b :: Vec(y, a, b) == if a == k && b == l && was != [] then was[..|was| - 1] else Vec(x, a, b))
  {
    if k in x {
      var m := EraseLastMultiValue(x[k], l).0;
      assert l !in x[k] ==> m == x[k];
      assert forall b :: b != l ==> (b in m <==> b in x[k]);
    }
  }

  lemma EraseAtVec(x: ByIndex, pid: i32, i: nat)
    requires NonEmpty(x)
    ensures NonEmpty(EraseAt(x, pid, i))
    ensures forall a: nat, p: i32 :: Vec(EraseAt(x, pid, i), a, p) == if p == pid && a == i then [] else Vec(x, a, p)
  {
    if i in x {
      var m := x[i] - {pid};
      assert forall p :: p != pid ==> (p in m <==> p in x[i]);
    }
  }

  lemma {:induction false} ErasePidVec(x: ByIndex, pid: i32, order: seq<nat>)
    requires NonEmpty(x)
    ensures NonEmpty(ErasePid(x, pid, order))
    ensures forall i: nat, p: i32 ::
      Vec(ErasePid(x, pid, order), i, p) == if p == pid && i in order then [] else Vec(x, i, p)
  {
    hide Vec, NonEmpty, EraseAt;
    if order != [] {
      var k := |order| - 1;
      ErasePidVec(x, pid, order[..k]);
      EraseAtVec(ErasePid(x, pid, order[..k]), pid, order[k]);
      assert order == order[..k] + [order[k]];
    }
  }

  // ---- each operation keeps both indexes equal and exact

  /** `y` is `x` with the slots under (k, l) replaced by `v`. */
  ghost predicate VecIs<K(!new), L(!new)>(x: map<K, map<L, seq<nat>>>, y: map<K, map<L, seq<nat>>>, k: K, l: L, v: seq<nat>) {
    NonEmpty(y) && forall a, b :: Vec(y, a, b) == if a == k && b == l then v else Vec(x, a, b)
  }

  /** Replacing the slots of one (import, process) pair in both indexes. */
  lemma UpdateHolds(recs: seq<Ref>, x: ByIndex, y: ByPid, done: set<nat>,
                    x': ByIndex, y': ByPid, done': set<nat>, i: nat, p: i32, v: seq<nat>)
    requires Holds(recs, x, y, done) && VecIs(x, x', i, p, v) && VecIs(y, y', p, i, v)
    requires Distinct(v)
    requires forall s {:trigger s in v} :: s in v ==> s in done' && s < |recs| && recs[s] == Ref(AsU32(p), i)
    requires forall s :: s in done' ==> s in v || (s in done && s !in Vec(x, i, p))
    requires forall s :: s in done && s !in Vec(x, i, p) ==> s in done'
    requires v != [] ==> p != 0
    ensures Holds(recs, x', y', done')
  {
    hide Vec, NonEmpty;
    forall a: nat, b: i32, s | s in Vec(x', a, b)
      ensures s in done' && s < |recs| && recs[s] == Ref(AsU32(b), a)
    {
      if !(a == i && b == p) {
        assert Vec(x', a, b) == Vec(x, a, b);
        assert s in Vec(x, a, b);
        assert s < |recs| && recs[s] == Ref(AsU32(b), a);
        assert AsI32(recs[s].pid) == b;
      }
    }
    forall s | s in done'
      ensures s < |recs| && recs[s].pid != 0 && s in Vec(x', recs[s].shmImportIndex, AsI32(recs[s].pid))
    {
      if s !in v {
        assert s in Vec(x, recs[s].shmImportIndex, AsI32(recs[s].pid));
      }
    }
  }

  /** Recording one more slot in both indexes. */
  lemma PushHolds(recs: seq<Ref>, x: ByIndex, y: ByPid, done: set<nat>, s: nat, p: i32, i: nat)
    requires Holds(recs, x, y, done) && s !in done && s < |recs|
    requires recs[s] == Ref(AsU32(p), i) && p != 0
    ensures Holds(recs, Push(x, i, p, s), Push(y, p, i, s), done + {s})
  {
    PushVec(x, i, p, s);
    PushVec(y, p, i, s);
    hide Vec, NonEmpty, Push;
    assert Vec(y, p, i) == Vec(x, i, p);
    DistinctPush(Vec(x, i, p), s);
    UpdateHolds(recs, x, y, done, Push(x, i, p, s), Push(y, p, i, s), done + {s}, i, p, Vec(x, i, p) + [s]);
  }

  /** Slots outside `done` may hold anything. */
  lemma HoldsFrame(recs: seq<Ref>, other: seq<Ref>, x: ByIndex, y: ByPid, done: set<nat>)
    requires Holds(recs, x, y, done) && |other| == |recs|
    requires forall s :: s in done ==> other[s] == recs[s]
    ensures Holds(other, x, y, done)
  {
    hide Vec, NonEmpty;
  }

  lemma AddedRefOk(r: Refs, pid: i32, index: nat)
    requires RefsOk(r) && r.table.idle != [] && pid != 0
    ensures r.table.idle[|r.table.idle| - 1] < |r.table.recs|
    ensures var q := AddedRef(r, pid, index);
      && RefsOk(q) && |q.table.recs| == |r.table.recs|
      && forall i: nat, p: i32 :: Vec(q.byIndex, i, p)
           == if i == index && p == pid then Vec(r.byIndex, i, p) + [r.table.idle[|r.table.idle| - 1]]
              else Vec(r.byIndex, i, p)
  {
    var k := |r.table.idle| - 1;
    var s, ref := r.table.idle[k], Ref(AsU32(pid), index);
    assert s in r.table.idle && !RefFree(ref);
    hide Vec, NonEmpty, Push, Holds;
    TakeKeepsExact(r.table, RefFree, ref);
    LiveWith(r.table.recs, s, ref);
    var recs, live := r.table.recs[s := ref], LiveRefs(r.table.recs);
    hide Exact, LiveRefs;
    HoldsFrame(r.table.recs, recs, r.byIndex, r.byPid, live);
    PushHolds(recs, r.byIndex, r.byPid, live, s, pid, index);
    PushVec(r.byIndex, index, pid, s);
  }

  lemma LiveWith(recs: seq<Ref>, s: nat, ref: Ref)
    requires s < |recs| && RefFree(recs[s]) && !RefFree(ref)
    ensures LiveRefs(recs[s := ref]) == LiveRefs(recs) + {s}
    ensures forall i :: i in LiveRefs(recs) ==> i != s && recs[s := ref][i] == recs[i]
  {
  }

  lemma PopHolds(recs: seq<Ref>, x: ByIndex, y: ByPid, done: set<nat>, p: i32, i: nat)
    requires Holds(recs, x, y, done)
    ensures var v := PopLast(x, i, p).1;
      && PopLast(y, p, i).1 == v
      && (v.Some? ==> v.value in done)
      && (v == None ==> Vec(x, i, p) == [])
      && Holds(recs, PopLast(x, i, p).0, PopLast(y, p, i).0, done - (if v.Some? then {v.value} else {}))
  {
    PopLastVec(x, i, p);
    PopLastVec(y, p, i);
    hide Vec, NonEmpty, PopLast;
    var was := Vec(x, i, p);
    assert Vec(y, p, i) == was;
    var v := PopLast(x, i, p).1;
    if was != [] {
      var k := |was| - 1;
      DistinctPop(was);
      UpdateHolds(recs, x, y, done, PopLast(x, i, p).0, PopLast(y, p, i).0, done - {was[k]}, i, p, was[..k]);
    } else {
      UpdateHolds(recs, x, y, done, PopLast(x, i, p).0, PopLast(y, p, i).0, done - {}, i, p, []);
    }
  }

  /** Both indexes give up the same slot and exactly that slot is freed; or there was none. */
  lemma DroppedRefOk(r: Refs, pid: i32, index: nat)
    requires RefsOk(r)
    ensures var (q, ok) := DroppedRef(r, pid, index); var was := Vec(r.byIndex, index, pid);
      && RefsOk(q) && |q.table.recs| == |r.table.recs|
      && (ok <==> was != [])
      && (ok ==> q.table.idle == r.table.idle + [was[|was| - 1]])
      && (!ok ==> q.table == r.table)
      && forall i: nat, p: i32 :: Vec(q.byIndex, i, p)
           == if ok && i == index && p == pid then was[..|was| - 1] else Vec(r.byIndex, i, p)
  {
    var live := LiveRefs(r.table.recs);
    PopHolds(r.table.recs, r.byIndex, r.byPid, live, pid, index);
    PopLastVec(r.byIndex, index, pid);
    var (q, ok) := DroppedRef(r, pid, index);
    hide Vec, NonEmpty, PopLast;
    if ok {
      var s := PopLast(r.byIndex, index, pid).1.value;
      GiveKeepsExact(r.table, RefFree, s, RefCleared(r.table.recs[s]));
      assert LiveRefs(q.table.recs) == live - {s};
      HoldsFrame(r.table.recs, q.table.recs, q.byIndex, q.byPid, live - {s});
    } else {
      assert live - {} == live;
    }
  }

  // ---- removing a whole process

  lemma {:induction false} CollectedExact(r: Refs, pid: i32, order: seq<nat>)
    requires RefsOk(r) && pid in r.byPid && Distinct(order)
    requires forall i :: i in order ==> i in r.byPid[pid]
    ensures var s := Collected(r.byPid[pid], order); var recs := r.table.recs;
      && Distinct(s)
      && (forall t {:trigger t in s} :: t in s <==>
            0 <= t < |recs| && recs[t].pid == AsU32(pid) != 0 && recs[t].shmImportIndex in order)
  {
    var recs := r.table.recs;
    if order != [] {
      var k := |order| - 1;
      var before := Collected(r.byPid[pid], order[..k]);
      var last := r.byPid[pid][order[k]];
      DistinctPop(order);
      CollectedExact(r, pid, order[..k]);
      assert last == Vec(r.byPid, pid, order[k]) == Vec(r.byIndex, order[k], pid);
      assert Collected(r.byPid[pid], order) == before + last;
      SlotsOfPair(r, order[k], pid);
      hide *;
      DistinctConcat(before, last);
      forall t ensures t in before + last <==>
        0 <= t < |recs| && recs[t].pid == AsU32(pid) != 0 && recs[t].shmImportIndex in order
      {
        assert t in before + last <==> t in before || t in last;
        assert 0 <= t < |recs| ==> recs[t] == Ref(recs[t].pid, recs[t].shmImportIndex);
      }
    }
  }

  lemma {:induction false} ReleasedAllExact(t: Table<Ref>, slots: seq<nat>)
    requires Exact(t, RefFree) && Distinct(slots)
    requires forall s :: s in slots ==> s < |t.recs| && t.recs[s].pid != 0
    ensures var u := ReleasedAll(t, slots);
      && Exact(u, RefFree) && u.idle == t.idle + slots && |u.recs| == |t.recs|
      && (forall s :: 0 <= s < |t.recs| ==> u.recs[s] == if s in slots then RefCleared(t.recs[s]) else t.recs[s])
  {
    if slots != [] {
      var k := |slots| - 1;
      DistinctPop(slots);
      ReleasedAllExact(t, slots[..k]);
      var u := ReleasedAll(t, slots[..k]);
      GiveKeepsExact(u, RefFree, slots[k], RefCleared(u.recs[slots[k]]));
      assert t.idle + slots == (t.idle + slots[..k]) + [slots[k]];
    }
  }

  /** Whatever the traversal order, exactly the references of the process disappear. */
  lemma DroppedPidOk(r: Refs, pid: i32, order: seq<nat>)
    requires RefsOk(r) && IsOrder(r, pid, order)
    ensures var q := DroppedPid(r, pid, order);
      && RefsOk(q) && |q.table.recs| == |r.table.recs|
      && (forall i: nat, p: i32 :: Vec(q.byIndex, i, p) == if p == pid then [] else Vec(r.byIndex, i, p))
  {
    var recs := r.table.recs;
    if pid in r.byPid {
      var q := DroppedPid(r, pid, order);
      var gone := Collected(r.byPid[pid], order);
      CollectedExact(r, pid, order);
      ReleasedAllExact(r.table, gone);
      ErasePidVec(r.byIndex, pid, order);
      forall i: nat, p: i32
        ensures Vec(q.byIndex, i, p) == if p == pid then [] else Vec(r.byIndex, i, p)
        ensures Vec(q.byPid, p, i) == if p == pid then [] else Vec(r.byPid, p, i)
      {
        assert p == pid && i !in order ==> Vec(r.byPid, p, i) == [];
      }
      assert NonEmpty(q.byPid);
      forall s | 0 <= s < |recs| && recs[s].pid != 0
        ensures s in gone <==> AsI32(recs[s].pid) == pid
      {
        assert s in LiveRefs(recs);
        assert s in Vec(r.byIndex, recs[s].shmImportIndex, AsI32(recs[s].pid));
        assert AsI32(recs[s].pid) == pid ==> Vec(r.byPid, pid, recs[s].shmImportIndex) != [];
      }
      ShrunkHolds(r, q, pid, gone);
    } else {
      forall i: nat ensures Vec(r.byIndex, i, pid) == [] {
        assert Vec(r.byPid, pid, i) == [];
      }
    }
  }

  lemma ShrunkHolds(r: Refs, q: Refs, pid: i32, gone: seq<nat>)
    requires RefsOk(r) && Exact(q.table, RefFree) && NonEmpty(q.byIndex) && NonEmpty(q.byPid)
    requires |q.table.recs| == |r.table.recs|
    requires forall s :: 0 <= s < |r.table.recs| ==>
      q.table.recs[s] == if s in gone then RefCleared(r.table.recs[s]) else r.table.recs[s]
    requires forall s {:trigger s in gone} :: 0 <= s < |r.table.recs| && r.table.recs[s].pid != 0 ==>
      (s in gone <==> AsI32(r.table.recs[s].pid) == pid)
    requires forall i: nat, p: i32 :: Vec(q.byIndex, i, p) == if p == pid then [] else Vec(r.byIndex, i, p)
    requires forall i: nat, p: i32 :: Vec(q.byPid, p, i) == if p == pid then [] else Vec(r.byPid, p, i)
    ensures RefsOk(q)
  {
    hide Vec, NonEmpty, Exact;
    var recs := r.table.recs;
    forall i: nat, p: i32, s | s in Vec(q.byIndex, i, p)
      ensures s in LiveRefs(q.table.recs) && s < |recs| && q.table.recs[s] == Ref(AsU32(p), i)
    {
      assert s in Vec(r.byIndex, i, p);
      assert AsI32(recs[s].pid) == p;
      assert s !in gone;
    }
    forall s | s in LiveRefs(q.table.recs)
      ensures s in Vec(q.byIndex, q.table.recs[s].shmImportIndex, AsI32(q.table.recs[s].pid))
    {
      assert s !in gone && s in LiveRefs(recs);
      assert AsI32(recs[s].pid) != pid;
    }
    assert Mirror(q.byIndex, q.byPid);
  }

  // ---- restart

  function RestoredIndexes(recs: seq<Ref>, live: seq<nat>): (ByIndex, ByPid)
    requires forall k :: 0 <= k < |live| ==> live[k] < |recs|
  {
    if live == [] then (map[], map[])
    else
      var (x, y) := RestoredIndexes(recs, live[..|live| - 1]);
      var s := live[|live| - 1];
      var p := AsI32(recs[s].pid);
      (Push(x, recs[s].shmImportIndex, p, s), Push(y, p, recs[s].shmImportIndex, s))
  }

  ghost function RestoredRefs(recs: seq<Ref>): (r: Refs) {
    SlotsExact(recs, RefFree, false, 0);
    var (x, y) := RestoredIndexes(recs, Slots(recs, RefFree, false, 0));
    Refs(Restored(recs, RefFree), x, y)
  }

  lemma {:induction false} RestoredIndexesHold(recs: seq<Ref>, live: seq<nat>)
    requires Distinct(live) && forall k :: 0 <= k < |live| ==> live[k] < |recs| && recs[live[k]].pid != 0
    ensures var (x, y) := RestoredIndexes(recs, live); Holds(recs, x, y, Elems(live))
  {
    if live != [] {
      var k := |live| - 1;
      var s := live[k];
      DistinctPop(live);
      RestoredIndexesHold(recs, live[..k]);
      var (x, y) := RestoredIndexes(recs, live[..k]);
      hide Holds;
      PushHolds(recs, x, y, Elems(live[..k]), s, AsI32(recs[s].pid), recs[s].shmImportIndex);
      assert Elems(live) == Elems(live[..k]) + {s};
    }
  }

  /** From any contents of the reference slots, restart builds two mirrored, exact indexes. */
  lemma RestoredRefsOk(recs: seq<Ref>)
    ensures RefsOk(RestoredRefs(recs)) && RestoredRefs(recs).table.recs == recs
  {
    var live := Slots(recs, RefFree, false, 0);
    SlotsExact(recs, RefFree, false, 0);
    RestoredIndexesHold(recs, live);
    assert Elems(live) == LiveRefs(recs);
  }

  /** The slots decide the indexes up to the order inside one (import, process) pair. */
  lemma SameSlotsSameRefs(r: Refs, q: Refs)
    requires RefsOk(r) && RefsOk(q) && r.table.recs == q.table.recs
    ensures forall i: nat, p: i32 :: multiset(Vec(r.byIndex, i, p)) == multiset(Vec(q.byIndex, i, p))
    ensures r.byIndex.Keys == q.byIndex.Keys && r.byPid.Keys == q.byPid.Keys
  {
    forall i: nat, p: i32
      ensures multiset(Vec(r.byIndex, i, p)) == multiset(Vec(q.byIndex, i, p))
    {
      SlotsOfPair(r, i, p);
      SlotsOfPair(q, i, p);
      DistinctMultiset(Vec(r.byIndex, i, p), Vec(q.byIndex, i, p));
    }
    KeysIncluded(r, q);
    KeysIncluded(q, r);
  }

  lemma SlotsOfPair(r: Refs, i: nat, p: i32)
    requires RefsOk(r)
    ensures forall s :: s in Vec(r.byIndex, i, p) <==>
      0 <= s < |r.table.recs| && r.table.recs[s] == Ref(AsU32(p), i) && p != 0
  {
    var recs := r.table.recs;
    forall s | 0 <= s < |recs| && recs[s] == Ref(AsU32(p), i) && p != 0
      ensures s in Vec(r.byIndex, i, p)
    {
      assert s in LiveRefs(recs) && AsI32(recs[s].pid) == p;
    }
  }

  lemma DistinctMultiset(a: seq<nat>, b: seq<nat>)
    requires Distinct(a) && Distinct(b) && forall s :: s in a <==> s in b
    ensures multiset(a) == multiset(b)
  {
    DistinctCounts(a);
    DistinctCounts(b);
  }

  lemma {:induction false} DistinctCounts(a: seq<nat>)
    requires Distinct(a)
    ensures forall s :: multiset(a)[s] == if s in a then 1 else 0
  {
    if a != [] {
      DistinctPop(a);
      DistinctCounts(a[..|a| - 1]);
      assert a == a[..|a| - 1] + [a[|a| - 1]];
    }
  }

  lemma KeysIncluded(r: Refs, q: Refs)
    requires RefsOk(r) && RefsOk(q) && r.table.recs == q.table.recs
    ensures r.byIndex.Keys <= q.byIndex.Keys && r.byPid.Keys <= q.byPid.Keys
  {
    forall i | i in r.byIndex
      ensures i in q.byIndex
    {
      var p :| p in r.byIndex[i];
      var s := Vec(r.byIndex, i, p)[0];
      assert s in Vec(r.byIndex, i, p);
      assert AsI32(r.table.recs[s].pid) == p;
      assert s in Vec(q.byIndex, i, p);
    }
    forall p | p in r.byPid
      ensures p in q.byPid
    {
      var i :| i in r.byPid[p];
      assert Vec(r.byPid, p, i) == Vec(r.byIndex, i, p);
      var s := Vec(r.byIndex, i, p)[0];
      assert s in Vec(r.byIndex, i, p);
      assert AsI32(r.table.recs[s].pid) == p;
      assert s in Vec(q.byIndex, i, p);
      assert Vec(q.byPid, p, i) != [];
    }
  }
}
