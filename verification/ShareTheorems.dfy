/** What every interleaving of map, unmap and delete requests keeps, and what recovery restores. */
module ShareTheorems {
  import opened Words
  import opened Catalog
  import opened StoreSpec
  import opened ShareSpec

  /** Everything known about one name. */
  datatype Known = Known(mem: Option<Attached>, record: Option<Item<Import>>, refs: map<i32, nat>)

  ghost function Of(s: Shm, n: string): Known {
    Known(if n in s.attached then Some(s.attached[n]) else None,
          if n in s.imports then Some(s.imports[n]) else None,
          if n in s.refs then s.refs[n] else map[])
  }

  /** The processes that hold a store reference on a name. */
  ghost function Holders(s: Shm, n: string): set<i32> { Of(s, n).refs.Keys }

  /** Each holder has one reference on a finished import, and the users of a name are its holders. */
  ghost predicate EntryOk(n: string, e: Known) {
    && (forall p :: p in e.refs ==> e.refs[p] == 1 && p != 0)
    && (e.refs != map[] ==> n != "" && |n| < NAME_SIZE && e.mem.Some? && e.record.Some?
                            && e.record.value.body.state != RecordState.PreAdd)
    && (e.mem.Some? ==> e.mem.value.pids == e.refs.Keys)
    && (e.mem.Some? && e.mem.value.state != RecordState.PreAdd ==> e.record.Some?)
  }

  /** Memory and record say the same, so every user is told what the store keeps. */
  ghost predicate Agree(e: Known) {
    e.mem.Some? && e.record.Some? ==>
      && e.mem.value.size == e.record.value.body.size
      && e.mem.value.state == e.record.value.body.state
      && e.mem.value.result == ResultOf(e.record.value)
  }

  ghost predicate NoEmpty(s: Shm) {
    forall n :: n in s.refs ==> s.refs[n] != map[]
  }

  ghost predicate Good(s: Shm) {
    NoEmpty(s) && forall n :: EntryOk(n, Of(s, n))
  }

  /** What the request working on a name may rely on. */
  ghost predicate TaskOk(e: Known, t: Task) {
    match t
    case MapJoin(p) => e.mem.Some? && e.mem.value.state == Finish && p !in e.mem.value.pids
    case MapAttach(_) => Fresh(e)
    case MapFull(_, _) => Fresh(e)
    case MapUser(_, result) =>
      && Fresh(e) && e.record.Some? && e.record.value.body.state == Finish
      && e.mem.value.size == e.record.value.body.size && ResultOf(e.record.value) == result
    case BackMark => e.refs == map[]
    case BackDetach => e.refs == map[]
    case UnmapCount(_, seen) => e.mem.Some? && e.mem.value.pids == seen
    case UnmapMark(_, seen) => e.mem.Some? && e.mem.value.pids == seen && |seen| <= 1
    case UnmapDetach(_, seen) => e.mem.Some? && e.mem.value.pids == seen && |seen| <= 1
    case UnmapRemove(p) => p !in e.refs && Started(e)
    case UnmapJoin(p) => p !in e.refs && Started(e)
    case DeleteEngine => e.refs == map[]
    case _ => true
  }

  ghost predicate Started(e: Known) {
    e.mem.Some? ==> e.mem.value.state != RecordState.PreAdd
  }

  ghost predicate Fresh(e: Known) {
    e.mem.Some? && e.mem.value.state == RecordState.PreAdd && e.refs == map[]
  }

  /** Memory and record agree, except between the two store operations that finish an import. */
  ghost predicate NameOk(n: string, e: Known, t: Option<Task>) {
    && EntryOk(n, e)
    && (t.Some? ==> TaskOk(e, t.value))
    && ((t.Some? && t.value.MapUser?) || Agree(e))
  }

  ghost function TaskOf(y: System, n: string): Option<Task> {
    if n in y.tasks then Some(y.tasks[n]) else None
  }

  ghost predicate SystemOk(y: System) {
    NoEmpty(y.shm) && forall n :: NameOk(n, Of(y.shm, n), TaskOf(y, n))
  }

  // ---- each operation touches one name

  ghost predicate Others(s: Shm, s': Shm, n: string) {
    forall m :: m != n ==> Of(s', m) == Of(s, m)
  }

  lemma CountedAt(refs: Counts, n: string, p: i32, count: nat, m: string)
    requires forall k :: k in refs ==> refs[k] != map[]
    ensures forall k :: k in Counted(refs, n, p, count) ==> Counted(refs, n, p, count)[k] != map[]
    ensures var before := if n in refs then refs[n] else map[];
      var now := if n in Counted(refs, n, p, count) then Counted(refs, n, p, count)[n] else map[];
      now == if count == 0 then before - {p} else before[p := count]
    ensures m != n ==> (m in Counted(refs, n, p, count) <==> m in refs)
    ensures m != n && m in refs ==> Counted(refs, n, p, count)[m] == refs[m]
  {
  }

  /** Adding a user keeps users and holders equal exactly when the process was none yet and the memory is not being added. */
  lemma AddUserOk(s: Shm, n: string, p: i32, room: bool)
    requires NoEmpty(s) && EntryOk(n, Of(s, n)) && Agree(Of(s, n))
    ensures var (s', ok) := AddUser(s, n, p, room);
      && NoEmpty(s') && Others(s, s', n) && Agree(Of(s', n))
      && (EntryOk(n, Of(s', n)) <==> (ok ==> p !in Holders(s, n) && Started(Of(s, n))))
      && Holders(s', n) == Holders(s, n) + if ok then {p} else {}
  {
    forall m
      ensures Of(AddUser(s, n, p, room).0, m) == Of(s, m) || m == n
    {
      CountedAt(s.refs, n, p, Count(s.refs, n, p) + 1, m);
    }
    CountedAt(s.refs, n, p, Count(s.refs, n, p) + 1, n);
    var (s', ok) := AddUser(s, n, p, room);
    if ok {
      assert p in Of(s', n).refs && Of(s', n).refs[p] == Count(s.refs, n, p) + 1;
    }
  }

  lemma RemoveUserOk(s: Shm, n: string, p: i32)
    requires NoEmpty(s) && EntryOk(n, Of(s, n)) && Agree(Of(s, n))
    ensures var (s', ok) := RemoveUser(s, n, p);
      && NoEmpty(s') && Others(s, s', n) && EntryOk(n, Of(s', n)) && Agree(Of(s', n))
      && (ok <==> p in Holders(s, n) && n in s.attached)
      && Holders(s', n) == Holders(s, n) - if ok then {p} else {}
  {
    forall m
      ensures Of(RemoveUser(s, n, p).0, m) == Of(s, m) || m == n
    {
      CountedAt(s.refs, n, p, 0, m);
    }
    CountedAt(s.refs, n, p, 0, n);
  }

  lemma PrepareOk(s: Shm, n: string, size: u64, p: i32, room: bool)
    requires NoEmpty(s) && EntryOk(n, Of(s, n)) && Agree(Of(s, n))
    ensures var (s', ok) := Prepare(s, n, size, p, room);
      && NoEmpty(s') && Others(s, s', n) && EntryOk(n, Of(s', n)) && Agree(Of(s', n))
      && (ok ==> Fresh(Of(s', n)))
  {
  }

  /** The first half of finishing an import stores exactly the result, or changes nothing. */
  lemma FullRecordOk(s: Shm, n: string, result: ImportResult, room: bool)
    requires NoEmpty(s) && EntryOk(n, Of(s, n)) && Agree(Of(s, n))
    ensures var (s', ok) := FullRecord(s, n, result, room);
      && NoEmpty(s') && Others(s, s', n) && EntryOk(n, Of(s', n))
      && (if ok then Of(s', n) == Of(s, n).(record := Of(s', n).record) && Recorded(Of(s', n), result) else s' == s)
      && (ok && Fresh(Of(s, n)) ==> forall p :: TaskOk(Of(s', n), MapUser(p, result)))
  {
  }

  ghost predicate Recorded(e: Known, result: ImportResult) {
    e.record.Some? && e.record.value.body.state == Finish && ResultOf(e.record.value) == result
  }

  lemma FullUserAt(s: Shm, n: string, p: i32, result: ImportResult, room: bool)
    requires NoEmpty(s) && n in s.attached
    ensures var (s', ok) := FullUser(s, n, p, result, room); var e := Of(s, n);
      && NoEmpty(s') && Others(s, s', n) && (ok ==> n in s.imports && Nameable(n, p))
      && Of(s', n) == if ok
         then Known(Some(Attached(s.attached[n].size, Finish, result, s.attached[n].pids + {p})), e.record,
                    e.refs[p := Count(s.refs, n, p) + 1])
         else e.(record := if e.refs == map[] then None else e.record)
  {
    forall m
      ensures Of(FullUser(s, n, p, result, room).0, m) == Of(s, m) || m == n
    {
      CountedAt(s.refs, n, p, Count(s.refs, n, p) + 1, m);
    }
    CountedAt(s.refs, n, p, Count(s.refs, n, p) + 1, n);
  }

  predicate Nameable(n: string, p: i32) { p != 0 && n != "" && |n| < NAME_SIZE }

  /**
    The second half adds the first holder, or takes the record away again. The entry stays
    consistent exactly when the process held nothing on a finished import, or when the memory was
    still being added or is held by others.
    */
  lemma FullUserOk(s: Shm, n: string, p: i32, result: ImportResult, room: bool)
    requires NoEmpty(s) && EntryOk(n, Of(s, n)) && n in s.attached
    ensures var (s', ok) := FullUser(s, n, p, result, room);
      && NoEmpty(s') && Others(s, s', n)
      && (EntryOk(n, Of(s', n)) <==>
          if ok then p !in Holders(s, n) && s.imports[n].body.state != RecordState.PreAdd
          else Holders(s, n) != {} || !Started(Of(s, n)))
      && Holders(s', n) == Holders(s, n) + (if ok then {p} else {})
      && (TaskOk(Of(s, n), MapUser(p, result)) ==> Agree(Of(s', n)))
  {
    FullUserAt(s, n, p, result, room);
    hide FullUser;
    var (s', ok) := FullUser(s, n, p, result, room);
    if ok {
      assert p in Of(s', n).refs && Of(s', n).refs[p] == Count(s.refs, n, p) + 1;
    } else {
      assert n in s.refs ==> s.refs[n].Keys != {};
    }
  }

  /** A state is set in both places together; it may be set back to "being added" only while nobody holds the memory. */
  lemma SetStateOk(s: Shm, n: string, state: RecordState)
    requires NoEmpty(s) && EntryOk(n, Of(s, n)) && Agree(Of(s, n))
    ensures var (s', ok) := SetState(s, n, state);
      && NoEmpty(s') && Others(s, s', n) && Agree(Of(s', n))
      && (EntryOk(n, Of(s', n)) <==> (ok && state == RecordState.PreAdd ==> Holders(s, n) == {}))
      && s'.refs == s.refs && (n in s'.attached <==> n in s.attached)
      && (ok <==> n in s.attached && n in s.imports) && (ok ==> s'.attached[n].state == state)
  {
    assert n in s.refs ==> s.refs[n].Keys != {};
  }

  /** Removal empties an entry exactly when nobody uses it, or when it is forced on a deleted memory. */
  lemma RemoveOk(s: Shm, n: string, force: bool)
    requires NoEmpty(s) && EntryOk(n, Of(s, n)) && Agree(Of(s, n))
    ensures var (s', ok) := Remove(s, n, force);
      && NoEmpty(s') && Others(s, s', n) && EntryOk(n, Of(s', n)) && Agree(Of(s', n))
      && (ok <==> n in s.attached && n in s.imports && (Holders(s, n) == {} || (force && s.attached[n].state == Deleted)))
      && (ok ==> Of(s', n) == Known(None, None, map[]))
      && (!ok && !(force && n in s.attached && s.attached[n].state == Deleted) ==> s' == s)
  {
    if n in s.attached {
      RemoveUnusedIs(s, n);
      RemoveUnusedIs(Forced(s, n), n);
      hide RemoveUnused;
    }
  }

  lemma RemoveUnusedIs(s: Shm, n: string)
    requires n in s.attached
    ensures RemoveUnused(s, n) ==
      if s.attached[n].pids == {} && n in s.imports && n !in s.refs
      then (s.(attached := s.attached - {n}, imports := s.imports - {n}), true) else (s, false)
  {
  }

  /** Dropping users of a consistent entry, in any order, is never refused and leaves the others. */
  lemma {:induction false} DroppedOk(s: Shm, n: string, order: seq<i32>)
    requires NoEmpty(s) && EntryOk(n, Of(s, n)) && Distinct(order) && forall p :: p in order ==> p in Holders(s, n)
    ensures var (t, ok) := Dropped(s, n, order);
      && ok && NoEmpty(t) && t == s.(refs := t.refs) && t.refs - {n} == s.refs - {n}
      && Of(t, n).refs == Of(s, n).refs - Elems(order)
  {
    if order != [] {
      var k := |order| - 1;
      var p := order[k];
      assert forall q :: q in order[..k] ==> q in order;
      DroppedOk(s, n, order[..k]);
      var t := Dropped(s, n, order[..k]).0;
      assert p in order && p !in order[..k] && p in Of(t, n).refs && Of(t, n).refs[p] == 1;
      DelRefAt(t, n, p);
      assert Elems(order) == Elems(order[..k]) + {p};
    }
  }

  lemma DelRefAt(t: Shm, n: string, p: i32)
    requires NoEmpty(t) && n in t.imports && Nameable(n, p) && p in Of(t, n).refs && Of(t, n).refs[p] == 1
    ensures var (u, ok) := Repo(t, DelRef(p, n), true);
      && ok && NoEmpty(u) && u == t.(refs := u.refs) && u.refs - {n} == t.refs - {n}
      && Of(u, n).refs == Of(t, n).refs - {p}
  {
    CountedAt(t.refs, n, p, 0, n);
    assert Counted(t.refs, n, p, 0) - {n} == t.refs - {n};
  }

  /** On a consistent entry the order does not matter: every recorded user loses its reference. */
  lemma RemoveInOk(s: Shm, n: string, force: bool, order: seq<i32>)
    requires NoEmpty(s) && EntryOk(n, Of(s, n)) && Distinct(order)
    requires n in s.attached ==> Elems(order) == s.attached[n].pids
    ensures RemoveIn(s, n, force, order) == Remove(s, n, force)
  {
    if n in s.attached && force && s.attached[n].state == Deleted {
      assert forall p :: p in order ==> p in Elems(order);
      DroppedOk(s, n, order);
      var t := Dropped(s, n, order).0;
      assert Of(t, n).refs == map[];
      assert t.refs == s.refs - {n};
    }
  }
}
