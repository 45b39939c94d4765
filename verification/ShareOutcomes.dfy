/** What each call of the shared-memory manager and each recovery leaves of a name, field by field. */
module ShareOutcomes {
  import opened Words
  import opened Catalog
  import opened StoreSpec
  import opened ShareSpec
  import opened ShareTheorems
  import opened ShareRuns
  import opened Engine

  ghost predicate Nothing(e: Known) { e.mem == None && e.record == None && e.refs == map[] }

  /** Nothing but the state differs, and that is the same in both places. */
  ghost predicate InState(e: Known, f: Known, state: RecordState) {
    && f.refs == e.refs && e.mem.Some? && f.mem.Some? && e.record.Some? && f.record.Some?
    && f.mem.value.state == state && f.record.value.body.state == state
    && f.mem.value.size == e.mem.value.size && f.mem.value.result == e.mem.value.result && f.mem.value.pids == e.mem.value.pids
    && f.record.value.memIds == e.record.value.memIds && SameButState(e.record.value.body, f.record.value.body)
  }

  ghost predicate SameButState(a: Import, b: Import) {
    b.size == a.size && b.owner == a.owner && b.unitSize == a.unitSize && b.flag == a.flag && b.oflag == a.oflag
  }

  /** Users and references differ; nothing else does. */
  ghost predicate Users(e: Known, f: Known, pids: set<i32>) {
    && f.record == e.record && e.mem.Some? && f.mem.Some? && f.mem.value.pids == pids
    && f.mem.value.size == e.mem.value.size && f.mem.value.state == e.mem.value.state && f.mem.value.result == e.mem.value.result
  }

  ghost predicate RefOf(refs: map<i32, nat>, p: i32, count: nat) {
    if count == 0 then p !in refs else p in refs && refs[p] == count
  }

  ghost predicate OtherRefs(a: map<i32, nat>, b: map<i32, nat>, p: i32) {
    forall q :: q != p ==> (q in a <==> q in b) && (q in a ==> a[q] == b[q])
  }

  function RefCount(refs: map<i32, nat>, p: i32): nat { if p in refs then refs[p] else 0 }

  /** A call touches the references of no other name. */
  ghost predicate Apart(s: Shm, s': Shm, n: string) { NoEmpty(s') && Others(s, s', n) }

  // ---- single calls

  lemma AddUserSays(s: Shm, n: string, p: i32, room: bool)
    requires NoEmpty(s)
    ensures var (s', ok) := AddUser(s, n, p, room); var e, f := Of(s, n), Of(s', n);
      && (ok <==> room && e.mem.Some? && e.record.Some? && p != 0 && n != "" && |n| < 64)
      && Apart(s, s', n)
      && (if ok then Users(e, f, e.mem.value.pids + {p}) && OtherRefs(e.refs, f.refs, p) && RefOf(f.refs, p, RefCount(e.refs, p) + 1)
          else s' == s)
  {
    forall m
      ensures Of(AddUser(s, n, p, room).0, m) == Of(s, m) || m == n
    {
      CountedAt(s.refs, n, p, Count(s.refs, n, p) + 1, m);
    }
    CountedAt(s.refs, n, p, Count(s.refs, n, p) + 1, n);
    hide Counted;
  }

  lemma RemoveUserSays(s: Shm, n: string, p: i32)
    requires NoEmpty(s) && EntryOk(n, Of(s, n))
    ensures var (s', ok) := RemoveUser(s, n, p); var e, f := Of(s, n), Of(s', n);
      && (ok <==> e.mem.Some? && p in e.mem.value.pids)
      && Apart(s, s', n)
      && (if ok then Users(e, f, e.mem.value.pids - {p}) && OtherRefs(e.refs, f.refs, p) && p !in f.refs else s' == s)
  {
    forall m
      ensures Of(RemoveUser(s, n, p).0, m) == Of(s, m) || m == n
    {
      CountedAt(s.refs, n, p, 0, m);
    }
    CountedAt(s.refs, n, p, 0, n);
    hide Counted;
  }

  lemma PrepareSays(s: Shm, n: string, size: u64, p: i32, room: bool)
    requires NoEmpty(s) && EntryOk(n, Of(s, n))
    ensures var (s', ok) := Prepare(s, n, size, p, room); var e, f := Of(s, n), Of(s', n);
      && (ok <==> room && e.mem == None && e.record == None && |n| < 64)
      && Apart(s, s', n)
      && (if ok then Prepared(f, size, p, RecordState.PreAdd) else s' == s)
  {
  }

  /** Size and state in both places, and nothing else known yet. */
  ghost predicate Prepared(f: Known, size: u64, p: i32, state: RecordState) {
    && f.refs == map[] && f.mem.Some? && f.record.Some? && f.record.value.memIds == []
    && f.mem.value.size == size && f.mem.value.state == state && f.mem.value.pids == {} && Unknown(f.mem.value.result)
    && var b := f.record.value.body;
    && b.size == size && b.state == state && b.owner.pid == (if p >= 0 then p else p + 4294967296)
    && b.owner.uid == 0 && b.owner.gid == 0 && b.unitSize == 0 && b.flag == 0 && b.oflag == 0
  }

  predicate Unknown(r: ImportResult) {
    r.memIds == [] && r.unitSize == 0 && r.flag == 0 && r.oflag == 0 && r.uid == 0 && r.gid == 0
  }

  /** The record has the whole result. */
  ghost predicate HoldsResult(a: Item<Import>, b: Item<Import>, result: ImportResult) {
    && b.memIds == result.memIds && b.body.unitSize == result.unitSize && b.body.flag == result.flag
    && b.body.oflag == result.oflag && b.body.owner.uid == result.uid && b.body.owner.gid == result.gid
    && b.body.state == Finish && b.body.size == a.body.size && b.body.owner.pid == a.body.owner.pid
  }

  lemma FullRecordSays(s: Shm, n: string, result: ImportResult, room: bool)
    requires NoEmpty(s)
    ensures var (s', ok) := FullRecord(s, n, result, room); var e, f := Of(s, n), Of(s', n);
      && (ok <==> room && e.mem.Some? && e.record.Some? && |n| < 64 && result.memIds != [])
      && Apart(s, s', n)
      && (if ok then f.mem == e.mem && f.refs == e.refs && f.record.Some? && HoldsResult(e.record.value, f.record.value, result)
          else s' == s)
  {
  }

  lemma FullUserSays(s: Shm, n: string, p: i32, result: ImportResult, room: bool)
    requires NoEmpty(s) && n in s.attached
    ensures var (s', ok) := FullUser(s, n, p, result, room); var e, f := Of(s, n), Of(s', n);
      && (ok <==> room && e.record.Some? && p != 0 && n != "" && |n| < 64)
      && Apart(s, s', n)
      && (if ok then
            && f.record == e.record && f.mem.Some? && f.mem.value.size == e.mem.value.size && f.mem.value.state == Finish
            && f.mem.value.result == result && f.mem.value.pids == e.mem.value.pids + {p}
            && OtherRefs(e.refs, f.refs, p) && RefOf(f.refs, p, RefCount(e.refs, p) + 1)
          else f.mem == e.mem && f.refs == e.refs && f.record == if e.refs == map[] then None else e.record)
  {
    FullUserAt(s, n, p, result, room);
  }

  lemma SetStateSays(s: Shm, n: string, state: RecordState)
    requires NoEmpty(s)
    ensures var (s', ok) := SetState(s, n, state); var e, f := Of(s, n), Of(s', n);
      && (ok <==> e.mem.Some? && e.record.Some?)
      && Apart(s, s', n) && (if ok then InState(e, f, state) else s' == s)
  {
  }

  lemma RemoveSays(s: Shm, n: string, force: bool)
    requires NoEmpty(s) && EntryOk(n, Of(s, n)) && Agree(Of(s, n))
    ensures var (s', ok) := Remove(s, n, force); var e, f := Of(s, n), Of(s', n);
      && (ok <==> e.mem.Some? && e.record.Some? && (e.mem.value.pids == {} || (force && e.mem.value.state == Deleted)))
      && Apart(s, s', n)
      && (ok ==> Nothing(f)) && (!ok && !(force && e.mem.Some? && e.mem.value.state == Deleted) ==> s' == s)
  {
    RemoveOk(s, n, force);
    hide Remove;
  }

  // ---- recovery

  /** An entry made from its record, with its users and with one state in both places. */
  ghost predicate ComesBack(f: Known, item: Item<Import>, state: RecordState, users: set<i32>) {
    && f.mem.Some? && f.record.Some? && f.record.value.memIds == item.memIds
    && SameButState(item.body, f.record.value.body) && f.record.value.body.state == state
    && var m := f.mem.value;
    && m.size == item.body.size && m.state == state && m.pids == users
    && m.result.memIds == item.memIds && m.result.unitSize == item.body.unitSize && m.result.flag == item.body.flag
    && m.result.oflag == item.body.oflag && m.result.uid == item.body.owner.uid && m.result.gid == item.body.owner.gid
  }

  /**
    What a recovery that does not fail makes of a name. Half-added memory goes if and only if the
    engine knows nothing of it or is deleting it. Half-deleted memory ends as deleted if and only if
    the engine says it is gone or only waits for its export to end, else as finished. What nobody
    references goes, unless it is being added or the engine did not answer about it.
    */
  ghost predicate RecoverySays(item: Item<Import>, held: map<i32, nat>, a: Answer, f: Known) {
    && f.refs == held
    && match item.body.state
       case PreAdd => if a in {NoSuchMemory, At(NotExist), At(Deleting)} then Nothing(f) else ComesBack(f, item, RecordState.PreAdd, {})
       case PreDel =>
         if a == Failed then f.mem == None && f.record == Some(item)
         else if held == map[] then Nothing(f)
         else if a in {NoSuchMemory, At(NotExist), At(Deleting), At(WaitUnexport)} then ComesBack(f, item, Deleted, held.Keys)
         else ComesBack(f, item, Finish, held.Keys)
       case state => if held == map[] then Nothing(f) else ComesBack(f, item, state, held.Keys)
  }

  lemma RecoveredSays(imports: Imports, refs: Counts, answers: string -> Answer, n: string)
    requires StoreOk(imports, refs) && Recovered(imports, refs, answers).Some?
    ensures var f := Of(Recovered(imports, refs, answers).value, n);
      if n in imports then RecoverySays(imports[n], if n in refs then refs[n] else map[], answers(n), f) else Nothing(f)
  {
    RecoveryExact(imports, refs, answers);
    RecoveredAtSays(imports, refs, answers, n);
    hide Recovered, RecoveredAt, RecoverySays, StoreOk;
    assert Of(Recovered(imports, refs, answers).value, n) == RecoveredAt(imports, refs, answers, n);
  }

  lemma RecoveredAtSays(imports: Imports, refs: Counts, answers: string -> Answer, n: string)
    requires StoreOk(imports, refs)
    requires n in refs && imports[n].body.state == PreDel ==> answers(n) != Failed
    ensures var f := RecoveredAt(imports, refs, answers, n);
      if n in imports then RecoverySays(imports[n], if n in refs then refs[n] else map[], answers(n), f) else Nothing(f)
  {
    assert n in refs ==> HeldOk(n, refs[n]);
    hide HeldOk;
  }
}
