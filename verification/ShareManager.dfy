/** The shared-memory manager updating its map in place; every method is proved against ShareSpec. */
module ShareManager {
  import opened Words
  import opened Catalog
  import opened StoreSpec
  import opened ShareSpec
  import opened ShareTheorems
  import opened Engine

  class SHMManager {
    var attachedShareMemory: map<string, Attached>
    var imports: Imports
    var refs: Counts

    ghost function Abs(): (s: Shm)
      reads this
    {
      Shm(attachedShareMemory, imports, refs)
    }

    /** Starts on the records a previous life left behind, with nothing attached. */
    constructor (storedImports: Imports, storedRefs: Counts)
      ensures Abs() == Shm(map[], storedImports, storedRefs)
    {
      attachedShareMemory, imports, refs := map[], storedImports, storedRefs;
    }

    method CallRepo(op: Op, room: bool) returns (ok: bool)
      modifies this`imports, this`refs
      ensures (Abs(), ok) == Repo(old(Abs()), op, room)
    {
      var (v, done) := Attempt(View(map[], map[], imports, refs), op, room);
      imports, refs, ok := v.imports, v.refs, done;
    }

    method AddMemoryUserInfo(name: string, pid: i32, room: bool) returns (ok: bool)
      modifies this
      ensures (Abs(), ok) == AddUser(old(Abs()), name, pid, room)
    {
      if name !in attachedShareMemory {
        return false;
      }
      hide Legal, Effect;
      ok := CallRepo(AddRef(pid, name), room);
      if ok {
        var memory := attachedShareMemory[name];
        attachedShareMemory := attachedShareMemory[name := memory.(pids := memory.pids + {pid})];
      }
    }

    method RemoveMemoryUserInfo(name: string, pid: i32) returns (ok: bool)
      modifies this
      ensures (Abs(), ok) == RemoveUser(old(Abs()), name, pid)
    {
      if name !in attachedShareMemory || pid !in attachedShareMemory[name].pids {
        return false;
      }
      hide Legal, Effect;
      ok := CallRepo(DelRef(pid, name), true);
      if ok {
        var memory := attachedShareMemory[name];
        attachedShareMemory := attachedShareMemory[name := memory.(pids := memory.pids - {pid})];
      }
    }

    method PrepareAddShareMemoryInfo(name: string, size: u64, pid: i32, room: bool) returns (ok: bool)
      modifies this
      ensures (Abs(), ok) == Prepare(old(Abs()), name, size, pid, room)
    {
      if name in attachedShareMemory {
        return false;
      }
      hide Legal, Effect;
      ok := CallRepo(AddImport(name, size, pid), room);
      if ok {
        attachedShareMemory := attachedShareMemory[name := Attached(size, RecordState.PreAdd, NO_RESULT, {})];
      }
    }

    method AddFullShareMemoryInfo(name: string, pid: i32, result: ImportResult, room: bool, refRoom: bool) returns (ok: bool)
      modifies this
      ensures (Abs(), ok) == AddFull(old(Abs()), name, pid, result, room, refRoom)
    {
      if name !in attachedShareMemory {
        return false;
      }
      hide Legal, Effect;
      ok := CallRepo(AddImportResult(name, result), room);
      if !ok {
        return;
      }
      ok := CallRepo(AddRef(pid, name), refRoom);
      if !ok {
        var _ := CallRepo(DelImport(name), true);
        return;
      }
      var memory := attachedShareMemory[name];
      attachedShareMemory := attachedShareMemory[name := Attached(memory.size, Finish, result, memory.pids + {pid})];
    }

    method UpdateShareMemoryRecordState(name: string, state: RecordState) returns (ok: bool)
      modifies this
      ensures (Abs(), ok) == SetState(old(Abs()), name, state)
    {
      if name !in attachedShareMemory {
        return false;
      }
      hide Legal, Effect;
      ok := CallRepo(SetImportState(name, state), true);
      if ok {
        attachedShareMemory := attachedShareMemory[name := attachedShareMemory[name].(state := state)];
      }
    }

    /** Drops the references of the recorded users one by one, until the store refuses one. */
    method DropUsers(name: string) returns (ok: bool, ghost order: seq<i32>)
      requires name in attachedShareMemory
      modifies this`imports, this`refs
      ensures Distinct(order) && Elems(order) <= attachedShareMemory[name].pids
      ensures ok ==> Elems(order) == attachedShareMemory[name].pids
      ensures (Abs(), ok) == Dropped(old(Abs()), name, order)
    {
      order := [];
      var todo := attachedShareMemory[name].pids;
      hide Repo;
      while todo != {}
        invariant Distinct(order) && todo <= attachedShareMemory[name].pids
        invariant Elems(order) == attachedShareMemory[name].pids - todo
        invariant (Abs(), true) == Dropped(old(Abs()), name, order)
        decreases todo
      {
        var pid :| pid in todo;
        ghost var before := order;
        order := order + [pid];
        assert pid !in before by { assert pid !in Elems(before); }
        DistinctPush(before, pid);
        assert order[..|order| - 1] == before;
        assert Elems(order) == Elems(before) + {pid};
        ok := CallRepo(DelRef(pid, name), true);
        if !ok {
          return false, order;
        }
        todo := todo - {pid};
      }
      ok := true;
    }

    method RemoveMemoryInfo(name: string, force: bool) returns (ok: bool, ghost order: seq<i32>)
      modifies this
      ensures Distinct(order) && (Abs(), ok) == RemoveIn(old(Abs()), name, force, order)
      ensures Good(old(Abs())) ==> (Abs(), ok) == Remove(old(Abs()), name, force)
    {
      order := [];
      if name !in attachedShareMemory {
        return false, order;
      }
      hide Repo, Dropped, Good;
      if force && attachedShareMemory[name].state == Deleted {
        ghost var was := attachedShareMemory[name].pids;
        ok, order := DropUsers(name);
        RemovedInOrder(old(Abs()), name, force, order, was);
        if !ok {
          return false, order;
        }
        attachedShareMemory := attachedShareMemory[name := attachedShareMemory[name].(pids := {})];
      }
      if attachedShareMemory[name].pids != {} {
        return false, order;
      }
      ok := CallRepo(DelImport(name), true);
      if ok {
        attachedShareMemory := attachedShareMemory - {name};
      }
    }

    method GetMemoryUsersCountByName(name: string) returns (count: nat)
      ensures count == UserCount(Abs(), name)
    {
      count := if name in attachedShareMemory then |attachedShareMemory[name].pids| else 0;
    }

    /** Every process that uses some memory. */
    method GetAllUsers() returns (all: set<i32>)
      ensures forall p :: p in all <==> exists n :: n in attachedShareMemory && p in attachedShareMemory[n].pids
    {
      all := {};
      var todo := attachedShareMemory.Keys;
      while todo != {}
        invariant todo <= attachedShareMemory.Keys
        invariant forall p :: p in all <==> exists n :: n in attachedShareMemory && n !in todo && p in attachedShareMemory[n].pids
        decreases todo
      {
        var n :| n in todo;
        all := all + attachedShareMemory[n].pids;
        todo := todo - {n};
      }
    }

    /** The memories a process uses. */
    method GetMemoryUsersByPid(pid: i32) returns (found: map<string, Attached>)
      ensures forall n :: n in found <==> n in attachedShareMemory && pid in attachedShareMemory[n].pids
      ensures forall n :: n in found ==> found[n] == attachedShareMemory[n]
    {
      found := map[];
      var todo := attachedShareMemory.Keys;
      while todo != {}
        invariant todo <= attachedShareMemory.Keys
        invariant forall n :: n in found <==> n in attachedShareMemory && n !in todo && pid in attachedShareMemory[n].pids
        invariant forall n :: n in found ==> found[n] == attachedShareMemory[n]
        decreases todo
      {
        var n :| n in todo;
        if pid in attachedShareMemory[n].pids {
          found := found[n := attachedShareMemory[n]];
        }
        todo := todo - {n};
      }
    }

    /** Both passes; from an empty map this is ShareSpec.Recovered. */
    method Recovery(answers: string -> Answer) returns (ok: bool)
      modifies this
      ensures var s := Refilled(old(Abs()), answers);
        && (ok <==> NoneAttached(old(Abs())) && forall n :: n in s.refs ==> n in s.attached)
        && (ok ==> Abs() == WithoutUnused(WithUsers(s)))
      ensures old(attachedShareMemory) == map[] ==>
        Recovered(old(imports), old(refs), answers) == if ok then Some(Abs()) else None
    {
      ghost var before := Abs();
      RefilledEmpty(before, answers);
      ok := RecoverFromRecord(answers);
      if ok {
        hide Refilled, WithUsers, WithoutUnused;
        ok := RecoverFromRefRecord();
      }
    }

    /** The first pass of recovery: one entry for every record worth keeping; refused when a name has one already. */
    method RecoverFromRecord(answers: string -> Answer) returns (ok: bool)
      modifies this
      ensures ok <==> NoneAttached(old(Abs()))
      ensures ok ==> Abs() == Refilled(old(Abs()), answers)
    {
      ghost var before := Abs();
      var records := imports;
      var todo := records.Keys;
      FillStart(before, answers);
      hide Filling, FateOf;
      while todo != {}
        invariant todo <= records.Keys && refs == old(refs)
        invariant Filling(before, answers, todo, attachedShareMemory, imports)
        decreases todo
      {
        var n :| n in todo;
        FillAt(before, answers, todo, attachedShareMemory, imports, n);
        if n in attachedShareMemory {
          return false;
        }
        FillStep(before, answers, todo, attachedShareMemory, imports, n);
        RecoverRecord(n, records[n], answers(n));
        todo := todo - {n};
      }
      FillEnd(before, answers, attachedShareMemory, imports);
      ok := true;
    }

    method RecoverRecord(n: string, record: Item<Import>, a: Answer)
      requires n in imports && imports[n] == record && n !in attachedShareMemory
      modifies this`attachedShareMemory, this`imports
      ensures attachedShareMemory == EntryWith(old(attachedShareMemory), n, record, FateOf(record.body.state, a))
      ensures imports == RecordWith(old(imports), refs, n, record, FateOf(record.body.state, a))
    {
      var state := record.body.state;
      if state == RecordState.PreAdd {
        if GoneForAdd(a) {
          if n !in refs {
            imports := imports - {n};
          }
          return;
        }
      }
      if state == PreDel {
        if a == Failed {
          return;
        }
        state := if GoneForDelete(a) then Deleted else Finish;
        imports := imports[n := record.(body := record.body.(state := state))];
      }
      attachedShareMemory := attachedShareMemory[n := AttachedOf(record, state)];
    }

    /** The second pass: users from the references, then names without any user are dropped. */
    method RecoverFromRefRecord() returns (ok: bool)
      modifies this
      ensures ok <==> forall n :: n in old(refs) ==> n in old(attachedShareMemory)
      ensures ok ==> Abs() == WithoutUnused(WithUsers(old(Abs())))
    {
      ghost var goal := WithUsers(Abs());
      var todo := refs.Keys;
      while todo != {}
        invariant todo <= refs.Keys && attachedShareMemory.Keys == old(attachedShareMemory).Keys
        invariant imports == old(imports) && refs == old(refs)
        invariant forall n :: n in refs && n !in todo ==> n in attachedShareMemory
        invariant forall n :: n in attachedShareMemory ==>
          attachedShareMemory[n] == if n in todo then old(attachedShareMemory)[n] else goal.attached[n]
        decreases todo
      {
        var n :| n in todo;
        if n !in attachedShareMemory {
          return false;
        }
        var memory := attachedShareMemory[n];
        attachedShareMemory := attachedShareMemory[n := memory.(pids := memory.pids + refs[n].Keys)];
        todo := todo - {n};
      }
      assert attachedShareMemory == goal.attached;
      DropUnused();
      ok := true;
    }

    method DropUnused()
      modifies this`attachedShareMemory, this`imports
      ensures Abs() == WithoutUnused(old(Abs()))
    {
      var backup := attachedShareMemory;
      ghost var before, gone: set<string> := Abs(), {};
      var todo := backup.Keys;
      while todo != {}
        invariant todo <= backup.Keys
        invariant forall n :: n in gone <==> n in backup && n !in todo && Discarded(before, n)
        invariant attachedShareMemory == backup - gone && imports == before.imports - gone
        decreases todo
      {
        var n :| n in todo;
        if backup[n].state != RecordState.PreAdd && backup[n].pids == {} && n in imports && n !in refs {
          imports := imports - {n};
          attachedShareMemory := attachedShareMemory - {n};
          gone := gone + {n};
        }
        todo := todo - {n};
      }
      AllDropped(before, gone);
    }
  }

  /** No stored name has an entry yet. */
  ghost predicate NoneAttached(s: Shm) {
    forall n :: n in s.imports ==> n !in s.attached
  }

  /** The first pass on top of what is attached. */
  ghost function Refilled(s: Shm, answers: string -> Answer): Shm {
    var goal := FromRecords(s.imports, s.refs, answers);
    goal.(attached := s.attached + goal.attached)
  }

  lemma RefilledEmpty(s: Shm, answers: string -> Answer)
    ensures s.attached == map[] ==> Refilled(s, answers) == FromRecords(s.imports, s.refs, answers)
    ensures Refilled(s, answers).refs == s.refs
  {
    assert map[] + FromRecords(s.imports, s.refs, answers).attached == FromRecords(s.imports, s.refs, answers).attached;
  }

  ghost function EntryWith(attached: map<string, Attached>, n: string, record: Item<Import>, fate: Fate): map<string, Attached> {
    if fate.Keep? then attached[n := AttachedOf(record, fate.state)] else attached
  }

  ghost function RecordWith(imports: Imports, refs: Counts, n: string, record: Item<Import>, fate: Fate): Imports {
    match fate
    case Keep(state) => imports[n := record.(body := record.body.(state := state))]
    case Erase => if n in refs then imports else imports - {n}
    case Skip => imports
  }

  /** The first pass half done: the names still to do are as before, the others as the whole pass leaves them. */
  ghost predicate Filling(s: Shm, answers: string -> Answer, todo: set<string>, attached: map<string, Attached>, imports: Imports) {
    var goal := FromRecords(s.imports, s.refs, answers);
    && (forall n :: n in s.imports && n !in todo ==> n !in s.attached)
    && (forall n :: n in attached <==> n in s.attached || (n !in todo && n in goal.attached))
    && (forall n :: n in attached ==> attached[n] == if n in s.attached then s.attached[n] else goal.attached[n])
    && (forall n :: n in imports <==> if n in todo then n in s.imports else n in goal.imports)
    && (forall n :: n in imports ==> imports[n] == if n in todo then s.imports[n] else goal.imports[n])
  }

  lemma FillStart(s: Shm, answers: string -> Answer)
    ensures Filling(s, answers, s.imports.Keys, s.attached, s.imports)
  {
    hide FateOf;
  }

  lemma FillAt(s: Shm, answers: string -> Answer, todo: set<string>, attached: map<string, Attached>, imports: Imports, n: string)
    requires Filling(s, answers, todo, attached, imports) && n in todo && todo <= s.imports.Keys
    ensures n in imports && imports[n] == s.imports[n] && (n in attached <==> n in s.attached)
  {
    hide FromRecords;
  }

  lemma FillStep(s: Shm, answers: string -> Answer, todo: set<string>, attached: map<string, Attached>, imports: Imports, n: string)
    requires Filling(s, answers, todo, attached, imports) && n in todo && todo <= s.imports.Keys && n !in s.attached
    ensures var fate := FateOf(s.imports[n].body.state, answers(n));
      Filling(s, answers, todo - {n}, EntryWith(attached, n, s.imports[n], fate), RecordWith(imports, s.refs, n, s.imports[n], fate))
  {
    FromRecordsAt(s.imports, s.refs, answers, n);
    hide FromRecords, FateOf;
  }

  lemma FillEnd(s: Shm, answers: string -> Answer, attached: map<string, Attached>, imports: Imports)
    requires Filling(s, answers, {}, attached, imports)
    ensures NoneAttached(s) && Shm(attached, imports, s.refs) == Refilled(s, answers)
  {
    var goal := FromRecords(s.imports, s.refs, answers);
    assert goal.refs == s.refs && goal.attached.Keys <= s.imports.Keys;
    hide FromRecords;
    assert attached == s.attached + goal.attached && imports == goal.imports;
  }

  ghost function Marked(item: Item<Import>, fate: Fate): Item<Import> {
    if fate.Keep? then item.(body := item.body.(state := fate.state)) else item
  }

  lemma FromRecordsAt(imports: Imports, refs: Counts, answers: string -> Answer, n: string)
    requires n in imports
    ensures var goal, fate := FromRecords(imports, refs, answers), FateOf(imports[n].body.state, answers(n));
      && (n in goal.attached <==> fate.Keep?) && (fate.Keep? ==> goal.attached[n] == AttachedOf(imports[n], fate.state))
      && (n in goal.imports <==> !fate.Erase? || n in refs)
      && (n in goal.imports ==> goal.imports[n] == Marked(imports[n], fate))
  {
  }

  ghost predicate Discarded(s: Shm, n: string) {
    Unused(s, n) && n in s.imports && n !in s.refs
  }

  lemma AllDropped(s: Shm, gone: set<string>)
    requires forall n :: n in gone <==> Discarded(s, n)
    ensures WithoutUnused(s) == s.(attached := s.attached - gone, imports := s.imports - gone)
  {
    assert WithoutUnused(s).attached == s.attached - gone;
    assert WithoutUnused(s).imports == s.imports - gone;
  }

  lemma RemovedInOrder(s: Shm, n: string, force: bool, order: seq<i32>, pids: set<i32>)
    requires n in s.attached && s.attached[n].pids == pids && Distinct(order) && Elems(order) <= pids
    requires Dropped(s, n, order).1 ==> Elems(order) == pids
    ensures Good(s) ==> RemoveIn(s, n, force, order) == Remove(s, n, force)
  {
    if Good(s) {
      assert EntryOk(n, Of(s, n));
      assert forall p :: p in order ==> p in Elems(order);
      DroppedOk(s, n, order);
      RemoveInOk(s, n, force, order);
    }
  }
}
