/**
  The shared-memory manager as a value: the attached memories with their user processes, next to
  the import records and reference counts of the store. Requests on a name run as sequences of
  atomic steps under the mutex of that name, and interleave freely with requests on other names.
  */
module ShareSpec {
  import opened Words
  import opened Catalog
  import opened StoreSpec
  import opened Engine

  type Imports = map<string, Item<Import>>

  datatype Attached = Attached(size: u64, state: RecordState, result: ImportResult, pids: set<i32>)

  datatype Shm = Shm(attached: map<string, Attached>, imports: Imports, refs: Counts)

  // ---- the manager's operations

  /** One repository call: the store operation, on imports and references. */
  function Repo(s: Shm, op: Op, room: bool): (r: (Shm, bool)) {
    var (v, ok) := Attempt(View(map[], map[], s.imports, s.refs), op, room);
    (s.(imports := v.imports, refs := v.refs), ok)
  }

  function AddUser(s: Shm, n: string, p: i32, room: bool): (r: (Shm, bool)) {
    if n !in s.attached then (s, false)
    else
      var (t, ok) := Repo(s, AddRef(p, n), room);
      if !ok then (s, false)
      else (t.(attached := t.attached[n := t.attached[n].(pids := t.attached[n].pids + {p})]), true)
  }

  function RemoveUser(s: Shm, n: string, p: i32): (r: (Shm, bool)) {
    if n !in s.attached || p !in s.attached[n].pids then (s, false)
    else
      var (t, ok) := Repo(s, DelRef(p, n), true);
      if !ok then (s, false)
      else (t.(attached := t.attached[n := t.attached[n].(pids := t.attached[n].pids - {p})]), true)
  }

  const NO_RESULT := ImportResult([], 0, 0, 0, 0, 0)

  function Prepare(s: Shm, n: string, size: u64, p: i32, room: bool): (r: (Shm, bool)) {
    if n in s.attached then (s, false)
    else
      var (t, ok) := Repo(s, AddImport(n, size, p), room);
      if !ok then (s, false)
      else (t.(attached := t.attached[n := Attached(size, RecordState.PreAdd, NO_RESULT, {})]), true)
  }

  /** The first store operation of adding the full information: the import becomes finished. */
  function FullRecord(s: Shm, n: string, result: ImportResult, room: bool): (r: (Shm, bool)) {
    if n !in s.attached then (s, false) else Repo(s, AddImportResult(n, result), room)
  }

  /** The second one: the first user. If it is refused the record goes, and the map entry stays. */
  function FullUser(s: Shm, n: string, p: i32, result: ImportResult, room: bool): (r: (Shm, bool))
    requires n in s.attached
  {
    var (t, ok) := Repo(s, AddRef(p, n), room);
    if !ok then (Repo(s, DelImport(n), true).0, false)
    else (t.(attached := t.attached[n := Attached(t.attached[n].size, Finish, result, t.attached[n].pids + {p})]), true)
  }

  function AddFull(s: Shm, n: string, p: i32, result: ImportResult, room: bool, refRoom: bool): (r: (Shm, bool)) {
    var (t, ok) := FullRecord(s, n, result, room);
    if !ok then (t, false) else FullUser(t, n, p, result, refRoom)
  }

  function SetState(s: Shm, n: string, state: RecordState): (r: (Shm, bool)) {
    if n !in s.attached then (s, false)
    else
      var (t, ok) := Repo(s, SetImportState(n, state), true);
      if !ok then (s, false) else (t.(attached := t.attached[n := t.attached[n].(state := state)]), true)
  }

  /** Every recorded user's reference dropped. */
  function Forced(s: Shm, n: string): Shm
    requires n in s.attached
  {
    s.(refs := s.refs - {n}, attached := s.attached[n := s.attached[n].(pids := {})])
  }

  function Remove(s: Shm, n: string, force: bool): (r: (Shm, bool)) {
    if n !in s.attached then (s, false)
    else RemoveUnused(if force && s.attached[n].state == Deleted then Forced(s, n) else s, n)
  }

  /** Takes an entry and its record away, unless somebody uses it. */
  function RemoveUnused(s: Shm, n: string): (r: (Shm, bool))
    requires n in s.attached
  {
    if s.attached[n].pids != {} then (s, false)
    else
      var (t, ok) := Repo(s, DelImport(n), true);
      if !ok then (s, false) else (t.(attached := t.attached - {n}), true)
  }

  /** References dropped one by one, up to the first the store refuses. */
  function Dropped(s: Shm, n: string, order: seq<i32>): (r: (Shm, bool))
    ensures r.0.attached == s.attached
  {
    if order == [] then (s, true)
    else
      var k := |order| - 1;
      var (t, ok) := Dropped(s, n, order[..k]);
      if !ok then (t, false) else Repo(t, DelRef(order[k], n), true)
  }

  /** Removal as it is carried out, for the order in which a forced one walks the users. */
  function RemoveIn(s: Shm, n: string, force: bool, order: seq<i32>): (r: (Shm, bool)) {
    if n !in s.attached then (s, false)
    else if force && s.attached[n].state == Deleted then
      var (t, ok) := Dropped(s, n, order);
      if !ok then (t, false)
      else RemoveUnused(t.(attached := t.attached[n := t.attached[n].(pids := {})]), n)
    else RemoveUnused(s, n)
  }

  function UserCount(s: Shm, n: string): nat {
    if n in s.attached then |s.attached[n].pids| else 0
  }

  // ---- recovery after a restart

  /** What the first pass does with a record, given the engine's answer about it. */
  function FateOf(state: RecordState, a: Answer): Fate {
    match state
    case PreAdd => if GoneForAdd(a) then Erase else Keep(RecordState.PreAdd)
    case PreDel =>
      if a == Failed then Skip else if GoneForDelete(a) then Keep(Deleted) else Keep(Finish)
    case Finish => Keep(Finish)
    case Deleted => Keep(Deleted)
  }

  function ResultOf(item: Item<Import>): ImportResult {
    ImportResult(item.memIds, item.body.unitSize, item.body.flag, item.body.oflag, item.body.owner.uid, item.body.owner.gid)
  }

  function AttachedOf(item: Item<Import>, state: RecordState): Attached {
    Attached(item.body.size, state, ResultOf(item), {})
  }

  /** The first pass, over the import records. */
  function FromRecords(imports: Imports, refs: Counts, answers: string -> Answer): Shm {
    Shm(map n | n in imports && FateOf(imports[n].body.state, answers(n)).Keep? ::
          AttachedOf(imports[n], FateOf(imports[n].body.state, answers(n)).state),
        map n | n in imports && !(FateOf(imports[n].body.state, answers(n)).Erase? && n !in refs) ::
          match FateOf(imports[n].body.state, answers(n))
          case Keep(state) => imports[n].(body := imports[n].body.(state := state))
          case _ => imports[n],
        refs)
  }

  /** Names whose last user left just before the crash. */
  predicate Unused(s: Shm, n: string) {
    n in s.attached && s.attached[n].state != RecordState.PreAdd && s.attached[n].pids == {}
  }

  function WithUsers(s: Shm): Shm {
    s.(attached := map n | n in s.attached ::
         s.attached[n].(pids := s.attached[n].pids + if n in s.refs then s.refs[n].Keys else {}))
  }

  function WithoutUnused(s: Shm): Shm {
    s.(attached := map n | n in s.attached && !(Unused(s, n) && n in s.imports && n !in s.refs) :: s.attached[n],
       imports := map n | n in s.imports && !(Unused(s, n) && n !in s.refs) :: s.imports[n])
  }

  /** Both passes; None when a referenced name has no entry after the first. */
  function Recovered(imports: Imports, refs: Counts, answers: string -> Answer): (r: Option<Shm>) {
    var s := FromRecords(imports, refs, answers);
    if exists n :: n in refs && n !in s.attached then None
    else Some(WithoutUnused(WithUsers(s)))
  }

  // ---- requests as steps

  /** What the request that holds the mutex of a name does next. */
  datatype Task =
    | MapLook(p: i32, size: u64)
    | MapJoin(p: i32)
    | MapForce(p: i32, size: u64)
    | MapEnter(p: i32, size: u64)
    | MapPrepare(p: i32, size: u64)
    | MapAttach(p: i32)
    | MapUndo
    | MapFull(p: i32, result: ImportResult)
    | MapUser(p: i32, result: ImportResult)
    | BackMark
    | BackDetach
    | BackRestore
    | BackRemove
    | UnmapLook(p: i32)
    | UnmapForce
    | UnmapCount(p: i32, seen: set<i32>)
    | UnmapDrop(p: i32)
    | UnmapMark(p: i32, seen: set<i32>)
    | UnmapDetach(p: i32, seen: set<i32>)
    | UnmapRestore
    | UnmapUser(p: i32)
    | UnmapRemove(p: i32)
    | UnmapJoin(p: i32)
    | DeleteCheck
    | DeleteCount
    | DeleteEngine

  /** What the engine and the fixed arrays answer to one step. */
  datatype Reply = Reply(ok: bool, room: bool, result: ImportResult)

  datatype System = System(shm: Shm, tasks: map<string, Task>)

  function If(done: (Shm, bool), yes: Option<Task>, no: Option<Task>): (Shm, Option<Task>) {
    (done.0, if done.1 then yes else no)
  }

  /** One atomic step of a request, and what it does next; None when it returns. */
  function Act(s: Shm, n: string, t: Task, r: Reply): (Shm, Option<Task>) {
    match t
    case MapLook(p, size) =>
      if n in s.attached && s.attached[n].state == Finish then
        (s, if p in s.attached[n].pids then None else Some(MapJoin(p)))
      else if n in s.attached && s.attached[n].state == Deleted then (s, Some(MapForce(p, size)))
      else (s, Some(MapEnter(p, size)))
    case MapJoin(p) => If(AddUser(s, n, p, r.room), None, None)
    case MapForce(p, size) => If(Remove(s, n, true), Some(MapEnter(p, size)), None)
    case MapEnter(p, size) => (s, if r.ok then Some(MapPrepare(p, size)) else None)
    case MapPrepare(p, size) => If(Prepare(s, n, size, p, r.room), Some(MapAttach(p)), None)
    case MapAttach(p) => (s, Some(if r.ok then MapFull(p, r.result) else MapUndo))
    case MapUndo => If(Remove(s, n, false), None, None)
    case MapFull(p, result) => If(FullRecord(s, n, result, r.room), Some(MapUser(p, result)), Some(BackMark))
    case MapUser(p, result) =>
      if n !in s.attached then (s, None) else If(FullUser(s, n, p, result, r.room), None, Some(BackMark))
    case BackMark => If(SetState(s, n, PreDel), Some(BackDetach), None)
    case BackDetach => (s, Some(if r.ok then BackRemove else BackRestore))
    case BackRestore => If(SetState(s, n, Finish), None, None)
    case BackRemove => If(Remove(s, n, false), None, None)
    case UnmapLook(p) =>
      if n !in s.attached then (s, None)
      else (s, Some(if s.attached[n].state == Deleted then UnmapForce else UnmapCount(p, s.attached[n].pids)))
    case UnmapForce => If(Remove(s, n, true), None, None)
    case UnmapCount(p, seen) => (s, Some(if UserCount(s, n) > 1 then UnmapDrop(p) else UnmapMark(p, seen)))
    case UnmapDrop(p) => If(RemoveUser(s, n, p), None, None)
    case UnmapMark(p, seen) => If(SetState(s, n, PreDel), Some(UnmapDetach(p, seen)), None)
    case UnmapDetach(p, _) => (s, Some(if r.ok then UnmapUser(p) else UnmapRestore))
    case UnmapRestore => If(SetState(s, n, Finish), None, None)
    case UnmapUser(p) => If(RemoveUser(s, n, p), Some(UnmapRemove(p)), None)
    case UnmapRemove(p) => If(Remove(s, n, false), None, Some(UnmapJoin(p)))
    case UnmapJoin(p) => If(AddUser(s, n, p, r.room), None, None)
    case DeleteCheck => (s, if r.ok then Some(DeleteCount) else None)
    case DeleteCount => (s, if UserCount(s, n) > 0 then None else Some(DeleteEngine))
    case DeleteEngine => (s, None)
  }

  datatype Event =
    | Begin(n: string, t: Task)
    | Advance(n: string, r: Reply)
    | Restart(answers: string -> Answer)

  predicate IsRequest(t: Task) { t.MapLook? || t.UnmapLook? || t.DeleteCheck? }

  /** A request takes the mutex of its name, makes a step, or everything restarts successfully. */
  predicate Enabled(y: System, e: Event) {
    match e
    case Begin(n, t) => n !in y.tasks && IsRequest(t)
    case Advance(n, _) => n in y.tasks
    case Restart(answers) => Recovered(y.shm.imports, y.shm.refs, answers).Some?
  }

  function Next(y: System, e: Event): System
    requires Enabled(y, e)
  {
    match e
    case Begin(n, t) => y.(tasks := y.tasks[n := t])
    case Advance(n, r) =>
      var (s, t) := Act(y.shm, n, y.tasks[n], r);
      System(s, if t == None then y.tasks - {n} else y.tasks[n := t.value])
    case Restart(answers) => System(Recovered(y.shm.imports, y.shm.refs, answers).value, map[])
  }

  predicate Possible(y: System, run: seq<Event>)
    decreases |run|
  {
    run == [] || (Enabled(y, run[0]) && Possible(Next(y, run[0]), run[1..]))
  }

  function After(y: System, run: seq<Event>): System
    requires Possible(y, run)
    decreases |run|
  {
    if run == [] then y else After(Next(y, run[0]), run[1..])
  }

  const START := System(Shm(map[], map[], map[]), map[])
}
