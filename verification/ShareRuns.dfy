/** The results over whole runs of the shared-memory requests. */
module ShareRuns {
  import opened Words
  import opened Catalog
  import opened StoreSpec
  import opened ShareSpec
  import opened ShareTheorems
  import opened Engine

  lemma MapOk(s: Shm, n: string, t: Task, r: Reply)
    requires NoEmpty(s) && NameOk(n, Of(s, n), Some(t))
    requires t.MapJoin? || t.MapForce? || t.MapPrepare? || t.MapUndo? || t.MapFull? || t.MapUser?
    ensures var (s', t') := Act(s, n, t, r);
      NoEmpty(s') && Others(s, s', n) && NameOk(n, Of(s', n), t')
  {
    hide AddUser, Prepare, FullRecord, FullUser, Remove;
    match t
    case MapJoin(p) => AddUserOk(s, n, p, r.room);
    case MapForce(_, _) => RemoveOk(s, n, true);
    case MapPrepare(p, size) => PrepareOk(s, n, size, p, r.room);
    case MapUndo => RemoveOk(s, n, false);
    case MapFull(_, result) => FullRecordOk(s, n, result, r.room);
    case MapUser(p, result) => FullUserOk(s, n, p, result, r.room);
  }

  lemma UnmapOk(s: Shm, n: string, t: Task, r: Reply)
    requires NoEmpty(s) && NameOk(n, Of(s, n), Some(t))
    requires t.UnmapForce? || t.UnmapDrop? || t.UnmapUser? || t.UnmapRemove? || t.UnmapJoin?
    ensures var (s', t') := Act(s, n, t, r);
      NoEmpty(s') && Others(s, s', n) && NameOk(n, Of(s', n), t')
  {
    hide AddUser, RemoveUser, Remove;
    match t
    case UnmapForce => RemoveOk(s, n, true);
    case UnmapDrop(p) => RemoveUserOk(s, n, p);
    case UnmapUser(p) => RemoveUserOk(s, n, p); StartedUser(s, n, p);
    case UnmapRemove(_) => RemoveOk(s, n, false);
    case UnmapJoin(p) => AddUserOk(s, n, p, r.room);
  }

  /** Dropping a user leaves the state of the memory alone, and a memory with users is not being added. */
  lemma StartedUser(s: Shm, n: string, p: i32)
    requires EntryOk(n, Of(s, n)) && Agree(Of(s, n))
    ensures RemoveUser(s, n, p).1 ==> Started(Of(RemoveUser(s, n, p).0, n))
  {
  }

  lemma MarkOk(s: Shm, n: string, t: Task, r: Reply)
    requires NoEmpty(s) && NameOk(n, Of(s, n), Some(t))
    requires t.BackMark? || t.BackRestore? || t.BackRemove? || t.UnmapMark? || t.UnmapRestore?
    ensures var (s', t') := Act(s, n, t, r);
      NoEmpty(s') && Others(s, s', n) && NameOk(n, Of(s', n), t')
  {
    hide SetState, Remove;
    match t
    case BackMark => SetStateOk(s, n, PreDel);
    case BackRestore => SetStateOk(s, n, Finish);
    case BackRemove => RemoveOk(s, n, false);
    case UnmapMark(_, _) => SetStateOk(s, n, PreDel);
    case UnmapRestore => SetStateOk(s, n, Finish);
  }

  /** Steps that only look, or only call the engine. */
  lemma LookOk(s: Shm, n: string, t: Task, r: Reply)
    requires NoEmpty(s) && NameOk(n, Of(s, n), Some(t))
    requires t.MapLook? || t.MapEnter? || t.MapAttach? || t.BackDetach? || t.UnmapLook? || t.UnmapCount?
      || t.UnmapDetach? || t.DeleteCheck? || t.DeleteCount? || t.DeleteEngine?
    ensures var (s', t') := Act(s, n, t, r);
      s' == s && NameOk(n, Of(s', n), t')
  {
  }

  lemma ActOk(s: Shm, n: string, t: Task, r: Reply)
    requires NoEmpty(s) && NameOk(n, Of(s, n), Some(t))
    ensures var (s', t') := Act(s, n, t, r);
      NoEmpty(s') && Others(s, s', n) && NameOk(n, Of(s', n), t')
  {
    hide Act, NameOk;
    if t.MapJoin? || t.MapForce? || t.MapPrepare? || t.MapUndo? || t.MapFull? || t.MapUser? {
      MapOk(s, n, t, r);
    } else if t.UnmapForce? || t.UnmapDrop? || t.UnmapUser? || t.UnmapRemove? || t.UnmapJoin? {
      UnmapOk(s, n, t, r);
    } else if t.BackMark? || t.BackRestore? || t.BackRemove? || t.UnmapMark? || t.UnmapRestore? {
      MarkOk(s, n, t, r);
    } else {
      LookOk(s, n, t, r);
    }
  }

  lemma NextOk(y: System, e: Event)
    requires SystemOk(y) && Enabled(y, e)
    ensures SystemOk(Next(y, e))
  {
    var y' := Next(y, e);
    match e
    case Begin(n, t) =>
      forall m
        ensures NameOk(m, Of(y'.shm, m), TaskOf(y', m))
      {
        assert NameOk(m, Of(y.shm, m), TaskOf(y, m));
      }
    case Advance(n, r) =>
      assert NameOk(n, Of(y.shm, n), TaskOf(y, n));
      ActOk(y.shm, n, y.tasks[n], r);
      hide Act, NameOk;
      forall m
        ensures NameOk(m, Of(y'.shm, m), TaskOf(y', m))
      {
        assert NameOk(m, Of(y.shm, m), TaskOf(y, m));
      }
    case Restart(answers) =>
      InvStoreOk(y);
      RestartOk(y.shm.imports, y.shm.refs, answers);
  }

  // ---- recovery

  ghost predicate HeldOk(n: string, held: map<i32, nat>) {
    held != map[] && n != "" && |n| < NAME_SIZE && forall p :: p in held ==> held[p] == 1 && p != 0
  }

  ghost predicate StoreOk(imports: Imports, refs: Counts) {
    forall n :: n in refs ==>
      n in imports && imports[n].body.state != RecordState.PreAdd && HeldOk(n, refs[n])
  }

  lemma InvStoreOk(y: System)
    requires SystemOk(y)
    ensures StoreOk(y.shm.imports, y.shm.refs)
  {
    forall n | n in y.shm.refs
      ensures NameOk(n, Of(y.shm, n), TaskOf(y, n))
    {
    }
  }

  /** What recovery makes of one name: kept with its references, or erased. */
  ghost function RecoveredAt(imports: Imports, refs: Counts, answers: string -> Answer, n: string): Known {
    var held := if n in refs then refs[n] else map[];
    if n !in imports then Known(None, None, held)
    else
      match FateOf(imports[n].body.state, answers(n))
      case Skip => Known(None, Some(imports[n]), held)
      case Erase => Known(None, None, held)
      case Keep(state) =>
        if state != RecordState.PreAdd && held == map[] then Known(None, None, held)
        else Known(Some(AttachedOf(imports[n], state).(pids := held.Keys)),
                   Some(imports[n].(body := imports[n].body.(state := state))), held)
  }

  /** Recovery fails exactly when a name in use was being removed and the engine does not answer about it. */
  lemma RecoveryExact(imports: Imports, refs: Counts, answers: string -> Answer)
    requires StoreOk(imports, refs)
    ensures var r := Recovered(imports, refs, answers);
      && (r.None? <==> exists n :: n in refs && imports[n].body.state == PreDel && answers(n) == Failed)
      && (r.Some? ==> NoEmpty(r.value) && forall n :: Of(r.value, n) == RecoveredAt(imports, refs, answers, n))
  {
    var s := FromRecords(imports, refs, answers);
    forall n | n in refs
      ensures n !in s.attached <==> imports[n].body.state == PreDel && answers(n) == Failed
    {
    }
    var r := Recovered(imports, refs, answers);
    if r.Some? {
      forall n
        ensures Of(r.value, n) == RecoveredAt(imports, refs, answers, n)
      {
        RecoveredName(imports, refs, answers, n);
      }
    }
  }

  lemma RecoveredName(imports: Imports, refs: Counts, answers: string -> Answer, n: string)
    requires StoreOk(imports, refs)
    ensures var s := WithoutUnused(WithUsers(FromRecords(imports, refs, answers)));
      Of(s, n) == RecoveredAt(imports, refs, answers, n) && s.refs == refs
  {
    var s := FromRecords(imports, refs, answers);
    var u := WithUsers(s);
    var held := if n in refs then refs[n] else map[];
    assert n in s.attached ==> u.attached[n].pids == held.Keys;
    assert held == map[] <==> held.Keys == {};
    assert n in s.attached ==> (Unused(u, n) <==> u.attached[n].state != RecordState.PreAdd && held == map[]);
  }

  lemma RecoveredAtOk(imports: Imports, refs: Counts, answers: string -> Answer, n: string)
    requires StoreOk(imports, refs)
    requires n in refs ==> !(imports[n].body.state == PreDel && answers(n) == Failed)
    ensures NameOk(n, RecoveredAt(imports, refs, answers, n), None)
  {
  }

  lemma RestartOk(imports: Imports, refs: Counts, answers: string -> Answer)
    requires StoreOk(imports, refs) && Recovered(imports, refs, answers).Some?
    ensures SystemOk(System(Recovered(imports, refs, answers).value, map[]))
  {
    RecoveryExact(imports, refs, answers);
    var y := System(Recovered(imports, refs, answers).value, map[]);
    hide Recovered, NameOk, RecoveredAt;
    forall n
      ensures NameOk(n, Of(y.shm, n), TaskOf(y, n))
    {
      RecoveredAtOk(imports, refs, answers, n);
      assert Of(y.shm, n) == RecoveredAt(imports, refs, answers, n);
    }
  }

  // ---- whole runs

  /** After any interleaving of requests and restarts, every name's users are its holders, one reference each. */
  lemma {:induction false} RunUsers(y: System, run: seq<Event>)
    requires SystemOk(y) && Possible(y, run)
    ensures SystemOk(After(y, run))
    ensures forall n :: UsersOk(After(y, run).shm, n)
    decreases |run|
  {
    if run != [] {
      NextOk(y, run[0]);
      RunUsers(Next(y, run[0]), run[1..]);
    } else {
      UsersAre(y);
    }
  }

  ghost predicate UsersOk(s: Shm, n: string) {
    && (n in s.attached ==> s.attached[n].pids == Holders(s, n))
    && (n in s.refs ==> n in s.attached && forall p :: p in s.refs[n] ==> s.refs[n][p] == 1)
  }

  lemma UsersAre(y: System)
    requires SystemOk(y)
    ensures forall n :: UsersOk(y.shm, n)
  {
    forall n
      ensures UsersOk(y.shm, n)
    {
      assert NameOk(n, Of(y.shm, n), TaskOf(y, n));
    }
  }

  lemma StartOk()
    ensures SystemOk(START)
  {
  }

  /** When the engine detaches for an unmap, nobody but the caller is left exactly when the caller was a user or there was none. */
  lemma DetachLast(y: System, n: string, p: i32, seen: set<i32>)
    requires SystemOk(y) && TaskOf(y, n) == Some(UnmapDetach(p, seen))
    ensures Holders(y.shm, n) == seen && |seen| <= 1
    ensures Holders(y.shm, n) <= {p} <==> (p in seen || seen == {})
  {
    assert NameOk(n, Of(y.shm, n), TaskOf(y, n));
    if p in seen {
      SmallSet(seen, p);
    }
  }

  lemma SmallSet(s: set<i32>, p: i32)
    requires |s| <= 1 && p in s
    ensures s == {p}
  {
    assert |s - {p}| == |s| - 1;
  }

  /** An engine delete, or the detach of a rolled-back map, happens only while nobody holds the name. */
  lemma NobodyHolds(y: System, n: string)
    requires SystemOk(y) && n in y.tasks && (y.tasks[n] == DeleteEngine || y.tasks[n] == BackDetach)
    ensures Holders(y.shm, n) == {}
  {
    assert NameOk(n, Of(y.shm, n), TaskOf(y, n));
  }

  /** A process joining a memory is told exactly what the store keeps about it. */
  lemma JoinReply(y: System, n: string, p: i32)
    requires SystemOk(y) && TaskOf(y, n) == Some(MapJoin(p))
    ensures n in y.shm.imports && p !in Holders(y.shm, n)
    ensures y.shm.attached[n].result == ResultOf(y.shm.imports[n]) && y.shm.attached[n].size == y.shm.imports[n].body.size
  {
    assert NameOk(n, Of(y.shm, n), TaskOf(y, n));
  }

  lemma OneStep(y: System, e: Event, rest: seq<Event>)
    requires Enabled(y, e) && Possible(Next(y, e), rest)
    ensures Possible(y, [e] + rest) && After(y, [e] + rest) == After(Next(y, e), rest)
  {
    assert ([e] + rest)[1..] == rest;
  }

  lemma FourSteps(y: System, a: Event, b: Event, c: Event, d: Event)
    requires Enabled(y, a) && Enabled(Next(y, a), b) && Enabled(Next(Next(y, a), b), c)
    requires Enabled(Next(Next(Next(y, a), b), c), d)
    ensures Possible(y, [a, b, c, d])
    ensures After(y, [a, b, c, d]) == Next(Next(Next(Next(y, a), b), c), d)
  {
    hide Next, Enabled;
    var y1 := Next(y, a);
    var y2 := Next(y1, b);
    var y3 := Next(y2, c);
    OneStep(y3, d, []);
    OneStep(y2, c, [d]);
    OneStep(y1, b, [c, d]);
    OneStep(y, a, [b, c, d]);
    assert [d] + [] == [d] && [c] + [d] == [c, d] && [b] + [c, d] == [b, c, d] && [a] + [b, c, d] == [a, b, c, d];
  }

  /** An unmap of a memory with one user, by anybody, reaches the detach with that user still holding it. */
  lemma ReachesDetach(y: System, n: string, p: i32, q: i32, r: Reply)
    requires SystemOk(y) && n !in y.tasks
    requires n in y.shm.attached && y.shm.attached[n].state == Finish && y.shm.attached[n].pids == {q}
    ensures var run := [Begin(n, UnmapLook(p)), Advance(n, r), Advance(n, r), Advance(n, r)];
      && Possible(y, run)
      && var z := After(y, run);
         TaskOf(z, n) == Some(UnmapDetach(p, {q})) && Holders(z.shm, n) == {q} && Marked(z.shm, n)
  {
    var first, step := Begin(n, UnmapLook(p)), Advance(n, r);
    assert NameOk(n, Of(y.shm, n), TaskOf(y, n));
    DetachSteps(y, n, p, q, r);
    hide Next, Enabled;
    FourSteps(y, first, step, step, step);
  }

  ghost predicate Marked(s: Shm, n: string) {
    n in s.imports && s.imports[n].body.state == PreDel
  }

  lemma DetachSteps(y: System, n: string, p: i32, q: i32, r: Reply)
    requires n !in y.tasks && n in y.shm.attached && n in y.shm.imports
    requires y.shm.attached[n].state == Finish && y.shm.attached[n].pids == {q}
    ensures var first, step := Begin(n, UnmapLook(p)), Advance(n, r);
      && Enabled(y, first) && Enabled(Next(y, first), step) && Enabled(Next(Next(y, first), step), step)
      && Enabled(Next(Next(Next(y, first), step), step), step)
      && var end := Next(Next(Next(Next(y, first), step), step), step);
         TaskOf(end, n) == Some(UnmapDetach(p, {q})) && end.shm.refs == y.shm.refs && Marked(end.shm, n)
  {
    var first, step := Begin(n, UnmapLook(p)), Advance(n, r);
    var y1 := Next(y, first);
    var y2 := Next(y1, step);
    assert y2 == System(y.shm, y1.tasks[n := UnmapCount(p, {q})]);
    var y3 := Next(y2, step);
    assert y3 == System(y.shm, y2.tasks[n := UnmapMark(p, {q})]);
    LastStep(y3, n, p, q, r);
  }

  lemma LastStep(y: System, n: string, p: i32, q: i32, r: Reply)
    requires TaskOf(y, n) == Some(UnmapMark(p, {q})) && n in y.shm.attached && n in y.shm.imports
    ensures var z := Next(y, Advance(n, r));
      TaskOf(z, n) == Some(UnmapDetach(p, {q})) && z.shm.refs == y.shm.refs && Marked(z.shm, n)
  {
  }
}
