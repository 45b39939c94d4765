/** What a whole request of the shared-memory manager leaves of its name, whatever is answered to its steps. */
module ShareServed {
  import opened Words
  import opened StoreSpec
  import opened ShareSpec
  import opened ShareTheorems
  import opened ShareRuns
  import opened ShareRequests
  import opened ShareOutcomes

  /** The steps a request comes to, the calls to the engine among them. */
  ghost function Visited(s: Shm, n: string, t: Task, replies: Task -> Reply): set<Task>
    decreases Rank(t)
  {
    var (s', next) := Act(s, n, t, replies(t));
    RankFalls(s, n, t, replies(t));
    {t} + if next == None then {} else Visited(s', n, next.value, replies)
  }

  lemma Goes(s: Shm, n: string, t: Task, replies: Task -> Reply)
    ensures var (s', next) := Act(s, n, t, replies(t));
      if next == None then Served(s, n, t, replies) == s' && Visited(s, n, t, replies) == {t}
      else Served(s, n, t, replies) == Served(s', n, next.value, replies)
           && Visited(s, n, t, replies) == {t} + Visited(s', n, next.value, replies)
  {
    hide Act;
  }

  lemma ApartTwice(s: Shm, u: Shm, w: Shm, n: string)
    requires Apart(s, u, n) && Apart(u, w, n)
    ensures Apart(s, w, n)
  {
    hide Of;
  }

  ghost predicate Consistent(s: Shm, n: string) { NoEmpty(s) && EntryOk(n, Of(s, n)) && Agree(Of(s, n)) }

  /** Between requests every name of a reachable system is so. */
  lemma IdleConsistent(y: System, n: string)
    requires SystemOk(y) && n !in y.tasks
    ensures Consistent(y.shm, n)
  {
    assert NameOk(n, Of(y.shm, n), TaskOf(y, n));
  }

  lemma ApartSelf(s: Shm, n: string)
    requires NoEmpty(s)
    ensures Apart(s, s, n)
  {
  }

  /** Memory that is not being added has a record, and its users are the holders. */
  lemma EntryFacts(s: Shm, n: string)
    requires Consistent(s, n) && n in s.attached
    ensures s.attached[n].state != RecordState.PreAdd ==> n in s.imports
    ensures s.attached[n].pids == Holders(s, n)
    ensures n !in s.imports ==> s.attached[n].pids == {}
  {
  }

  // ---- unmap

  /** What an unmap leaves of its name. */
  ghost predicate UnmapSays(e: Known, f: Known, p: i32, detached: bool) {
    if e.mem == None then f == e
    else if e.mem.value.state == Deleted then Nothing(f)
    else if |e.mem.value.pids| > 1 then
      if p in e.mem.value.pids then Users(e, f, e.mem.value.pids - {p}) && OtherRefs(e.refs, f.refs, p) && p !in f.refs else f == e
    else if e.record == None then f == e
    else if !detached then InState(e, f, Finish)
    else if e.mem.value.pids == {p} then Nothing(f)
    else InState(e, f, PreDel)
  }

  lemma LeaveSteps(s: Shm, n: string, p: i32, seen: set<i32>, r: Reply)
    ensures Act(s, n, UnmapMark(p, seen), r) == If(SetState(s, n, PreDel), Some(UnmapDetach(p, seen)), None)
    ensures Act(s, n, UnmapDetach(p, seen), r) == (s, Some(if r.ok then UnmapUser(p) else UnmapRestore))
    ensures Act(s, n, UnmapRestore, r) == If(SetState(s, n, Finish), None, None)
    ensures Act(s, n, UnmapUser(p), r) == If(RemoveUser(s, n, p), Some(UnmapRemove(p)), None)
    ensures Act(s, n, UnmapRemove(p), r) == If(Remove(s, n, false), None, Some(UnmapJoin(p)))
  {
    hide SetState, RemoveUser, Remove;
  }

  /** From the point where an unmap has detached the memory. */
  lemma UnmapLeaves(s: Shm, n: string, p: i32, replies: Task -> Reply)
    requires Consistent(s, n) && n in s.attached && n in s.imports && |s.attached[n].pids| <= 1
    ensures var s' := Served(s, n, UnmapUser(p), replies);
      && Apart(s, s', n) && (if s.attached[n].pids == {p} then Nothing(Of(s', n)) else s' == s)
      && Visited(s, n, UnmapUser(p), replies) <= {UnmapUser(p), UnmapRemove(p)}
  {
    RemoveUserSays(s, n, p);
    RemoveUserOk(s, n, p);
    EntryFacts(s, n);
    ApartSelf(s, n);
    var (u, ok) := RemoveUser(s, n, p);
    if ok {
      SmallSet(s.attached[n].pids, p);
      assert Of(u, n).mem.value.pids == {};
      RemoveSays(u, n, false);
      ApartTwice(s, u, Remove(u, n, false).0, n);
    }
    hide Act, RemoveUser, Remove, Served, Visited, EntryOk, Agree, NoEmpty, Others, Apart;
    LeaveSteps(s, n, p, {}, replies(UnmapUser(p)));
    LeaveSteps(u, n, p, {}, replies(UnmapRemove(p)));
    Goes(s, n, UnmapUser(p), replies);
    Goes(u, n, UnmapRemove(p), replies);
  }

  /** Where an unmap goes once it marks the memory. */
  lemma MarkPath(s: Shm, n: string, p: i32, seen: set<i32>, replies: Task -> Reply)
    requires n in s.attached && |seen| <= 1
    ensures var t, detach := UnmapMark(p, seen), UnmapDetach(p, seen); var (u, ok) := SetState(s, n, PreDel);
      && Served(s, n, t, replies) ==
         (if !ok then u else if replies(detach).ok then Served(u, n, UnmapUser(p), replies) else SetState(u, n, Finish).0)
      && Visited(s, n, t, replies) == {t} +
         if !ok then {} else {detach} + if replies(detach).ok then Visited(u, n, UnmapUser(p), replies) else {UnmapRestore}
  {
    hide Act, SetState, RemoveUser, Remove, Served, Visited;
    var t, detach := UnmapMark(p, seen), UnmapDetach(p, seen);
    var u := SetState(s, n, PreDel).0;
    LeaveSteps(s, n, p, seen, replies(t));
    LeaveSteps(u, n, p, seen, replies(detach));
    LeaveSteps(u, n, p, seen, replies(UnmapRestore));
    Goes(s, n, t, replies);
    Goes(u, n, detach, replies);
    Goes(u, n, UnmapRestore, replies);
  }

  /** From the point where an unmap marks the memory. */
  lemma UnmapMarks(s: Shm, n: string, p: i32, replies: Task -> Reply)
    requires Consistent(s, n) && n in s.attached && s.attached[n].state != Deleted && |s.attached[n].pids| <= 1
    ensures var seen := s.attached[n].pids; var t := UnmapMark(p, seen); var s' := Served(s, n, t, replies);
      && Apart(s, s', n) && UnmapSays(Of(s, n), Of(s', n), p, replies(UnmapDetach(p, seen)).ok)
  {
    hide Act, Served, Visited, RemoveUser, Remove, SetState, EntryOk, Agree, NoEmpty, Others;
    var seen := s.attached[n].pids;
    var u := SetState(s, n, PreDel).0;
    MarkPath(s, n, p, seen, replies);
    SetStateOk(s, n, PreDel);
    SetStateSays(s, n, PreDel);
    ApartSelf(s, n);
    if n in s.imports {
      if replies(UnmapDetach(p, seen)).ok {
        UnmapLeaves(u, n, p, replies);
        ApartTwice(s, u, Served(u, n, UnmapUser(p), replies), n);
      } else {
        SetStateSays(u, n, Finish);
        ApartTwice(s, u, SetState(u, n, Finish).0, n);
      }
    }
  }

  lemma UnmapSteps(s: Shm, n: string, p: i32, seen: set<i32>, r: Reply)
    ensures Act(s, n, UnmapLook(p), r) ==
      (s, if n !in s.attached then None
          else Some(if s.attached[n].state == Deleted then UnmapForce else UnmapCount(p, s.attached[n].pids)))
    ensures Act(s, n, UnmapForce, r) == If(Remove(s, n, true), None, None)
    ensures n in s.attached ==>
      Act(s, n, UnmapCount(p, seen), r) == (s, Some(if |s.attached[n].pids| > 1 then UnmapDrop(p) else UnmapMark(p, seen)))
    ensures Act(s, n, UnmapDrop(p), r) == If(RemoveUser(s, n, p), None, None)
  {
    hide RemoveUser, Remove;
  }

  /** Where an unmap goes. */
  lemma UnmapPath(s: Shm, n: string, p: i32, replies: Task -> Reply)
    ensures var t, s', seen := UnmapLook(p), Served(s, n, UnmapLook(p), replies), Visited(s, n, UnmapLook(p), replies);
      if n !in s.attached then s' == s && seen == {t}
      else if s.attached[n].state == Deleted then s' == Remove(s, n, true).0 && seen == {t, UnmapForce}
      else
        var pids := s.attached[n].pids;
        if |pids| > 1 then s' == RemoveUser(s, n, p).0 && seen == {t, UnmapCount(p, pids), UnmapDrop(p)}
        else s' == Served(s, n, UnmapMark(p, pids), replies) && seen == {t, UnmapCount(p, pids)} + Visited(s, n, UnmapMark(p, pids), replies)
  {
    hide Act, RemoveUser, Remove, Served, Visited;
    Goes(s, n, UnmapLook(p), replies);
    UnmapSteps(s, n, p, {}, replies(UnmapLook(p)));
    if n in s.attached {
      var seen := s.attached[n].pids;
      Goes(s, n, UnmapForce, replies);
      UnmapSteps(s, n, p, {}, replies(UnmapForce));
      Goes(s, n, UnmapCount(p, seen), replies);
      UnmapSteps(s, n, p, seen, replies(UnmapCount(p, seen)));
      Goes(s, n, UnmapDrop(p), replies);
      UnmapSteps(s, n, p, {}, replies(UnmapDrop(p)));
    }
  }

  /** An unmap, by anybody and whatever is answered: what it leaves of its name and of all others. */
  lemma UnmapServed(s: Shm, n: string, p: i32, replies: Task -> Reply)
    requires Consistent(s, n)
    ensures var e, s' := Of(s, n), Served(s, n, UnmapLook(p), replies);
      && Apart(s, s', n)
      && UnmapSays(e, Of(s', n), p, e.mem.Some? && replies(UnmapDetach(p, e.mem.value.pids)).ok)
  {
    hide Act, RemoveUser, Remove, Served, Visited, EntryOk, Agree, NoEmpty, Others;
    UnmapPath(s, n, p, replies);
    ApartSelf(s, n);
    if n in s.attached {
      EntryFacts(s, n);
      if s.attached[n].state == Deleted {
        RemoveSays(s, n, true);
      } else if |s.attached[n].pids| > 1 {
        RemoveUserSays(s, n, p);
      } else {
        UnmapMarks(s, n, p, replies);
      }
    }
  }

  /** Exactly when an unmap has the engine detach the memory: nobody else is left, and it has a record. */
  lemma UnmapDetachesIff(s: Shm, n: string, p: i32, seen: set<i32>, replies: Task -> Reply)
    requires Consistent(s, n)
    ensures UnmapDetach(p, seen) in Visited(s, n, UnmapLook(p), replies) <==>
      n in s.attached && s.attached[n].state != Deleted && |s.attached[n].pids| <= 1 && n in s.imports && seen == s.attached[n].pids
  {
    hide Act, RemoveUser, Remove, SetState, Served, Visited, EntryOk, Agree, NoEmpty, Others;
    UnmapPath(s, n, p, replies);
    if n in s.attached && s.attached[n].state != Deleted && |s.attached[n].pids| <= 1 {
      var pids := s.attached[n].pids;
      MarkPath(s, n, p, pids, replies);
      SetStateSays(s, n, PreDel);
      SetStateOk(s, n, PreDel);
      var u := SetState(s, n, PreDel).0;
      if n in s.imports {
        UnmapLeaves(u, n, p, replies);
      }
    }
  }

  // ---- map

  lemma BackSteps(s: Shm, n: string, r: Reply)
    ensures Act(s, n, BackMark, r) == If(SetState(s, n, PreDel), Some(BackDetach), None)
    ensures Act(s, n, BackDetach, r) == (s, Some(if r.ok then BackRemove else BackRestore))
    ensures Act(s, n, BackRestore, r) == If(SetState(s, n, Finish), None, None)
    ensures Act(s, n, BackRemove, r) == If(Remove(s, n, false), None, None)
  {
    hide SetState, Remove;
  }

  lemma FinishSteps(s: Shm, n: string, p: i32, result: ImportResult, r: Reply)
    ensures Act(s, n, MapFull(p, result), r) == If(FullRecord(s, n, result, r.room), Some(MapUser(p, result)), Some(BackMark))
    ensures n in s.attached ==>
      Act(s, n, MapUser(p, result), r) == If(FullUser(s, n, p, result, r.room), None, Some(BackMark))
  {
    hide FullRecord, FullUser;
  }

  lemma EnterSteps(s: Shm, n: string, p: i32, size: u64, r: Reply)
    ensures Act(s, n, MapEnter(p, size), r) == (s, if r.ok then Some(MapPrepare(p, size)) else None)
    ensures Act(s, n, MapPrepare(p, size), r) == If(Prepare(s, n, size, p, r.room), Some(MapAttach(p)), None)
    ensures Act(s, n, MapAttach(p), r) == (s, Some(if r.ok then MapFull(p, r.result) else MapUndo))
    ensures Act(s, n, MapUndo, r) == If(Remove(s, n, false), None, None)
  {
    hide Prepare, Remove;
  }

  lemma MapSteps(s: Shm, n: string, p: i32, size: u64, r: Reply)
    ensures Act(s, n, MapLook(p, size), r) ==
      (s, if n in s.attached && s.attached[n].state == Finish then (if p in s.attached[n].pids then None else Some(MapJoin(p)))
          else if n in s.attached && s.attached[n].state == Deleted then Some(MapForce(p, size)) else Some(MapEnter(p, size)))
    ensures Act(s, n, MapJoin(p), r) == If(AddUser(s, n, p, r.room), None, None)
    ensures Act(s, n, MapForce(p, size), r) == If(Remove(s, n, true), Some(MapEnter(p, size)), None)
  {
    hide AddUser, Remove;
  }

  /** A rolled-back map of memory nobody uses. */
  lemma BackServed(s: Shm, n: string, replies: Task -> Reply)
    requires Consistent(s, n) && n in s.attached && s.attached[n].pids == {}
    ensures var e, s' := Of(s, n), Served(s, n, BackMark, replies); var f := Of(s', n);
      && Apart(s, s', n)
      && (if n !in s.imports then f == e else if replies(BackDetach).ok then Nothing(f) else InState(e, f, Finish))
      && (BackDetach in Visited(s, n, BackMark, replies) <==> n in s.imports)
  {
    hide Act, Remove, SetState, Served, Visited, EntryOk, Agree, NoEmpty, Others;
    var u := SetState(s, n, PreDel).0;
    SetStateSays(s, n, PreDel);
    SetStateOk(s, n, PreDel);
    ApartSelf(s, n);
    BackSteps(s, n, replies(BackMark));
    Goes(s, n, BackMark, replies);
    if n in s.imports {
      BackSteps(u, n, replies(BackDetach));
      Goes(u, n, BackDetach, replies);
      BackEnd(s, u, n, replies);
    }
  }

  lemma BackEnd(s: Shm, u: Shm, n: string, replies: Task -> Reply)
    requires Apart(s, u, n) && InState(Of(s, n), Of(u, n), PreDel) && Of(u, n).mem.value.pids == {} && Consistent(u, n)
    ensures var w := Served(u, n, BackRemove, replies); Apart(s, w, n) && Nothing(Of(w, n))
    ensures var w := Served(u, n, BackRestore, replies); Apart(s, w, n) && InState(Of(s, n), Of(w, n), Finish)
  {
    hide Act, Remove, SetState, Served, Visited, EntryOk, Agree, NoEmpty, Others, Apart;
    BackSteps(u, n, replies(BackRemove));
    Goes(u, n, BackRemove, replies);
    RemoveSays(u, n, false);
    ApartTwice(s, u, Remove(u, n, false).0, n);
    BackSteps(u, n, replies(BackRestore));
    Goes(u, n, BackRestore, replies);
    SetStateSays(u, n, Finish);
    ApartTwice(s, u, SetState(u, n, Finish).0, n);
  }

  /** One user with one reference, and the whole result in memory and record. */
  ghost predicate OneUser(e: Known, f: Known, p: i32, result: ImportResult) {
    && f.mem.Some? && f.record.Some? && e.mem.Some? && e.record.Some?
    && f.mem.value.size == e.mem.value.size && f.mem.value.state == Finish && f.mem.value.result == result && f.mem.value.pids == {p}
    && HoldsResult(e.record.value, f.record.value, result) && f.refs.Keys == {p} && f.refs[p] == 1
  }

  /** What a map makes of memory that is attached and prepared. */
  ghost predicate FinishSays(e: Known, f: Known, n: string, p: i32, result: ImportResult, replies: Task -> Reply) {
    if !replies(MapFull(p, result)).room || result.memIds == [] then
      if replies(BackDetach).ok then Nothing(f) else InState(e, f, Finish)
    else if replies(MapUser(p, result)).room && p != 0 && n != "" then OneUser(e, f, p, result)
    else f.mem == e.mem && f.record == None && f.refs == map[]
  }

  lemma UserServed(s: Shm, n: string, p: i32, result: ImportResult, replies: Task -> Reply)
    requires NoEmpty(s) && Fresh(Of(s, n)) && s.attached[n].pids == {} && n in s.imports && |n| < 64
    ensures var e, s' := Of(s, n), Served(s, n, MapUser(p, result), replies); var f := Of(s', n);
      && Apart(s, s', n)
      && (if replies(MapUser(p, result)).room && p != 0 && n != "" then
            && f.record == e.record && f.mem.Some? && f.mem.value.size == e.mem.value.size && f.mem.value.state == Finish
            && f.mem.value.result == result && f.mem.value.pids == {p} && f.refs.Keys == {p} && f.refs[p] == 1
          else f.mem == e.mem && f.record == None && f.refs == map[])
  {
    hide Act, FullUser, Served, Visited, NoEmpty, Others;
    var t := MapUser(p, result);
    FinishSteps(s, n, p, result, replies(t));
    Goes(s, n, t, replies);
    FullUserSays(s, n, p, result, replies(t).room);
    var (u, ok) := FullUser(s, n, p, result, replies(t).room);
    if !ok {
      BackServed(u, n, replies);
      ApartTwice(s, u, Served(u, n, BackMark, replies), n);
    }
  }

  lemma FinishServed(s: Shm, n: string, p: i32, result: ImportResult, replies: Task -> Reply)
    requires Consistent(s, n) && Fresh(Of(s, n)) && n in s.imports && |n| < 64
    ensures var s' := Served(s, n, MapFull(p, result), replies);
      Apart(s, s', n) && FinishSays(Of(s, n), Of(s', n), n, p, result, replies)
  {
    hide Act, FullRecord, FullUser, Served, Visited, EntryOk, Agree, NoEmpty, Others;
    var t := MapFull(p, result);
    FinishSteps(s, n, p, result, replies(t));
    Goes(s, n, t, replies);
    FullRecordSays(s, n, result, replies(t).room);
    var (u, ok) := FullRecord(s, n, result, replies(t).room);
    EntryFacts(s, n);
    if ok {
      UserServed(u, n, p, result, replies);
      ApartTwice(s, u, Served(u, n, MapUser(p, result), replies), n);
    } else {
      BackServed(s, n, replies);
    }
  }

  /** What a map makes of a name that is not in use. */
  ghost predicate EnterSays(e: Known, f: Known, n: string, p: i32, size: u64, replies: Task -> Reply) {
    if !replies(MapEnter(p, size)).ok || e.mem.Some? || e.record.Some? || |n| >= 64 || !replies(MapPrepare(p, size)).room then f == e
    else if !replies(MapAttach(p)).ok then Nothing(f)
    else exists g :: ShareOutcomes.Prepared(g, size, p, RecordState.PreAdd)
                     && FinishSays(g, f, n, p, replies(MapAttach(p)).result, replies)
  }

  lemma EnterServed(s: Shm, n: string, p: i32, size: u64, replies: Task -> Reply)
    requires Consistent(s, n)
    ensures var s' := Served(s, n, MapEnter(p, size), replies);
      Apart(s, s', n) && EnterSays(Of(s, n), Of(s', n), n, p, size, replies)
  {
    hide Act, Prepare, Served, Visited, EntryOk, Agree, NoEmpty, Others, FinishSays;
    var enter, prepare := MapEnter(p, size), MapPrepare(p, size);
    ApartSelf(s, n);
    EnterSteps(s, n, p, size, replies(enter));
    Goes(s, n, enter, replies);
    EnterSteps(s, n, p, size, replies(prepare));
    Goes(s, n, prepare, replies);
    PrepareSays(s, n, size, p, replies(prepare).room);
    PrepareOk(s, n, size, p, replies(prepare).room);
    var (u, ok) := Prepare(s, n, size, p, replies(prepare).room);
    if ok {
      AttachServed(u, n, p, size, replies);
      ApartTwice(s, u, Served(u, n, MapAttach(p), replies), n);
    }
  }

  lemma AttachServed(s: Shm, n: string, p: i32, size: u64, replies: Task -> Reply)
    requires Consistent(s, n) && Fresh(Of(s, n)) && n in s.imports && |n| < 64
    ensures var s' := Served(s, n, MapAttach(p), replies);
      && Apart(s, s', n)
      && (if replies(MapAttach(p)).ok then FinishSays(Of(s, n), Of(s', n), n, p, replies(MapAttach(p)).result, replies)
          else Nothing(Of(s', n)))
  {
    hide Act, Remove, Served, Visited, EntryOk, Agree, NoEmpty, Others, FinishSays;
    EnterSteps(s, n, p, size, replies(MapAttach(p)));
    Goes(s, n, MapAttach(p), replies);
    EntryFacts(s, n);
    if replies(MapAttach(p)).ok {
      FinishServed(s, n, p, replies(MapAttach(p)).result, replies);
    } else {
      EnterSteps(s, n, p, size, replies(MapUndo));
      Goes(s, n, MapUndo, replies);
      RemoveSays(s, n, false);
    }
  }

  /** What a map leaves of its name. */
  ghost predicate MapSays(e: Known, f: Known, n: string, p: i32, size: u64, replies: Task -> Reply) {
    if e.mem.Some? && e.mem.value.state == Finish then
      if p in e.mem.value.pids || !replies(MapJoin(p)).room || p == 0 || n == "" || |n| >= 64 then f == e
      else Users(e, f, e.mem.value.pids + {p}) && OtherRefs(e.refs, f.refs, p) && RefOf(f.refs, p, 1)
    else EnterSays(if e.mem.Some? && e.mem.value.state == Deleted then Known(None, None, map[]) else e, f, n, p, size, replies)
  }

  /** A map, by anybody and whatever is answered. */
  lemma MapServed(s: Shm, n: string, p: i32, size: u64, replies: Task -> Reply)
    requires Consistent(s, n)
    ensures var s' := Served(s, n, MapLook(p, size), replies);
      Apart(s, s', n) && MapSays(Of(s, n), Of(s', n), n, p, size, replies)
  {
    hide Act, AddUser, Remove, Served, Visited, EntryOk, Agree, NoEmpty, Others, EnterSays;
    ApartSelf(s, n);
    MapSteps(s, n, p, size, replies(MapLook(p, size)));
    Goes(s, n, MapLook(p, size), replies);
    if n in s.attached && s.attached[n].state == Finish {
      EntryFacts(s, n);
      MapSteps(s, n, p, size, replies(MapJoin(p)));
      Goes(s, n, MapJoin(p), replies);
      AddUserSays(s, n, p, replies(MapJoin(p)).room);
    } else if n in s.attached && s.attached[n].state == Deleted {
      EntryFacts(s, n);
      MapSteps(s, n, p, size, replies(MapForce(p, size)));
      Goes(s, n, MapForce(p, size), replies);
      RemoveSays(s, n, true);
      RemoveOk(s, n, true);
      var u := Remove(s, n, true).0;
      EnterServed(u, n, p, size, replies);
      ApartTwice(s, u, Served(u, n, MapEnter(p, size), replies), n);
    } else {
      EnterServed(s, n, p, size, replies);
    }
  }

  /** A delete changes nothing here, and reaches the engine exactly when the memory is known and nobody uses it. */
  lemma DeleteServed(s: Shm, n: string, replies: Task -> Reply)
    ensures Served(s, n, DeleteCheck, replies) == s
    ensures DeleteEngine in Visited(s, n, DeleteCheck, replies) <==>
      replies(DeleteCheck).ok && (n in s.attached ==> s.attached[n].pids == {})
  {
    DeleteSteps(s, n, replies(DeleteCheck));
    DeleteSteps(s, n, replies(DeleteCount));
    DeleteSteps(s, n, replies(DeleteEngine));
    hide Act, Served, Visited;
    Goes(s, n, DeleteCheck, replies);
    Goes(s, n, DeleteCount, replies);
    Goes(s, n, DeleteEngine, replies);
  }

  lemma DeleteSteps(s: Shm, n: string, r: Reply)
    ensures Act(s, n, DeleteCheck, r) == (s, if r.ok then Some(DeleteCount) else None)
    ensures Act(s, n, DeleteCount, r) == (s, if n in s.attached && s.attached[n].pids != {} then None else Some(DeleteEngine))
    ensures Act(s, n, DeleteEngine, r) == (s, None)
  {
  }

  // ---- every request on a free name is served

  /** A map, an unmap or a delete begins whenever its name is free, and runs to its end beside all other requests. */
  lemma RequestServed(y: System, n: string, t: Task, replies: Task -> Reply) returns (run: seq<Event>)
    requires n !in y.tasks && (t.MapLook? || t.UnmapLook? || t.DeleteCheck?)
    ensures Possible(y, run) && After(y, run) == System(Served(y.shm, n, t, replies), y.tasks)
  {
    var begin := Begin(n, t);
    var z := Next(y, begin);
    assert z.tasks - {n} == y.tasks;
    hide Act, Served;
    run := ServedIsRun(z, n, t, replies);
    OneStep(y, begin, run);
    run := [begin] + run;
  }
}
