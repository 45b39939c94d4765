/**
  The logger's double buffer as atomic steps: any number of producers under the shared lock, one
  consumer that swaps the buffers under the exclusive lock, and the thread that shuts it down.
  */
module LoggerBuffer {
  import opened Words

  type Entry = string

  /** A producer that holds the shared lock. */
  datatype Producer =
    | Entered(e: Entry)
    | Claimed(e: Entry, index: nat)
    | Leaving

  /** Where the logging thread is; `last` while it drains after being told to stop. */
  datatype Consumer =
    | Looping
    | Popping(last: bool)
    | Testing(last: bool)
    | Swapping(last: bool)
    | Reading(last: bool)
    | Ended

  datatype Exiter = NotCalled | Stopped | Signalled | Returned

  /** `accepted`, `delivered` and `fault` record what happened; no step depends on them. */
  datatype Logger = Logger(
    size: nat,
    read: seq<Option<Entry>>, left: nat, right: nat,
    write: seq<Option<Entry>>, next: nat,
    stop: bool, running: bool,
    producers: map<nat, Producer>, consumer: Consumer, exiter: Exiter,
    accepted: seq<Entry>, delivered: seq<Entry>, fault: bool)

  function Start(size: nat): Logger {
    Logger(size, seq(size, _ => None), 0, 0, seq(size, _ => None), 0, false, true,
           map[], Looping, NotCalled, [], [], false)
  }

  datatype Step =
    | Enter(p: nat, e: Entry)
    | Claim(p: nat)
    | Store(p: nat)
    | Leave(p: nat)
    | Consume
    | Exit

  predicate Enabled(s: Logger, step: Step) {
    match step
    case Enter(p, _) => p !in s.producers
    case Claim(p) => p in s.producers && s.producers[p].Entered?
    case Store(p) => p in s.producers && s.producers[p].Claimed?
    case Leave(p) => p in s.producers && s.producers[p].Leaving?
    case Consume => s.consumer != Ended && (s.consumer.Swapping? ==> s.producers == map[])
    case Exit =>
      match s.exiter
      case NotCalled => s.producers == map[]
      case Stopped => true
      case Signalled => s.consumer == Ended
      case Returned => false
  }

  /** The producer checks the stop flag and takes the next index. */
  function Claiming(s: Logger, p: nat): Logger
    requires Enabled(s, Claim(p))
  {
    if s.stop then s.(producers := s.producers[p := Leaving])
    else
      var e := s.producers[p].e;
      s.(next := s.next + 1, producers := s.producers[p := Claimed(e, s.next)],
         accepted := if s.next < s.size then s.accepted + [e] else s.accepted)
  }

  /** It fills its slot, or gives the index back when there is no such slot. */
  function Storing(s: Logger, p: nat): Logger
    requires Enabled(s, Store(p))
  {
    var c := s.producers[p];
    var t := s.(producers := s.producers[p := Leaving]);
    if c.index < s.size && c.index < |s.write| then t.(write := s.write[c.index := Some(c.e)])
    else t.(next := if s.next > 0 then s.next - 1 else 0xFFFF_FFFF)
  }

  function Swapped(s: Logger): Logger {
    s.(read := s.write, write := s.read, left := 0, right := s.next, next := 0)
  }

  /** Takes the entry at `left`; a slot outside the buffer or without an entry is a fault. */
  function Taken(s: Logger): Logger {
    if s.left < |s.read| && s.read[s.left].Some? then
      s.(left := s.left + 1, read := s.read[s.left := None], delivered := s.delivered + [s.read[s.left].value])
    else s.(left := s.left + 1, fault := true)
  }

  function Consuming(s: Logger): Logger {
    match s.consumer
    case Looping => s.(consumer := Popping(!s.running))
    case Popping(last) => s.(consumer := if s.left == s.right then Testing(last) else Reading(last))
    case Testing(last) =>
      s.(consumer := if s.next != 0 then Swapping(last) else if last then Ended else Looping)
    case Swapping(last) => Swapped(s).(consumer := Reading(last))
    case Reading(last) => Taken(s).(consumer := if last then Popping(true) else Looping)
    case Ended => s
  }

  function Exiting(s: Logger): Logger {
    match s.exiter
    case NotCalled => s.(stop := true, exiter := Stopped)
    case Stopped => s.(running := false, exiter := Signalled)
    case _ => s.(exiter := Returned)
  }

  function Next(s: Logger, step: Step): Logger
    requires Enabled(s, step)
  {
    match step
    case Enter(p, e) => s.(producers := s.producers[p := Entered(e)])
    case Claim(p) => Claiming(s, p)
    case Store(p) => Storing(s, p)
    case Leave(p) => s.(producers := s.producers - {p})
    case Consume => Consuming(s)
    case Exit => Exiting(s)
  }

  predicate Possible(s: Logger, run: seq<Step>)
    decreases |run|
  {
    run == [] || (Enabled(s, run[0]) && Possible(Next(s, run[0]), run[1..]))
  }

  function After(s: Logger, run: seq<Step>): Logger
    requires Possible(s, run)
    decreases |run|
  {
    if run == [] then s else After(Next(s, run[0]), run[1..])
  }

  // ---- invariant

  /** Entries in the write buffer; the counter runs past the size while producers find it full. */
  function Filled(s: Logger): nat { if s.next < s.size then s.next else s.size }

  /** Producers that found the buffer full and have not given their index back. */
  ghost function Late(s: Logger): set<nat> {
    set p | p in s.producers && s.producers[p].Claimed? && s.producers[p].index >= s.size
  }

  /** Where in the accepted sequence the write buffer begins. */
  ghost function Base(s: Logger): int { |s.delivered| + s.right - s.left }

  ghost predicate ReadOk(s: Logger) {
    && s.left <= s.right <= s.size == |s.read|
    && Base(s) <= |s.accepted|
    && s.delivered == s.accepted[..|s.delivered|]
    && forall i :: s.left <= i < s.right ==> s.read[i] == Some(s.accepted[|s.delivered| + i - s.left])
  }

  /** Slot i of the write buffer holds its entry, or one producer is about to store it. */
  ghost predicate SlotOk(s: Logger, i: nat)
    requires i < |s.write| && 0 <= Base(s) + i < |s.accepted|
  {
    s.write[i] == Some(s.accepted[Base(s) + i])
    || exists p :: p in s.producers && s.producers[p] == Claimed(s.accepted[Base(s) + i], i)
  }

  /** An index below the size was handed out once, for the entry its producer carries. */
  ghost predicate ClaimOk(s: Logger, p: nat)
    requires p in s.producers && 0 <= Base(s) && |s.accepted| == Base(s) + Filled(s)
  {
    var c := s.producers[p];
    c.Claimed? && c.index < s.size ==> c.index < s.next && s.accepted[Base(s) + c.index] == c.e
  }

  ghost predicate Apart(a: Producer, b: Producer, size: nat) {
    a.Claimed? && b.Claimed? && a.index < size ==> a.index != b.index
  }

  ghost predicate AllApart(s: Logger) {
    forall p, q :: p in s.producers && q in s.producers && p != q ==> Apart(s.producers[p], s.producers[q], s.size)
  }

  ghost predicate Counted(s: Logger) {
    && |s.write| == s.size && 0 <= Base(s)
    && |s.accepted| == Base(s) + Filled(s)
    && |Late(s)| == s.next - Filled(s)
  }

  ghost predicate WriteOk(s: Logger) {
    && Counted(s) && AllApart(s)
    && (forall i :: 0 <= i < Filled(s) ==> SlotOk(s, i))
    && (forall p :: p in s.producers ==> ClaimOk(s, p))
  }

  ghost predicate ConsumerOk(s: Logger) {
    match s.consumer
    case Looping => true
    case Popping(last) => last ==> !s.running
    case Testing(last) => (last ==> !s.running) && s.left == s.right
    case Swapping(last) => (last ==> !s.running) && s.left == s.right && Filled(s) > 0
    case Reading(last) => (last ==> !s.running) && s.left < s.right
    case Ended => !s.running && s.left == s.right && s.next == 0
  }

  ghost predicate ExitOk(s: Logger) {
    && (s.stop <==> s.exiter != NotCalled)
    && (s.running <==> s.exiter == NotCalled || s.exiter == Stopped)
    && (s.stop ==> forall p :: p in s.producers ==> !s.producers[p].Claimed?)
    && (s.exiter == Returned ==> s.consumer == Ended)
  }

  ghost predicate Good(s: Logger) {
    s.size > 0 && !s.fault && ReadOk(s) && WriteOk(s) && ConsumerOk(s) && ExitOk(s)
  }

  // ---- every step keeps it

  lemma StartGood(size: nat)
    requires size > 0
    ensures Good(Start(size))
  {
    assert Late(Start(size)) == {};
  }

  lemma EnterGood(s: Logger, p: nat, e: Entry)
    requires Good(s) && Enabled(s, Enter(p, e))
    ensures Good(Next(s, Enter(p, e)))
  {
    var t := Next(s, Enter(p, e));
    assert Late(t) == Late(s);
    forall i | 0 <= i < Filled(s)
      ensures SlotOk(t, i)
    {
      SlotKept(s, t, i, p);
    }
  }

  lemma LeaveGood(s: Logger, p: nat)
    requires Good(s) && Enabled(s, Leave(p))
    ensures Good(Next(s, Leave(p)))
  {
    var t := Next(s, Leave(p));
    assert Late(t) == Late(s);
    forall i | 0 <= i < Filled(s)
      ensures SlotOk(t, i)
    {
      SlotKept(s, t, i, p);
    }
  }

  /** A slot stays in order when only a producer without a claim on it moves. */
  lemma SlotKept(s: Logger, t: Logger, i: nat, p: nat)
    requires i < |s.write| && 0 <= Base(s) + i < |s.accepted| && SlotOk(s, i)
    requires Base(t) == Base(s) && |s.accepted| <= |t.accepted| && t.accepted[Base(s) + i] == s.accepted[Base(s) + i]
    requires |t.write| == |s.write| && t.write[i] == s.write[i]
    requires forall q :: q != p && q in s.producers ==> q in t.producers && t.producers[q] == s.producers[q]
    requires p in s.producers && s.producers[p].Claimed? ==> s.producers[p].index != i
    ensures SlotOk(t, i)
  {
    if s.write[i] != Some(s.accepted[Base(s) + i]) {
      var q :| q in s.producers && s.producers[q] == Claimed(s.accepted[Base(s) + i], i);
      assert q in t.producers && t.producers[q] == Claimed(t.accepted[Base(t) + i], i);
    }
  }

  lemma ClaimCounted(s: Logger, p: nat)
    requires Good(s) && Enabled(s, Claim(p))
    ensures Counted(Next(s, Claim(p)))
  {
    var t := Next(s, Claim(p));
    assert p !in Late(s);
    assert Late(t) == if !s.stop && s.next >= s.size then Late(s) + {p} else Late(s);
  }

  lemma ClaimApart(s: Logger, p: nat)
    requires Good(s) && Enabled(s, Claim(p))
    ensures AllApart(Next(s, Claim(p)))
  {
    var t := Next(s, Claim(p));
    forall q | q in s.producers && q != p
      ensures Apart(t.producers[p], s.producers[q], s.size) && Apart(s.producers[q], t.producers[p], s.size)
    {
      assert ClaimOk(s, q);
    }
  }

  lemma ClaimGood(s: Logger, p: nat)
    requires Good(s) && Enabled(s, Claim(p))
    ensures Good(Next(s, Claim(p)))
  {
    var t := Next(s, Claim(p));
    ClaimCounted(s, p);
    ClaimApart(s, p);
    hide AllApart, Late;
    forall i | 0 <= i < Filled(t)
      ensures SlotOk(t, i)
    {
      if i < Filled(s) {
        assert SlotOk(s, i);
        SlotKept(s, t, i, p);
      } else {
        assert t.producers[p] == Claimed(t.accepted[Base(t) + i], i);
      }
    }
    forall q | q in t.producers
      ensures ClaimOk(t, q)
    {
      assert ClaimOk(s, q);
    }
  }

  lemma StoreCounted(s: Logger, p: nat)
    requires Good(s) && Enabled(s, Store(p))
    ensures Counted(Next(s, Store(p))) && Filled(Next(s, Store(p))) == Filled(s)
  {
    var t, c := Next(s, Store(p)), s.producers[p];
    assert p in Late(s) <==> c.index >= s.size;
    assert Late(t) == Late(s) - {p};
  }

  lemma StoreApart(s: Logger, p: nat)
    requires AllApart(s) && Enabled(s, Store(p))
    ensures AllApart(Next(s, Store(p)))
  {
  }

  lemma StoreSlot(s: Logger, p: nat, i: nat)
    requires Good(s) && Enabled(s, Store(p)) && i < Filled(s)
    ensures var t := Next(s, Store(p));
      |t.write| == |s.write| && Base(t) == Base(s) && t.accepted == s.accepted && SlotOk(t, i)
  {
    var t, c := Next(s, Store(p)), s.producers[p];
    assert SlotOk(s, i) && ClaimOk(s, p);
    if i != c.index {
      SlotKept(s, t, i, p);
    }
  }

  lemma StoreGood(s: Logger, p: nat)
    requires Good(s) && Enabled(s, Store(p))
    ensures Good(Next(s, Store(p)))
  {
    var t := Next(s, Store(p));
    StoreCounted(s, p);
    StoreApart(s, p);
    hide Late, AllApart;
    forall i | 0 <= i < Filled(t)
      ensures SlotOk(t, i)
    {
      StoreSlot(s, p, i);
    }
    hide SlotOk;
    forall q | q in t.producers
      ensures ClaimOk(t, q)
    {
      assert ClaimOk(s, q);
    }
  }

  /** With nobody holding the shared lock, every index handed out has its entry stored. */
  lemma QuietFull(s: Logger)
    requires Good(s) && s.producers == map[]
    ensures s.next == Filled(s)
    ensures forall i :: 0 <= i < s.next ==> s.write[i] == Some(s.accepted[Base(s) + i])
  {
    assert Late(s) == {};
    forall i | 0 <= i < s.next
      ensures s.write[i] == Some(s.accepted[Base(s) + i])
    {
      assert SlotOk(s, i);
    }
  }

  lemma SwapGood(s: Logger)
    requires Good(s) && Enabled(s, Consume) && s.consumer.Swapping?
    ensures Good(Next(s, Consume))
  {
    QuietFull(s);
    var t := Next(s, Consume);
    assert Late(t) == {};
  }

  lemma ReadGood(s: Logger)
    requires Good(s) && Enabled(s, Consume) && s.consumer.Reading?
    ensures Good(Next(s, Consume))
  {
    var t := Next(s, Consume);
    assert s.read[s.left] == Some(s.accepted[|s.delivered|]);
    assert t.delivered == s.accepted[..|s.delivered| + 1];
    assert Late(t) == Late(s) && Base(t) == Base(s);
    forall i | 0 <= i < Filled(s)
      ensures SlotOk(t, i)
    {
      assert SlotOk(s, i);
    }
  }

  /** Moves that change neither buffers nor producers. */
  lemma MoveGood(s: Logger, t: Logger)
    requires Good(s) && ConsumerOk(t) && ExitOk(t)
    requires t == s.(stop := t.stop, running := t.running, consumer := t.consumer, exiter := t.exiter)
    ensures Good(t)
  {
    assert Late(t) == Late(s);
    forall i | 0 <= i < Filled(s)
      ensures SlotOk(t, i)
    {
      assert SlotOk(s, i);
    }
  }

  lemma StepGood(s: Logger, step: Step)
    requires Good(s) && Enabled(s, step)
    ensures Good(Next(s, step))
  {
    match step
    case Enter(p, e) => EnterGood(s, p, e);
    case Claim(p) => ClaimGood(s, p);
    case Store(p) => StoreGood(s, p);
    case Leave(p) => LeaveGood(s, p);
    case Consume =>
      if s.consumer.Swapping? {
        SwapGood(s);
      } else if s.consumer.Reading? {
        ReadGood(s);
      } else {
        if s.consumer.Testing? && s.next == 0 && s.consumer.last {
          assert Late(s) == {};
        }
        MoveGood(s, Next(s, Consume));
      }
    case Exit => MoveGood(s, Next(s, Exit));
  }

  // ---- whole runs

  lemma {:induction false} RunGood(s: Logger, run: seq<Step>)
    requires Good(s) && Possible(s, run)
    ensures Good(After(s, run)) && After(s, run).size == s.size
    decreases |run|
  {
    if run != [] {
      StepGood(s, run[0]);
      RunGood(Next(s, run[0]), run[1..]);
    }
  }

  /** In every run nothing is read that was not stored, and what was delivered is what was accepted, in order. */
  lemma ExactlyOnce(size: nat, run: seq<Step>)
    requires size > 0 && Possible(Start(size), run)
    ensures var s := After(Start(size), run);
      !s.fault && s.delivered <= s.accepted && |s.accepted| - |s.delivered| <= 2 * size
  {
    StartGood(size);
    RunGood(Start(size), run);
  }

  /** When Exit has returned, everything accepted has been delivered, and nothing is accepted any more. */
  lemma Drained(size: nat, run: seq<Step>)
    requires size > 0 && Possible(Start(size), run) && After(Start(size), run).exiter == Returned
    ensures var s := After(Start(size), run); s.delivered == s.accepted
    ensures var s := After(Start(size), run);
      forall step :: Enabled(s, step) ==> Next(s, step).accepted == s.accepted
  {
    StartGood(size);
    RunGood(Start(size), run);
  }

  /** How much the consumer still has to do once it has been told to stop. */
  ghost function Work(s: Logger): int {
    5 * (|s.accepted| - |s.delivered|) + match s.consumer
      case Looping => 5
      case Popping(last) => if last then 4 else 10
      case Testing(last) => if last then 3 else 9
      case Swapping(last) => if last then 2 else 8
      case Reading(last) => if last then 1 else 7
      case Ended => 0
  }

  /** Told to stop, with no producer inside, the consumer is never stuck and gets closer to its end with every step. */
  lemma DrainProgress(s: Logger)
    requires Good(s) && !s.running && s.producers == map[] && s.consumer != Ended
    ensures Enabled(s, Consume) && 0 <= Work(Next(s, Consume)) < Work(s)
    ensures Next(s, Consume).producers == map[] && Next(s, Consume).exiter == s.exiter && !Next(s, Consume).running
  {
    StepGood(s, Consume);
    if s.consumer.Reading? {
      assert s.read[s.left] == Some(s.accepted[|s.delivered|]);
    }
  }

  function Consumes(run: seq<Step>): nat {
    if run == [] then 0 else (if run[0] == Consume then 1 else 0) + Consumes(run[1..])
  }

  /** Once told to stop, every consumer step brings its end closer and no other step puts it off. */
  lemma DrainStep(s: Logger, step: Step)
    requires Good(s) && !s.running && Enabled(s, step)
    ensures var t := Next(s, step);
      && !t.running && t.accepted == s.accepted && 0 <= Work(t)
      && (if step == Consume then Work(t) < Work(s) else Work(t) == Work(s))
  {
    StepGood(s, step);
    if step == Consume && s.consumer.Reading? {
      assert s.read[s.left] == Some(s.accepted[|s.delivered|]);
    }
  }

  /**
    Whatever producers, consumer and shutdown do in turn, the consumer needs at most Work(s) more
    steps, nothing more is accepted, and it waits for nobody but producers inside a swap.
    */
  lemma {:induction false} DrainBounded(s: Logger, run: seq<Step>)
    requires Good(s) && !s.running && Possible(s, run)
    ensures var t := After(s, run);
      && Consumes(run) <= Work(s) && t.accepted == s.accepted
      && (t.consumer == Ended || Enabled(t, Consume) || (t.consumer.Swapping? && t.producers != map[]))
    decreases |run|
  {
    if run != [] {
      DrainStep(s, run[0]);
      StepGood(s, run[0]);
      hide Work, Good;
      DrainBounded(Next(s, run[0]), run[1..]);
    } else {
      assert 0 <= Work(s);
    }
  }

  /** After the stop flag is set, everybody inside gets out again, with nothing stored. */
  lemma {:induction false} EverybodyLeaves(s: Logger) returns (run: seq<Step>)
    requires s.stop && forall p :: p in s.producers ==> !s.producers[p].Claimed?
    ensures Possible(s, run) && After(s, run) == s.(producers := map[])
    decreases |s.producers|
  {
    run := [];
    if s.producers != map[] {
      var p :| p in s.producers;
      var t := s.(producers := s.producers - {p});
      run := EverybodyLeaves(t);
      var u := s.(producers := s.producers[p := Leaving]);
      assert Enabled(u, Leave(p)) && Next(u, Leave(p)) == t by { assert u.producers - {p} == s.producers - {p}; }
      Prefixed(u, Leave(p), run);
      run := [Leave(p)] + run;
      if s.producers[p].Entered? {
        assert Next(s, Claim(p)) == u;
        Prefixed(s, Claim(p), run);
        run := [Claim(p)] + run;
      } else {
        assert s.producers[p := Leaving] == s.producers;
      }
    }
  }

  /** So from every state in which Exit waits there is a way for it to return, with everything delivered. */
  lemma ExitReturns(s: Logger) returns (run: seq<Step>)
    requires Good(s) && s.exiter == Signalled
    ensures Possible(s, run) && After(s, run).exiter == Returned
    ensures After(s, run).delivered == s.accepted == After(s, run).accepted
  {
    var first := EverybodyLeaves(s);
    RunGood(s, first);
    var second := DrainReturns(After(s, first));
    Joined(s, first, second);
    run := first + second;
  }

  lemma {:induction false} Joined(s: Logger, a: seq<Step>, b: seq<Step>)
    requires Possible(s, a) && Possible(After(s, a), b)
    ensures Possible(s, a + b) && After(s, a + b) == After(After(s, a), b)
    decreases |a|
  {
    if a == [] {
      assert a + b == b;
    } else {
      Joined(Next(s, a[0]), a[1..], b);
      assert (a + b)[1..] == a[1..] + b;
    }
  }

  lemma {:induction false} DrainReturns(s: Logger) returns (run: seq<Step>)
    requires Good(s) && s.exiter == Signalled && s.producers == map[]
    ensures Possible(s, run) && After(s, run).exiter == Returned
    ensures After(s, run).delivered == s.accepted == After(s, run).accepted
    decreases Work(s)
  {
    if s.consumer == Ended {
      run := [];
      Prefixed(s, Exit, run);
      run := [Exit];
      assert [Exit] + [] == [Exit];
      assert After(s, run) == Next(s, Exit);
    } else {
      DrainProgress(s);
      StepGood(s, Consume);
      var t := Next(s, Consume);
      assert t.accepted == s.accepted;
      hide Next, Good;
      run := DrainReturns(t);
      Prefixed(s, Consume, run);
      run := [Consume] + run;
    }
  }

  /** A claim is refused exactly when the write buffer holds as many undelivered entries as it has slots. */
  lemma DroppedWhenFull(s: Logger, p: nat)
    requires Good(s) && Enabled(s, Claim(p)) && !s.stop
    ensures var t := Next(s, Claim(p));
      && (t.accepted == s.accepted <==> Filled(s) == s.size)
      && (t.accepted == s.accepted || t.accepted == s.accepted + [s.producers[p].e])
      && (Filled(s) == s.size ==> |s.accepted| - |s.delivered| >= s.size)
  {
  }

  lemma Prefixed(s: Logger, a: Step, rest: seq<Step>)
    requires Enabled(s, a) && Possible(Next(s, a), rest)
    ensures Possible(s, [a] + rest) && After(s, [a] + rest) == After(Next(s, a), rest)
  {
    assert ([a] + rest)[1..] == rest;
  }

  /** A buffer without slots, when the consumer has seen the index of a producer about to be turned away. */
  const TURNED_AWAY := Logger(0, [], 0, 0, [], 1, false, true, map[0 := Claimed("", 0)],
                              Swapping(false), NotCalled, [], [], false)

  lemma SwapsNothing() returns (run: seq<Step>)
    ensures Possible(TURNED_AWAY, run) && After(TURNED_AWAY, run).fault
  {
    var s5 := TURNED_AWAY;
    var s6 := s5.(next := 0, producers := map[0 := Leaving]);
    var s7 := s6.(producers := map[]);
    var s8 := s7.(consumer := Reading(false));
    assert Next(s5, Store(0)) == s6 && Next(s6, Leave(0)) == s7 && Next(s7, Consume) == s8;
    run := [];
    Prefixed(s8, Consume, run);
    run := [Consume] + run;
    assert After(s8, run).fault;
    hide Next;
    Prefixed(s7, Consume, run);
    run := [Consume] + run;
    Prefixed(s6, Leave(0), run);
    run := [Leave(0)] + run;
    Prefixed(s5, Store(0), run);
    run := [Store(0)] + run;
  }

  /** A buffer without slots: a producer that is turned away makes the consumer swap and read nothing. */
  lemma NoSlotsFault() returns (run: seq<Step>)
    ensures Possible(Start(0), run) && After(Start(0), run).fault
  {
    run := SwapsNothing();
    var s0 := Start(0);
    var s1 := s0.(producers := map[0 := Entered("")]);
    var s2 := s1.(next := 1, producers := map[0 := Claimed("", 0)]);
    var s3 := s2.(consumer := Popping(false));
    var s4 := s3.(consumer := Testing(false));
    assert Next(s0, Enter(0, "")) == s1 && Next(s1, Claim(0)) == s2 && Next(s2, Consume) == s3;
    assert Next(s3, Consume) == s4 && Next(s4, Consume) == TURNED_AWAY;
    hide Next, Start, Possible, After;
    Prefixed(s4, Consume, run);
    run := [Consume] + run;
    Prefixed(s3, Consume, run);
    run := [Consume] + run;
    Prefixed(s2, Consume, run);
    run := [Consume] + run;
    Prefixed(s1, Claim(0), run);
    run := [Claim(0)] + run;
    Prefixed(s0, Enter(0, ""), run);
    run := [Enter(0, "")] + run;
  }

  /** The buffer is safe in every run exactly when it has a slot. */
  lemma SafeIffSlots(size: nat)
    ensures (forall run :: Possible(Start(size), run) ==> !After(Start(size), run).fault) <==> size > 0
  {
    if size > 0 {
      forall run | Possible(Start(size), run)
        ensures !After(Start(size), run).fault
      {
        ExactlyOnce(size, run);
      }
    } else {
      var run := NoSlotsFault();
    }
  }
}
