/** How soon the logging thread delivers, and what a call of a producer adds. */
module LoggerProgress {
  import opened LoggerBuffer

  // ---- delivery, running or not

  /** Consumer steps up to and including its next delivery, while something waits. */
  ghost function Lead(s: Logger): nat {
    match s.consumer
    case Looping => if s.left == s.right then 5 else 3
    case Popping(_) => if s.left == s.right then 4 else 2
    case Testing(_) => 3
    case Swapping(_) => 2
    case Reading(_) => 1
    case Ended => 0
  }

  ghost predicate Waiting(s: Logger) { |s.delivered| < |s.accepted| }

  /** While something waits the consumer has not ended, and each of its steps delivers the next entry or comes closer to it. */
  lemma ConsumeLeads(s: Logger)
    requires Good(s) && Waiting(s) && Enabled(s, Consume)
    ensures var t := Next(s, Consume);
      && 1 <= Lead(s) <= 5 && t.accepted == s.accepted
      && (if Lead(s) == 1 then t.delivered == s.delivered + [s.accepted[|s.delivered|]]
          else t.delivered == s.delivered && Lead(t) == Lead(s) - 1)
  {
    if s.consumer.Swapping? {
      QuietFull(s);
    }
  }

  /** No other step delivers or puts the delivery off. */
  lemma OthersWait(s: Logger, step: Step)
    requires Good(s) && Enabled(s, step) && step != Consume
    ensures var t := Next(s, step); t.delivered == s.delivered && s.accepted <= t.accepted && Lead(t) == Lead(s)
  {
  }

  ghost function Progress(s: Logger): int { 5 * |s.delivered| + 5 - Lead(s) }

  lemma StepProgress(s: Logger, step: Step)
    requires Good(s) && Waiting(s) && Enabled(s, step)
    ensures var t := Next(s, step);
      && s.accepted <= t.accepted && |s.delivered| <= |t.delivered|
      && (Waiting(t) ==> Progress(t) >= Progress(s) + if step == Consume then 1 else 0)
  {
    StepGood(s, step);
    if step == Consume {
      ConsumeLeads(s);
      var t := Next(s, Consume);
      if Waiting(t) {
        LeadBound(t);
      }
    } else {
      OthersWait(s, step);
    }
  }

  lemma LeadBound(s: Logger)
    requires Good(s) && Waiting(s)
    ensures 1 <= Lead(s) <= 5
  {
  }

  lemma StepKeeps(s: Logger, step: Step)
    requires Good(s) && Enabled(s, step)
    ensures var t := Next(s, step); s.accepted <= t.accepted && s.delivered <= t.delivered
  {
  }

  lemma {:induction false} RunKeeps(s: Logger, run: seq<Step>)
    requires Good(s) && Possible(s, run)
    ensures s.accepted <= After(s, run).accepted && s.delivered <= After(s, run).delivered
    decreases |run|
  {
    if run != [] {
      StepKeeps(s, run[0]);
      StepGood(s, run[0]);
      hide Good, Next;
      RunKeeps(Next(s, run[0]), run[1..]);
    }
  }

  lemma {:induction false} RunProgress(s: Logger, run: seq<Step>, target: nat)
    requires Good(s) && Possible(s, run) && target <= |s.accepted|
    ensures var t := After(s, run);
      |t.delivered| >= target || (|s.delivered| < target && Progress(t) >= Progress(s) + Consumes(run))
    decreases |run|
  {
    if |s.delivered| >= target {
      RunKeeps(s, run);
    } else if run != [] {
      var t := Next(s, run[0]);
      StepProgress(s, run[0]);
      StepGood(s, run[0]);
      hide Good, Next, Progress;
      RunProgress(t, run[1..], target);
    }
  }

  /**
    In every interleaving with producers and shutdown, whether told to stop or not: five steps of
    the consumer deliver at least one entry that was waiting, until all that waited is delivered.
    */
  lemma DeliveredBy(s: Logger, run: seq<Step>)
    requires Good(s) && Possible(s, run)
    ensures var t := After(s, run);
      && s.delivered <= t.delivered <= t.accepted
      && (|t.delivered| >= |s.accepted| || |t.delivered| >= |s.delivered| + Consumes(run) / 5)
  {
    RunProgress(s, run, |s.accepted|);
    RunGood(s, run);
    RunKeeps(s, run);
    if |s.delivered| < |s.accepted| && |After(s, run).delivered| < |s.accepted| {
      LeadBound(s);
      LeadBound(After(s, run));
    }
  }

  lemma QuietStep(s: Logger)
    requires Good(s) && s.producers == map[] && Waiting(s)
    ensures Enabled(s, Consume) && Good(Next(s, Consume)) && Next(s, Consume).producers == map[] && 1 <= Lead(s) <= 5
    ensures var t := Next(s, Consume);
      && t.accepted == s.accepted && (Waiting(t) ==> 1 <= Lead(t) <= 5)
      && (if Lead(s) == 1 then |t.delivered| == |s.delivered| + 1 && (!Waiting(t) ==> t.delivered == t.accepted)
          else t.delivered == s.delivered && Lead(t) == Lead(s) - 1)
  {
    LeadBound(s);
    ConsumeLeads(s);
    StepGood(s, Consume);
    if Waiting(Next(s, Consume)) {
      LeadBound(Next(s, Consume));
    }
  }

  lemma {:induction false} QuietSteps(s: Logger) returns (run: seq<Step>)
    requires Good(s) && s.producers == map[]
    ensures forall i :: 0 <= i < |run| ==> run[i] == Consume
    ensures |run| <= if Waiting(s) then 5 * (|s.accepted| - |s.delivered| - 1) + Lead(s) else 0
    ensures Possible(s, run) && After(s, run).delivered == s.accepted == After(s, run).accepted
    decreases if Waiting(s) then 6 * (|s.accepted| - |s.delivered|) + Lead(s) else 0
  {
    run := [];
    if Waiting(s) {
      var t := Next(s, Consume);
      QuietStep(s);
      hide Good, Next, Lead;
      run := QuietSteps(t);
      Prefixed(s, Consume, run);
      run := [Consume] + run;
    }
  }

  /** With no producer inside nothing stops the consumer, and within five steps each all that waits is delivered. */
  lemma QuietDelivers(s: Logger) returns (run: seq<Step>)
    requires Good(s) && s.producers == map[]
    ensures forall i :: 0 <= i < |run| ==> run[i] == Consume
    ensures |run| <= 5 * (|s.accepted| - |s.delivered|) && Possible(s, run)
    ensures After(s, run).delivered == s.accepted == After(s, run).accepted
  {
    run := QuietSteps(s);
  }

  // ---- what a producer adds

  /** A call that is not interrupted adds its own entry, exactly when it is not too late and there is a free slot. */
  lemma PutAdds(s: Logger, p: nat, e: Entry)
    requires Good(s) && p !in s.producers
    ensures var run := if s.stop then [Enter(p, e), Claim(p), Leave(p)] else [Enter(p, e), Claim(p), Store(p), Leave(p)];
      && Possible(s, run)
      && var t := After(s, run);
      && t.accepted == (if !s.stop && Filled(s) < s.size then s.accepted + [e] else s.accepted)
      && t.producers == s.producers && t.delivered == s.delivered
      && t.next == (if !s.stop && Filled(s) < s.size then s.next + 1 else s.next)
  {
    var s1 := Next(s, Enter(p, e));
    var s2 := Next(s1, Claim(p));
    var s3 := if s.stop then s2 else Next(s2, Store(p));
    var s4 := Next(s3, Leave(p));
    assert s4.producers == s.producers;
    Prefixed(s3, Leave(p), []);
    assert [Leave(p)] + [] == [Leave(p)];
    PutEnds(s, s1, s2, s3, s4, p, e);
  }

  lemma PutEnds(s: Logger, s1: Logger, s2: Logger, s3: Logger, s4: Logger, p: nat, e: Entry)
    requires Enabled(s, Enter(p, e)) && s1 == Next(s, Enter(p, e)) && Enabled(s1, Claim(p)) && s2 == Next(s1, Claim(p))
    requires if s.stop then s3 == s2 else Enabled(s2, Store(p)) && s3 == Next(s2, Store(p))
    requires Possible(s3, [Leave(p)]) && After(s3, [Leave(p)]) == s4
    ensures var run := if s.stop then [Enter(p, e), Claim(p), Leave(p)] else [Enter(p, e), Claim(p), Store(p), Leave(p)];
      Possible(s, run) && After(s, run) == s4
  {
    hide Next, Enabled, Possible, After;
    var run := [Leave(p)];
    if !s.stop {
      Prefixed(s2, Store(p), run);
      run := [Store(p)] + run;
    }
    Prefixed(s1, Claim(p), run);
    run := [Claim(p)] + run;
    Prefixed(s, Enter(p, e), run);
    run := [Enter(p, e)] + run;
    assert run == if s.stop then [Enter(p, e), Claim(p), Leave(p)] else [Enter(p, e), Claim(p), Store(p), Leave(p)];
  }

  /** Accepted, or with a producer that is inside. */
  ghost predicate Seen(s: Logger, e: Entry) {
    e in s.accepted || exists p :: p in s.producers && s.producers[p] == Entered(e)
  }

  /** Nothing is accepted, and so nothing is delivered, that no producer came with. */
  lemma {:induction false} NothingInvented(s: Logger, run: seq<Step>, e: Entry)
    requires Possible(s, run) && Seen(After(s, run), e) && !Seen(s, e)
    ensures exists p :: Enter(p, e) in run
    decreases |run|
  {
    if run != [] {
      var t := Next(s, run[0]);
      if Seen(t, e) {
        SeenBefore(s, run[0], e);
      } else {
        NothingInvented(t, run[1..], e);
        var p :| Enter(p, e) in run[1..];
        assert Enter(p, e) in run;
      }
    }
  }

  lemma SeenBefore(s: Logger, step: Step, e: Entry)
    requires Enabled(s, step) && Seen(Next(s, step), e)
    ensures Seen(s, e) || (step.Enter? && step.e == e)
  {
    var t := Next(s, step);
    if e in t.accepted {
      if step.Claim? && e !in s.accepted {
        assert s.producers[step.p] == Entered(e);
      }
    } else {
      var p :| p in t.producers && t.producers[p] == Entered(e);
      if !(step.Enter? && step.p == p) {
        assert p in s.producers && s.producers[p] == Entered(e);
      }
    }
  }

  // ---- shutting down

  /** Steps a producer needs at most to get out. */
  function Stage(x: Producer): nat { if x.Entered? then 3 else if x.Claimed? then 2 else 1 }

  /** A producer that is inside is never stuck. */
  lemma OutStep(s: Logger, p: nat) returns (step: Step)
    requires Good(s) && p in s.producers
    ensures Enabled(s, step) && Good(Next(s, step))
    ensures var t := Next(s, step);
      && t.producers - {p} == s.producers - {p} && t.exiter == s.exiter && s.accepted <= t.accepted
      && (p in t.producers ==> Stage(t.producers[p]) < Stage(s.producers[p]))
  {
    step := match s.producers[p] case Entered(_) => Claim(p) case Claimed(_, _) => Store(p) case Leaving => Leave(p);
    StepGood(s, step);
    hide Good;
  }

  function Distance(s: Logger, p: nat): nat { if p in s.producers then Stage(s.producers[p]) else 0 }

  /** It gets out again, whatever it has done so far. */
  lemma {:induction false} OneDone(s: Logger, p: nat) returns (run: seq<Step>)
    requires Good(s)
    ensures Possible(s, run) && Good(After(s, run))
    ensures var t := After(s, run);
      t.producers == s.producers - {p} && t.exiter == s.exiter && s.accepted <= t.accepted
    decreases Distance(s, p)
  {
    run := [];
    hide Good, Next, Enabled;
    if p in s.producers {
      var step := OutStep(s, p);
      run := OneDone(Next(s, step), p);
      Prefixed(s, step, run);
      run := [step] + run;
    }
  }

  lemma {:induction false} AllDone(s: Logger) returns (run: seq<Step>)
    requires Good(s)
    ensures Possible(s, run) && Good(After(s, run))
    ensures var t := After(s, run); t.producers == map[] && t.exiter == s.exiter && s.accepted <= t.accepted
    decreases |s.producers|
  {
    run := [];
    hide Good, Next, Enabled;
    if s.producers != map[] {
      var p :| p in s.producers;
      var first := OneDone(s, p);
      var rest := AllDone(After(s, first));
      Joined(s, first, rest);
      run := first + rest;
    }
  }

  /** From every state of every run the logger can be shut down, with everything accepted by then delivered. */
  lemma {:induction false} ShutsDown(s: Logger) returns (run: seq<Step>)
    requires Good(s)
    ensures Possible(s, run)
    ensures var t := After(s, run); t.exiter == Returned && t.delivered == t.accepted && s.accepted <= t.accepted
    decreases match s.exiter case NotCalled => 2 case Stopped => 1 case _ => 0
  {
    if s.exiter == Returned {
      run := [];
    } else if s.exiter == Signalled {
      run := ExitReturns(s);
    } else {
      var first := AllDone(s);
      var t := After(s, first);
      var u := Next(t, Exit);
      StepGood(t, Exit);
      assert u.accepted == t.accepted && (t.exiter == NotCalled ==> u.exiter == Stopped);
      hide Good, Next, Enabled;
      var rest := ShutsDown(u);
      Prefixed(t, Exit, rest);
      Joined(s, first, [Exit] + rest);
      run := first + ([Exit] + rest);
    }
  }
}
