/**
  From a won vote to a master: the temporary master invites the candidates to join and becomes
  master when enough of them did. Any number of nodes, handlers as atomic steps.
  */
module JoinQuorum {
  import opened Words

  datatype Phase = Other | Candidate | TempMaster | Elected

  /** `electing` while a vote is under way, `pending` a list not yet written, `won` the joins a master was elected with. */
  datatype Node = Node(phase: Phase, electing: bool, temp: seq<string>, pending: Option<seq<string>>,
                       inviting: bool, asked: set<string>, joins: set<string>, won: set<string>)

  const FRESH := Node(Other, false, [], None, false, {}, {}, {})

  /** `quorum` is the shared minimum of master nodes; with `split` a node shows itself as temporary master before its list is written. */
  datatype Cluster = Cluster(quorum: nat, split: bool, nodes: map<string, Node>, sent: set<(string, seq<string>)>)

  datatype Step =
    | Begin(n: string)
    | GiveUp(n: string)
    | Elect(n: string, candidates: seq<string>, votes: set<string>, to: string)
    | Receive(n: string, candidates: seq<string>)
    | Write(n: string)
    | Invite(n: string)
    | Join(n: string, m: string)
    | Check(n: string, late: bool)
    | Change(n: string, phase: Phase)

  /** A candidate begins a vote, and may be something else when it ends. It is won with enough candidates and enough votes, all of them nodes of the cluster and the initiator among both. */
  ghost predicate Enabled(s: Cluster, step: Step) {
    && step.n in s.nodes
    && match step
       case Begin(n) => s.nodes[n].phase == Candidate && !s.nodes[n].electing
       case GiveUp(n) => s.nodes[n].electing
       case Elect(n, candidates, votes, to) =>
         && s.nodes[n].electing && Distinct(candidates) && Elems(candidates) <= s.nodes.Keys && n in candidates && to in candidates
         && votes <= s.nodes.Keys && n in votes && |candidates| >= s.quorum && |votes| >= s.quorum
       case Receive(n, candidates) => (n, candidates) in s.sent
       case Write(n) => s.nodes[n].pending.Some?
       case Invite(n) => s.nodes[n].phase == TempMaster && !s.nodes[n].inviting
       case Join(n, m) => s.nodes[n].inviting && m in s.nodes[n].asked
       case Check(n, _) => s.nodes[n].inviting
       case Change(_, phase) => phase == Other || phase == Candidate
  }

  function Became(s: Cluster, x: Node, candidates: seq<string>): Node {
    if x.phase == TempMaster || x.phase == Elected then x
    else if s.split then x.(phase := TempMaster, pending := Some(candidates))
    else x.(phase := TempMaster, temp := candidates)
  }

  function Won(x: Node): Node { x.(phase := Elected, inviting := false, won := x.joins) }

  function Checked(quorum: nat, x: Node, late: bool): Node {
    if late then (if |x.joins| >= quorum then Won(x) else x.(phase := Candidate, inviting := false))
    else if |x.temp| <= |x.joins| then Won(x)
    else x
  }

  function Put(s: Cluster, n: string, x: Node): Cluster { s.(nodes := s.nodes[n := x]) }

  ghost function Next(s: Cluster, step: Step): Cluster
    requires Enabled(s, step)
  {
    var x := s.nodes[step.n];
    match step
    case Begin(n) => Put(s, n, x.(electing := true))
    case GiveUp(n) => Put(s, n, x.(electing := false))
    case Elect(n, candidates, _, to) =>
      var done := x.(electing := false);
      if to == n then Put(s, n, Became(s, done, candidates)) else Put(s, n, done).(sent := s.sent + {(to, candidates)})
    case Receive(n, candidates) => Put(s, n, Became(s, x, candidates))
    case Write(n) => Put(s, n, x.(temp := x.pending.value, pending := None))
    case Invite(n) => Put(s, n, x.(inviting := true, joins := {n}, asked := Elems(x.temp) - {n}))
    case Join(n, m) => Put(s, n, x.(joins := x.joins + {m}))
    case Check(n, late) => Put(s, n, Checked(s.quorum, x, late))
    case Change(n, phase) => Put(s, n, x.(phase := phase))
  }

  ghost predicate Possible(s: Cluster, run: seq<Step>)
    decreases |run|
  {
    run == [] || (Enabled(s, run[0]) && Possible(Next(s, run[0]), run[1..]))
  }

  ghost function After(s: Cluster, run: seq<Step>): Cluster
    requires Possible(s, run)
    decreases |run|
  {
    if run == [] then s else After(Next(s, run[0]), run[1..])
  }

  function Start(quorum: nat, split: bool, names: set<string>): Cluster {
    Cluster(quorum, split, map n | n in names :: FRESH, {})
  }

  // ---- invariant

  ghost predicate NodeOk(quorum: nat, n: string, x: Node) {
    && (quorum > 1 ==> x.pending == None)
    && (quorum > 1 && (x.phase == TempMaster || x.inviting) ==> |x.temp| >= quorum)
    && (x.inviting ==> n in x.joins && x.joins <= x.asked + {n})
    && (x.phase == Elected ==> Quorate(quorum, n, x))
  }

  /** A master joined its own invitation, with enough nodes it had asked. */
  ghost predicate Quorate(quorum: nat, n: string, x: Node) {
    n in x.won && x.won <= x.asked + {n} && |x.won| >= quorum
  }

  ghost predicate Good(s: Cluster) {
    && (s.split ==> s.quorum <= 1)
    && (forall m :: m in s.sent ==> |m.1| >= s.quorum)
    && (forall n :: n in s.nodes ==> NodeOk(s.quorum, n, s.nodes[n]))
  }

  lemma PutGood(s: Cluster, n: string, x: Node)
    requires Good(s) && n in s.nodes && NodeOk(s.quorum, n, x)
    ensures Good(Put(s, n, x))
  {
    hide NodeOk;
  }

  lemma BecameOk(s: Cluster, n: string, x: Node, candidates: seq<string>)
    requires (s.split ==> s.quorum <= 1) && NodeOk(s.quorum, n, x) && |candidates| >= s.quorum
    ensures NodeOk(s.quorum, n, Became(s, x, candidates))
  {
    hide Quorate;
  }

  lemma CheckedOk(quorum: nat, n: string, x: Node, late: bool)
    requires NodeOk(quorum, n, x) && x.inviting
    ensures NodeOk(quorum, n, Checked(quorum, x, late))
  {
    assert |{n}| <= |x.joins| by { SubsetCard({n}, x.joins); }
  }

  lemma StepGood(s: Cluster, step: Step)
    requires Good(s) && Enabled(s, step)
    ensures Good(Next(s, step))
  {
    var n, x := step.n, s.nodes[step.n];
    assert NodeOk(s.quorum, n, x);
    match step
    case Begin(_) => PutGood(s, n, x.(electing := true));
    case GiveUp(_) => PutGood(s, n, x.(electing := false));
    case Elect(_, candidates, _, _) =>
      BecameOk(s, n, x.(electing := false), candidates);
      hide NodeOk, Became;
      PutGood(s, n, Became(s, x.(electing := false), candidates));
      PutGood(s, n, x.(electing := false));
    case Receive(_, candidates) => BecameOk(s, n, x, candidates); PutGood(s, n, Became(s, x, candidates));
    case Write(_) => PutGood(s, n, x.(temp := x.pending.value, pending := None));
    case Invite(_) => PutGood(s, n, x.(inviting := true, joins := {n}, asked := Elems(x.temp) - {n}));
    case Join(_, m) => PutGood(s, n, x.(joins := x.joins + {m}));
    case Check(_, late) => CheckedOk(s.quorum, n, x, late); PutGood(s, n, Checked(s.quorum, x, late));
    case Change(_, phase) => PutGood(s, n, x.(phase := phase));
  }

  lemma {:induction false} RunGood(s: Cluster, run: seq<Step>)
    requires Good(s) && Possible(s, run)
    ensures Good(After(s, run)) && After(s, run).quorum == s.quorum
    decreases |run|
  {
    if run != [] {
      StepGood(s, run[0]);
      RunGood(Next(s, run[0]), run[1..]);
    }
  }

  ghost predicate MastersQuorate(s: Cluster) {
    forall n :: n in s.nodes && s.nodes[n].phase == Elected ==> Quorate(s.quorum, n, s.nodes[n])
  }

  /** Every master of every run has its quorum of joins, itself included, unless lists are written late. */
  lemma Quorum(quorum: nat, split: bool, names: set<string>, run: seq<Step>)
    requires split ==> quorum <= 1
    requires Possible(Start(quorum, split, names), run)
    ensures MastersQuorate(After(Start(quorum, split, names), run))
  {
    RunGood(Start(quorum, split, names), run);
    var s := After(Start(quorum, split, names), run);
    assert forall n :: n in s.nodes ==> NodeOk(s.quorum, n, s.nodes[n]);
  }

  // ---- when handlers are not atomic

  function Names(k: nat): seq<string> { seq(k, i requires 0 <= i => seq(i + 1, _ => 'a')) }

  lemma OneStep(s: Cluster, a: Step, rest: seq<Step>)
    requires Enabled(s, a) && Possible(Next(s, a), rest)
    ensures Possible(s, [a] + rest) && After(s, [a] + rest) == After(Next(s, a), rest)
  {
    assert ([a] + rest)[1..] == rest;
  }

  lemma NamesFacts(k: nat)
    ensures Distinct(Names(k)) && |Elems(Names(k))| == |Names(k)| == k
    ensures k > 0 ==> "a" in Names(k)
  {
    assert forall i :: 0 <= i < k ==> |Names(k)[i]| == i + 1;
    DistinctCard(Names(k));
    if k > 0 {
      assert Names(k)[0] == "a";
    }
  }

  lemma PutTwice(s: Cluster, n: string, x: Node, y: Node)
    ensures Put(Put(s, n, x), n, y) == Put(s, n, y)
  {
  }

  /** A vote of everybody for the first node, which then has a list it has not written. */
  lemma Elects(s: Cluster, list: seq<string>) returns (run: seq<Step>)
    requires s.split && Distinct(list) && Elems(list) <= s.nodes.Keys && |list| >= s.quorum && |Elems(list)| >= s.quorum
    requires "a" in list && s.nodes["a"] == FRESH
    ensures Possible(s, run) && After(s, run) == Put(s, "a", FRESH.(phase := TempMaster, pending := Some(list)))
  {
    assert "a" in Elems(list);
    var x1 := FRESH.(phase := Candidate);
    var x2 := x1.(electing := true);
    var x3 := x1.(phase := TempMaster, pending := Some(list));
    PutTwice(s, "a", x1, x2);
    PutTwice(s, "a", x2, x3);
    var s1, s2, s3 := Put(s, "a", x1), Put(s, "a", x2), Put(s, "a", x3);
    var change, elect := Change("a", Candidate), Elect("a", list, Elems(list), "a");
    assert s2.nodes.Keys == s.nodes.Keys;
    hide Elems;
    assert Enabled(s, change) && Next(s, change) == s1;
    assert Enabled(s1, Begin("a")) && Next(s1, Begin("a")) == s2;
    assert Enabled(s2, elect) && Next(s2, elect) == s3;
    hide Next, Enabled, Put;
    OneStep(s2, elect, []);
    OneStep(s1, Begin("a"), [elect] + []);
    OneStep(s, change, [Begin("a")] + ([elect] + []));
    run := [change] + ([Begin("a")] + ([elect] + []));
  }

  /** Its own join makes the empty list complete. */
  lemma Crowns(s: Cluster, n: string, x: Node) returns (run: seq<Step>)
    requires n in s.nodes && s.nodes[n] == x && x.phase == TempMaster && !x.inviting && x.temp == []
    ensures Possible(s, run) && After(s, run) == Put(s, n, Won(x.(inviting := true, joins := {n}, asked := {})))
  {
    var y := x.(inviting := true, joins := {n}, asked := {});
    assert Elems(x.temp) - {n} == {};
    PutTwice(s, n, y, Won(y));
    var s1, check := Put(s, n, y), Check(n, false);
    assert Enabled(s, Invite(n)) && Next(s, Invite(n)) == s1;
    assert Enabled(s1, check) && Next(s1, check) == Put(s, n, Won(y));
    hide Next, Enabled, Put;
    OneStep(s1, check, []);
    OneStep(s, Invite(n), [check] + []);
    run := [Invite(n)] + ([check] + []);
  }

  lemma {:induction false} RunThenRun(s: Cluster, a: seq<Step>, b: seq<Step>)
    requires Possible(s, a) && Possible(After(s, a), b)
    ensures Possible(s, a + b) && After(s, a + b) == After(After(s, a), b)
    decreases |a|
  {
    if a == [] {
      assert a + b == b;
    } else {
      RunThenRun(Next(s, a[0]), a[1..], b);
      OneStep(s, a[0], a[1..] + b);
      assert a + b == [a[0]] + (a[1..] + b);
    }
  }

  /**
    In a cluster of just enough nodes, all of them candidates and all of them voting: seen as
    temporary master before its list is written, a node finds everyone joined and becomes master alone.
    */
  lemma AloneWhenSplit(quorum: nat) returns (run: seq<Step>)
    requires quorum >= 2
    ensures var s := Start(quorum, true, Elems(Names(quorum))); Possible(s, run) && !MastersQuorate(After(s, run))
  {
    var list := Names(quorum);
    NamesFacts(quorum);
    var s := Start(quorum, true, Elems(list));
    assert s.nodes.Keys == Elems(list) && s.nodes["a"] == FRESH;
    var x := FRESH.(phase := TempMaster, pending := Some(list));
    hide Names, Elems, Start, Possible, After;
    var first := Elects(s, list);
    var t := Put(s, "a", x);
    var second := Crowns(t, "a", x);
    RunThenRun(s, first, second);
    run := first + second;
    var z := After(s, run);
    assert z.nodes["a"].phase == Elected && z.nodes["a"].won == {"a"} && z.quorum == quorum;
    assert !Quorate(quorum, "a", z.nodes["a"]);
  }

  ghost predicate AlwaysQuorate(quorum: nat, split: bool) {
    forall names, run :: Possible(Start(quorum, split, names), run) ==> MastersQuorate(After(Start(quorum, split, names), run))
  }

  /** Atomic handlers are what the quorum rests on, as soon as it asks for more than the node itself. */
  lemma QuorumIff(quorum: nat, split: bool)
    ensures AlwaysQuorate(quorum, split) <==> (split ==> quorum <= 1)
  {
    if split ==> quorum <= 1 {
      forall names, run | Possible(Start(quorum, split, names), run)
        ensures MastersQuorate(After(Start(quorum, split, names), run))
      {
        Quorum(quorum, split, names, run);
      }
    } else {
      var run := AloneWhenSplit(quorum);
    }
  }

  // ---- what each handler does

  ghost predicate OnlyAt(s: Cluster, t: Cluster, n: string) {
    && t.quorum == s.quorum && t.split == s.split && t.nodes.Keys == s.nodes.Keys
    && forall m :: m in s.nodes && m != n ==> t.nodes[m] == s.nodes[m]
  }

  ghost predicate SameInvitation(x: Node, y: Node) {
    y.inviting == x.inviting && y.asked == x.asked && y.joins == x.joins && y.won == x.won
  }

  ghost predicate SameLists(x: Node, y: Node) { y.temp == x.temp && y.pending == x.pending }

  /** A node that is handed a list takes it with the role, unless it has the role or is master. */
  ghost predicate TakesRole(split: bool, x: Node, y: Node, candidates: seq<string>) {
    if x.phase in {Other, Candidate} then
      && y.phase == TempMaster
      && if split then y.pending == Some(candidates) && y.temp == x.temp else y.temp == candidates && y.pending == x.pending
    else y.phase == x.phase && SameLists(x, y)
  }

  /** A full house makes a master at any time, the quorum at the end; with less than that the node is a candidate again. */
  ghost predicate CheckSays(quorum: nat, x: Node, y: Node, late: bool) {
    && y.asked == x.asked && y.joins == x.joins
    && if (if late then |x.joins| >= quorum else |x.temp| <= |x.joins|) then y.phase == Elected && y.won == x.joins && !y.inviting
       else y.won == x.won && if late then y.phase == Candidate && !y.inviting else y.phase == x.phase && y.inviting == x.inviting
  }

  ghost predicate Says(s: Cluster, step: Step, t: Cluster)
    requires step.n in s.nodes && step.n in t.nodes
  {
    var x, y := s.nodes[step.n], t.nodes[step.n];
    && OnlyAt(s, t, step.n)
    && match step
       case Begin(_) => y.electing && y.phase == x.phase && SameInvitation(x, y) && SameLists(x, y) && t.sent == s.sent
       case GiveUp(_) => !y.electing && y.phase == x.phase && SameInvitation(x, y) && SameLists(x, y) && t.sent == s.sent
       case Elect(n, candidates, _, to) =>
         && !y.electing && SameInvitation(x, y)
         && if to == n then TakesRole(s.split, x, y, candidates) && t.sent == s.sent
            else y.phase == x.phase && SameLists(x, y) && t.sent == s.sent + {(to, candidates)}
       case Receive(_, candidates) =>
         y.electing == x.electing && SameInvitation(x, y) && TakesRole(s.split, x, y, candidates) && t.sent == s.sent
       case Write(_) =>
         && y.electing == x.electing && SameInvitation(x, y) && y.phase == x.phase && t.sent == s.sent
         && x.pending == Some(y.temp) && y.pending == None
       case Invite(n) =>
         && y.electing == x.electing && y.phase == x.phase && SameLists(x, y) && t.sent == s.sent
         && y.inviting && y.joins == {n} && y.won == x.won && forall m :: m in y.asked <==> m in x.temp && m != n
       case Join(_, m) =>
         && y.electing == x.electing && y.phase == x.phase && SameLists(x, y) && t.sent == s.sent
         && y.inviting && y.joins == x.joins + {m} && y.won == x.won && y.asked == x.asked
       case Check(_, late) => y.electing == x.electing && SameLists(x, y) && t.sent == s.sent && CheckSays(s.quorum, x, y, late)
       case Change(_, phase) => y.electing == x.electing && SameLists(x, y) && t.sent == s.sent && SameInvitation(x, y) && y.phase == phase
  }

  lemma StepSays(s: Cluster, step: Step)
    requires Enabled(s, step)
    ensures step.n in Next(s, step).nodes && Says(s, step, Next(s, step))
  {
  }

  function Joins(n: string, order: seq<string>): seq<Step> { seq(|order|, i requires 0 <= i < |order| => Join(n, order[i])) }

  lemma {:induction false} JoinsAll(s: Cluster, n: string, order: seq<string>)
    requires n in s.nodes && s.nodes[n].inviting && Elems(order) <= s.nodes[n].asked
    ensures var x := s.nodes[n];
      Possible(s, Joins(n, order)) && After(s, Joins(n, order)) == Put(s, n, x.(joins := x.joins + Elems(order)))
    decreases |order|
  {
    var x := s.nodes[n];
    if order == [] {
      assert x.joins + Elems(order) == x.joins;
      assert Put(s, n, x) == s;
    } else {
      var first, rest := Join(n, order[0]), order[1..];
      var y := x.(joins := x.joins + {order[0]});
      assert order[0] in Elems(order);
      assert Elems(order) == {order[0]} + Elems(rest);
      assert y.joins + Elems(rest) == x.joins + Elems(order);
      JoinsAll(Put(s, n, y), n, rest);
      PutTwice(s, n, y, x.(joins := x.joins + Elems(order)));
      assert Next(s, first) == Put(s, n, y);
      hide Next, Put, Elems;
      OneStep(s, first, Joins(n, rest));
      assert Joins(n, order) == [first] + Joins(n, rest);
    }
  }

  /**
    A whole invitation: whoever joins, in whatever order and however often, the temporary master is
    elected exactly when all of its list joined, or at the end the quorum did, itself counted.
    */
  lemma InvitationEnds(s: Cluster, n: string, order: seq<string>, late: bool)
    requires n in s.nodes && s.nodes[n].phase == TempMaster && !s.nodes[n].inviting
    requires forall m :: m in order ==> m in s.nodes[n].temp && m != n
    ensures var run := [Invite(n)] + (Joins(n, order) + [Check(n, late)]); var joined := Elems(order) + {n};
      && Possible(s, run) && OnlyAt(s, After(s, run), n)
      && var y := After(s, run).nodes[n];
         if (if late then |joined| >= s.quorum else |s.nodes[n].temp| <= |joined|) then y.phase == Elected && y.won == joined && !y.inviting
         else if late then y.phase == Candidate && !y.inviting else y.phase == TempMaster && y.inviting && y.joins == joined
  {
    var x, check := s.nodes[n], Check(n, late);
    var x1 := x.(inviting := true, joins := {n}, asked := Elems(x.temp) - {n});
    var x2 := x1.(joins := {n} + Elems(order));
    var s1 := Put(s, n, x1);
    var s2 := Put(s, n, x2);
    assert {n} + Elems(order) == Elems(order) + {n};
    PutTwice(s, n, x1, x2);
    assert Next(s, Invite(n)) == s1;
    JoinsAll(s1, n, order);
    assert Enabled(s2, check);
    StepSays(s2, check);
    assert OnlyAt(s, Next(s2, check), n);
    hide Next, Put, Elems;
    assert After(Next(s2, check), []) == Next(s2, check);
    OneStep(s2, check, []);
    assert [check] + [] == [check];
    RunThenRun(s1, Joins(n, order), [check]);
    OneStep(s, Invite(n), Joins(n, order) + [check]);
  }

  /** A vote won for another node reaches it, and makes it temporary master with that list unless it is more already. */
  lemma HandsOver(s: Cluster, n: string, candidates: seq<string>, votes: set<string>, to: string)
    requires Enabled(s, Elect(n, candidates, votes, to)) && to != n
    ensures var run := [Elect(n, candidates, votes, to)] + ([Receive(to, candidates)] + []);
      && Possible(s, run) && to in s.nodes && to in After(s, run).nodes
      && TakesRole(s.split, s.nodes[to], After(s, run).nodes[to], candidates)
  {
    var elect, receive := Elect(n, candidates, votes, to), Receive(to, candidates);
    var t := Next(s, elect);
    assert to in Elems(candidates);
    assert Enabled(t, receive) && t.nodes[to] == s.nodes[to] && t.split == s.split;
    StepSays(t, receive);
    assert After(Next(t, receive), []) == Next(t, receive);
    hide Next, Enabled, Possible, TakesRole;
    assert Possible(Next(t, receive), []) by { EmptyPossible(Next(t, receive)); }
    OneStep(t, receive, []);
    OneStep(s, elect, [receive] + []);
  }

  lemma EmptyPossible(s: Cluster)
    ensures Possible(s, [])
  {
  }
}
