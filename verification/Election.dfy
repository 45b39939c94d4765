/** The vote: who an initiator asks and proposes, who a voter supports, and why two successful votes agree. */
module Election {
  import opened Words

  datatype Kind = Eligible | VotingOnly
  datatype Peer = Peer(isActive: bool, isMaster: bool, kind: Kind)

  /** What a node knows about its cluster. */
  type Nodes = map<string, Peer>

  /** `voteOnlyNode` is empty when there is none. */
  datatype Collections = Collections(activeMasters: set<string>, masterCandidates: set<string>, voteOnlyNode: string)

  function Masters(nodes: Nodes): set<string> {
    set n | n in nodes && nodes[n].kind == Eligible && nodes[n].isActive && nodes[n].isMaster
  }

  function Candidates(me: string, nodes: Nodes): (s: set<string>)
    ensures me in s
  {
    (set n | n in nodes && nodes[n].kind == Eligible && nodes[n].isActive) + {me}
  }

  function VotingOnlys(nodes: Nodes): set<string> { set n | n in nodes && nodes[n].kind == VotingOnly }

  predicate IsLeast(s: set<string>, x: string) {
    x in s && forall y :: y in s ==> y == x || NameLess(x, y)
  }

  predicate IsGreatest(s: set<string>, x: string) {
    x in s && forall y :: y in s ==> y == x || NameLess(y, x)
  }

  lemma LeastUnique(s: set<string>, x: string, y: string)
    requires IsLeast(s, x) && IsLeast(s, y)
    ensures x == y
  {
    NameLessOrder(x, y, x);
  }

  /** Of the voting-only nodes the last in name order is kept, active or not. */
  predicate IsVoteOnly(nodes: Nodes, v: string) {
    if VotingOnlys(nodes) == {} then v == "" else IsGreatest(VotingOnlys(nodes), v)
  }

  /** What an initiator collects from its view. */
  predicate Collects(me: string, nodes: Nodes, c: Collections) {
    c.activeMasters == Masters(nodes) && c.masterCandidates == Candidates(me, nodes) && IsVoteOnly(nodes, c.voteOnlyNode)
  }

  /** Whom an initiator asks for a vote: the candidates and the voting-only node it kept. */
  predicate Asks(me: string, nodes: Nodes, v: string) {
    v in Candidates(me, nodes) || (v != "" && IsGreatest(VotingOnlys(nodes), v))
  }

  /** Whom it chooses from: the flagged masters, or else the candidates. */
  function Choices(me: string, nodes: Nodes): (s: set<string>)
    ensures s != {}
  {
    if Masters(nodes) != {} then Masters(nodes) else Candidates(me, nodes)
  }

  /** The node it proposes. */
  predicate Proposes(me: string, nodes: Nodes, x: string) { IsLeast(Choices(me, nodes), x) }

  function Alive(me: string, nodes: Nodes): (s: set<string>)
    ensures me in s
  {
    (set n | n in nodes && nodes[n].isActive) + {me}
  }

  /** The node a voter supports: the least active node it knows, itself included. */
  predicate Supports(me: string, nodes: Nodes, x: string) { IsLeast(Alive(me, nodes), x) }

  // ---- the code

  method Smallest(s: set<string>, start: string) returns (x: string)
    ensures IsLeast(s + {start}, x)
  {
    x := start;
    var todo := s;
    while todo != {}
      invariant todo <= s && IsLeast(s - todo + {start}, x)
      decreases todo
    {
      var n :| n in todo;
      NameLessOrder(n, x, n);
      if NameLess(n, x) {
        forall y | y in s - todo + {start}
          ensures y == n || NameLess(n, y)
        {
          NameLessOrder(n, x, y);
        }
        x := n;
      }
      todo := todo - {n};
    }
  }

  method GetSmallestNodeId(me: string, nodes: Nodes) returns (x: string)
    ensures Supports(me, nodes, x)
  {
    x := Smallest((set n | n in nodes && nodes[n].isActive), me);
  }

  method SelectTemporaryMaster(c: Collections) returns (x: string)
    requires c.masterCandidates != {}
    ensures IsLeast(if c.activeMasters != {} then c.activeMasters else c.masterCandidates, x)
  {
    var s := if c.activeMasters != {} then c.activeMasters else c.masterCandidates;
    var first :| first in s;
    x := Smallest(s, first);
    assert s + {first} == s;
  }

  /** The last voting-only node among those seen so far. */
  ghost predicate LastSeen(nodes: Nodes, seen: set<string>, v: string)
    requires seen <= nodes.Keys
  {
    if forall n :: n in seen ==> nodes[n].kind != VotingOnly then v == ""
    else v in seen && nodes[v].kind == VotingOnly && forall n :: n in seen && nodes[n].kind == VotingOnly ==> n == v || NameLess(n, v)
  }

  /** Sorts the known nodes, in name order, into candidates, flagged masters and the voting-only node. */
  method CollectNodeInfo(me: string, nodes: Nodes) returns (c: Collections)
    ensures Collects(me, nodes, c)
  {
    c := Collections({}, {}, "");
    var todo := nodes.Keys;
    while todo != {}
      invariant todo <= nodes.Keys
      invariant forall n, m :: n in nodes.Keys - todo && m in todo ==> NameLess(n, m)
      invariant forall n :: n in c.activeMasters <==> n in nodes && n !in todo && n in Masters(nodes)
      invariant forall n :: n in c.masterCandidates <==>
        n in nodes && n !in todo && nodes[n].kind == Eligible && nodes[n].isActive
      invariant LastSeen(nodes, nodes.Keys - todo, c.voteOnlyNode)
      decreases todo
    {
      var first :| first in todo;
      var n := Smallest(todo, first);
      assert todo + {first} == todo;
      if nodes[n].kind == VotingOnly {
        c := c.(voteOnlyNode := n);
      } else if nodes[n].isActive {
        c := c.(masterCandidates := c.masterCandidates + {n});
        if nodes[n].isMaster {
          c := c.(activeMasters := c.activeMasters + {n});
        }
      }
      assert nodes.Keys - (todo - {n}) == nodes.Keys - todo + {n};
      todo := todo - {n};
    }
    assert nodes.Keys - {} == nodes.Keys;
    assert c.activeMasters == Masters(nodes);
    c := c.(masterCandidates := c.masterCandidates + {me});
  }

  /** Its own vote, and the grants of those it asks. */
  function Granted(me: string, nodes: Nodes, grants: string -> bool): set<string> {
    {me} + set v | v in Candidates(me, nodes) + VotingOnlys(nodes) && v != me && Asks(me, nodes, v) && grants(v)
  }

  /** Asks everybody collected; `grants` is what comes back, false for a node that does not answer. */
  method ConductVoting(me: string, ghost nodes: Nodes, c: Collections, grants: string -> bool) returns (votes: set<string>)
    requires Collects(me, nodes, c)
    ensures votes == Granted(me, nodes, grants)
  {
    votes := {me};
    var candidates := c.masterCandidates;
    if c.voteOnlyNode != "" {
      candidates := candidates + {c.voteOnlyNode};
    }
    ghost var asked := candidates;
    OneVoteOnly(nodes, c.voteOnlyNode);
    while candidates != {}
      invariant candidates <= asked
      invariant forall v :: v in votes <==> v == me || (v in asked && v !in candidates && grants(v))
      decreases candidates
    {
      var nodeId :| nodeId in candidates;
      if nodeId != me && grants(nodeId) {
        votes := votes + {nodeId};
      }
      candidates := candidates - {nodeId};
    }
  }

  lemma OneVoteOnly(nodes: Nodes, v: string)
    requires IsVoteOnly(nodes, v)
    ensures forall n :: IsGreatest(VotingOnlys(nodes), n) ==> n == v
    ensures v != "" ==> IsGreatest(VotingOnlys(nodes), v)
  {
    forall n | IsGreatest(VotingOnlys(nodes), n)
      ensures n == v
    {
      NameLessOrder(n, v, n);
    }
  }

  /** One election: given up with too few candidates, lost with too few votes. */
  method RunElection(me: string, nodes: Nodes, quorum: nat, grants: string -> string -> bool) returns (won: Option<string>)
    ensures won.Some? ==> Proposes(me, nodes, won.value)
    ensures forall x :: Proposes(me, nodes, x) ==>
      (won == Some(x) <==> |Candidates(me, nodes)| >= quorum && |Granted(me, nodes, grants(x))| >= quorum)
  {
    var c := CollectNodeInfo(me, nodes);
    var tempMaster := SelectTemporaryMaster(c);
    forall x | Proposes(me, nodes, x)
      ensures x == tempMaster
    {
      LeastUnique(Choices(me, nodes), x, tempMaster);
    }
    if |c.masterCandidates| < quorum {
      return None;
    }
    var votes := ConductVoting(me, nodes, c, grants(tempMaster));
    won := if |votes| < quorum then None else Some(tempMaster);
  }

  // ---- agreement

  /** The views of a whole cluster, which do not change meanwhile. */
  type Views = map<string, Nodes>

  /**
    A won election: enough candidates, and enough votes, which are the initiator's own and those of
    nodes it asked and that support its proposal.
    */
  ghost predicate Wins(views: Views, quorum: nat, me: string, x: string, votes: set<string>) {
    && votes <= views.Keys && me in votes && |votes| >= quorum
    && |Candidates(me, views[me])| >= quorum
    && Proposes(me, views[me], x)
    && forall v :: v in votes && v != me ==> Asks(me, views[me], v) && Supports(v, views[v], x)
  }

  /** What a voter answers: a node that is not there grants nothing. */
  predicate Grants(views: Views, x: string, v: string) { v in views && Supports(v, views[v], x) }

  /** Won elections are exactly those the code reports as won. */
  lemma WinsIff(views: Views, quorum: nat, me: string, x: string)
    requires me in views && Proposes(me, views[me], x)
    ensures (exists votes :: Wins(views, quorum, me, x, votes)) <==>
      && |Candidates(me, views[me])| >= quorum
      && |Granted(me, views[me], (v: string) => Grants(views, x, v))| >= quorum
  {
    var all := Granted(me, views[me], (v: string) => Grants(views, x, v));
    hide Proposes, Supports;
    if |Candidates(me, views[me])| >= quorum && |all| >= quorum {
      assert Wins(views, quorum, me, x, all);
    }
    forall votes | Wins(views, quorum, me, x, votes)
      ensures |all| >= quorum
    {
      assert votes <= all;
      SubsetCard(votes, all);
    }
  }

  /** An initiator that would support its own proposal. */
  ghost predicate Honest(me: string, nodes: Nodes) {
    forall x :: Proposes(me, nodes, x) ==> Supports(me, nodes, x)
  }

  /** No node flagged as master, and no voting-only node known as active. */
  predicate Plain(nodes: Nodes) {
    forall n :: n in nodes && nodes[n].isActive ==> nodes[n].kind == Eligible && !nodes[n].isMaster
  }

  lemma PlainHonest(me: string, nodes: Nodes)
    requires Plain(nodes)
    ensures Honest(me, nodes)
  {
    assert Masters(nodes) == {};
    assert Candidates(me, nodes) == Alive(me, nodes);
  }

  /**
    An initiator supports its proposal exactly when its least active node is eligible (or itself)
    and, if it knows flagged masters, is one of them.
    */
  lemma HonestIff(me: string, nodes: Nodes, least: string)
    requires Supports(me, nodes, least)
    ensures Honest(me, nodes) <==> least in Choices(me, nodes)
  {
    var s := Choices(me, nodes);
    assert s <= Alive(me, nodes);
    if least in s {
      assert IsLeast(s, least);
      forall x | Proposes(me, nodes, x)
        ensures Supports(me, nodes, x)
      {
        LeastUnique(s, x, least);
      }
    } else {
      var x := SomeLeast(s);
      assert Proposes(me, nodes, x);
      if Supports(me, nodes, x) {
        LeastUnique(Alive(me, nodes), x, least);
      }
    }
  }

  lemma {:induction false} SomeLeast(s: set<string>) returns (x: string)
    requires s != {}
    ensures IsLeast(s, x)
    decreases |s|
  {
    var n :| n in s;
    if s - {n} == {} {
      assert s == {n};
      x := n;
    } else {
      var m := SomeLeast(s - {n});
      NameLessOrder(n, m, n);
      x := if NameLess(n, m) then n else m;
      forall y | y in s
        ensures y == x || NameLess(x, y)
      {
        NameLessOrder(n, m, y);
      }
    }
  }

  /** Two sets of more than half of a cluster have a node in common. */
  lemma Overlap(all: set<string>, a: set<string>, b: set<string>)
    requires a <= all && b <= all && |a| + |b| > |all|
    ensures exists v :: v in a && v in b
  {
    if a * b == {} {
      assert |a + b| == |a| + |b|;
      SubsetCard(a + b, all);
    } else {
      var v :| v in a * b;
    }
  }

  /** Two elections in one cluster, both won with a quorum of more than half. */
  ghost predicate BothWin(views: Views, quorum: nat, i: string, x: string, votes: set<string>,
                          j: string, y: string, others: set<string>) {
    2 * quorum > |views| && Wins(views, quorum, i, x, votes) && Wins(views, quorum, j, y, others)
  }

  /** Any two elections won with a strict majority chose the same node, whoever started them. */
  lemma Agreement(views: Views, quorum: nat, i: string, x: string, votes: set<string>, j: string, y: string, others: set<string>)
    requires BothWin(views, quorum, i, x, votes, j, y, others)
    requires Honest(i, views[i]) && Honest(j, views[j])
    ensures x == y
  {
    assert |views.Keys| == |views|;
    Overlap(views.Keys, votes, others);
    var v :| v in votes && v in others;
    hide Asks, Proposes;
    LeastUnique(Alive(v, views[v]), x, y);
  }

  /** Three nodes: a does not see b, b does not see a, and c has b flagged as master. */
  const DISPUTE: Views :=
    map["a" := map["a" := Peer(true, false, Eligible), "c" := Peer(true, false, Eligible)],
        "b" := map["a" := Peer(false, false, Eligible), "b" := Peer(true, false, Eligible)],
        "c" := map["a" := Peer(true, false, Eligible), "b" := Peer(true, true, Eligible), "c" := Peer(true, false, Eligible)]]

  lemma FirstWins()
    ensures Wins(DISPUTE, 2, "a", "a", {"a", "c"})
  {
    Three();
    hide NameLess;
    assert Alive("c", DISPUTE["c"]) == {"a", "b", "c"};
    assert Masters(DISPUTE["a"]) == {};
    assert Candidates("a", DISPUTE["a"]) == {"a", "c"};
  }

  lemma SecondWins()
    ensures Wins(DISPUTE, 2, "c", "b", {"c", "b"})
  {
    hide NameLess;
    assert Alive("b", DISPUTE["b"]) == {"b"};
    assert Masters(DISPUTE["c"]) == {"b"};
    assert Candidates("c", DISPUTE["c"]) == {"a", "b", "c"};
  }

  /** An instance: a node flagged as master makes two majorities choose differently. */
  lemma FlaggedMasterDisagrees()
    ensures exists i, x, votes, j, y, others :: BothWin(DISPUTE, 2, i, x, votes, j, y, others) && x != y
  {
    FirstWins();
    SecondWins();
    assert DISPUTE.Keys == {"a", "b", "c"};
    assert BothWin(DISPUTE, 2, "a", "a", {"a", "c"}, "c", "b", {"c", "b"});
  }

  lemma Three()
    ensures NameLess("a", "b") && NameLess("a", "c") && NameLess("b", "c")
  {
  }
}
