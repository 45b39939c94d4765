/** Exactly when the elections a node wins agree with those of every honest node. */
module VoteSplits {
  import opened Words
  import opened Election

  // ---- views to build clusters from

  /** A view in which all of these are active and eligible, and nobody is flagged. */
  function Seen(s: set<string>): Nodes { map n | n in s :: Peer(true, false, Eligible) }

  /** It proposes and supports the least of them and itself, and asks all of them. */
  lemma SeenVotes(n: string, s: set<string>, least: string)
    requires IsLeast(s + {n}, least)
    ensures Proposes(n, Seen(s), least) && Supports(n, Seen(s), least) && Honest(n, Seen(s))
    ensures Candidates(n, Seen(s)) == s + {n}
  {
    PlainHonest(n, Seen(s));
    assert Masters(Seen(s)) == {} && Candidates(n, Seen(s)) == s + {n};
  }

  lemma {:induction false} PrefixLess(a: string, b: string)
    requires b != ""
    ensures NameLess(a, a + b)
  {
    if a != "" {
      assert (a + b)[1..] == a[1..] + b;
      PrefixLess(a[1..], b);
    }
  }

  lemma {:induction false} LongerThanAll(s: set<string>) returns (m: nat)
    ensures forall y :: y in s ==> |y| < m
    decreases |s|
  {
    m := 0;
    if s != {} {
      var x :| x in s;
      m := LongerThanAll(s - {x});
      m := if |x| < m then m else |x| + 1;
    }
  }

  /** A new name after a given one. */
  lemma NameAfter(a: string, s: set<string>) returns (z: string)
    ensures NameLess(a, z) && z != a && z !in s
  {
    var m := LongerThanAll(s + {a});
    var tail := seq(m + 1, _ => 'a');
    z := a + tail;
    PrefixLess(a, tail);
  }

  /** Sorted by support: a node that is not before another can stand behind it. */
  predicate NotBefore(v: string, x: string) { v == x || NameLess(x, v) }

  lemma SupportsNotBefore(v: string, nodes: Nodes, x: string)
    requires Supports(v, nodes, x)
    ensures NotBefore(v, x)
  {
  }

  lemma OrderedBy(least: string, x: string, v: string)
    requires NotBefore(x, least) && x != least && NotBefore(v, x)
    ensures NotBefore(v, least) && v != least
  {
    NameLessOrder(least, x, v);
    NameLessOrder(least, x, least);
  }

  /** What a node supports is not after what it proposes. */
  lemma LeastFirst(me: string, nodes: Nodes, x: string, least: string)
    requires Proposes(me, nodes, x) && Supports(me, nodes, least)
    ensures NotBefore(x, least)
  {
    assert Choices(me, nodes) <= Alive(me, nodes);
  }

  // ---- a cluster that splits

  /** One half sees only the proposal, the other half and this node itself all see each other. */
  function SplitViews(me: string, nodes: Nodes, x: string, half: set<string>, rest: set<string>): Views {
    map n | n in {me} + half + rest :: if n == me then nodes else if n in half then Seen({x}) else Seen(rest + {me})
  }

  /** What makes such a split possible. */
  ghost predicate Halves(me: string, nodes: Nodes, x: string, least: string, half: set<string>, rest: set<string>) {
    && me !in half && me !in rest && half !! rest && |half| == |rest|
    && |Candidates(me, nodes)| > |half|
    && (forall v :: v in half ==> Asks(me, nodes, v) && NotBefore(v, x))
    && IsLeast(rest + {me}, least)
  }

  lemma SplitSize(me: string, half: set<string>, rest: set<string>)
    requires me !in half && me !in rest && half !! rest
    ensures |{me} + half + rest| == 1 + |half| + |rest| && |half + {me}| == |half| + 1 && |rest + {me}| == |rest| + 1
  {
    assert {me} + half == half + {me};
  }

  lemma SplitAt(me: string, nodes: Nodes, x: string, half: set<string>, rest: set<string>)
    requires me !in half && me !in rest && half !! rest
    ensures var views := SplitViews(me, nodes, x, half, rest);
      && views.Keys == {me} + half + rest && views[me] == nodes
      && (forall v :: v in half ==> views[v] == Seen({x}))
      && (forall v :: v in rest ==> views[v] == Seen(rest + {me}))
  {
    hide Seen;
  }

  lemma SplitCount(me: string, nodes: Nodes, x: string, half: set<string>, rest: set<string>)
    requires me !in half && me !in rest && half !! rest
    ensures |SplitViews(me, nodes, x, half, rest)| == 1 + |half| + |rest|
  {
    SplitAt(me, nodes, x, half, rest);
    hide SplitViews, Seen;
    var views := SplitViews(me, nodes, x, half, rest);
    assert |views| == |views.Keys|;
    SplitSize(me, half, rest);
  }

  lemma HalfVotes(v: string, x: string)
    requires NotBefore(v, x)
    ensures Supports(v, Seen({x}), x)
  {
    assert IsLeast({x} + {v}, x);
    SeenVotes(v, {x}, x);
  }

  /** The first half and this node elect its proposal. */
  lemma FirstHalfWins(me: string, nodes: Nodes, x: string, least: string, half: set<string>, rest: set<string>)
    requires Proposes(me, nodes, x) && Halves(me, nodes, x, least, half, rest)
    ensures Wins(SplitViews(me, nodes, x, half, rest), |half| + 1, me, x, half + {me})
  {
    hide Proposes, Supports, Asks, NotBefore, Candidates, Seen, SplitViews, IsLeast;
    SplitSize(me, half, rest);
    SplitAt(me, nodes, x, half, rest);
    forall v | v in half
      ensures Supports(v, Seen({x}), x)
    {
      HalfVotes(v, x);
    }
  }

  lemma RestVotes(v: string, s: set<string>, least: string)
    requires v in s && IsLeast(s, least)
    ensures Supports(v, Seen(s), least) && Proposes(v, Seen(s), least) && Honest(v, Seen(s)) && Candidates(v, Seen(s)) == s
  {
    assert s + {v} == s;
    SeenVotes(v, s, least);
  }

  /** The other half and this node elect what it supports. */
  lemma OtherHalfWins(me: string, nodes: Nodes, x: string, least: string, half: set<string>, rest: set<string>, j: string)
    requires Supports(me, nodes, least) && Halves(me, nodes, x, least, half, rest) && j in rest
    ensures Wins(SplitViews(me, nodes, x, half, rest), |half| + 1, j, least, rest + {me})
    ensures Honest(j, Seen(rest + {me}))
  {
    hide Proposes, Supports, NotBefore, Candidates, Seen, SplitViews, IsLeast, Honest, IsGreatest, VotingOnlys;
    SplitSize(me, half, rest);
    SplitAt(me, nodes, x, half, rest);
    forall v | v in rest
      ensures Supports(v, Seen(rest + {me}), least)
    {
      RestVotes(v, rest + {me}, least);
    }
    RestVotes(j, rest + {me}, least);
  }

  /** Both with the same quorum, which is more than half of the cluster. */
  lemma SplitWins(me: string, nodes: Nodes, x: string, least: string, half: set<string>, rest: set<string>, j: string)
    requires Proposes(me, nodes, x) && Supports(me, nodes, least) && Halves(me, nodes, x, least, half, rest) && j in rest
    ensures var views := SplitViews(me, nodes, x, half, rest);
      && BothWin(views, |half| + 1, me, x, half + {me}, j, least, rest + {me})
      && views[me] == nodes && Honest(j, views[j])
  {
    hide Wins, Honest, Proposes, Supports, Seen, SplitViews, Halves;
    FirstHalfWins(me, nodes, x, least, half, rest);
    OtherHalfWins(me, nodes, x, least, half, rest, j);
    assert me !in half && me !in rest && half !! rest && |half| == |rest| by { HalvesApart(me, nodes, x, least, half, rest); }
    SplitAt(me, nodes, x, half, rest);
    SplitCount(me, nodes, x, half, rest);
  }

  lemma HalvesApart(me: string, nodes: Nodes, x: string, least: string, half: set<string>, rest: set<string>)
    requires Halves(me, nodes, x, least, half, rest)
    ensures me !in half && me !in rest && half !! rest && |half| == |rest|
  {
  }

  // ---- in any cluster

  /** Whatever the cluster looks like, an election won by this node agrees with every one won by an honest node. */
  ghost predicate AlwaysAgrees(me: string, nodes: Nodes) {
    forall views: Views, quorum, x, votes, j, y, others ::
      BothWin(views, quorum, me, x, votes, j, y, others) && views[me] == nodes && Honest(j, views[j]) ==> x == y
  }

  /** Somebody else could vote for the proposal: asked, and not before it in name order. */
  ghost predicate Backable(me: string, nodes: Nodes, x: string) {
    |Candidates(me, nodes)| >= 2 && exists v :: v != me && Asks(me, nodes, v) && NotBefore(v, x)
  }

  lemma SomebodyElse(s: set<string>, me: string)
    requires |s| >= 2
    ensures exists v :: v in s && v != me
  {
    if forall v :: v in s ==> v == me {
      SubsetCard(s, {me});
    }
  }

  /** A win with more than one vote has a backer; a quorum of one is a majority of one node only. */
  lemma BackedOrAlone(views: Views, quorum: nat, me: string, x: string, votes: set<string>)
    requires Wins(views, quorum, me, x, votes) && 2 * quorum > |views|
    ensures Backable(me, views[me], x) || views.Keys == {me}
  {
    hide Proposes, Asks, Supports;
    if quorum >= 2 {
      SomebodyElse(votes, me);
      var v :| v in votes && v != me;
      SupportsNotBefore(v, views[v], x);
    } else {
      assert |views.Keys| == |views| <= 1;
      SubsetCard({me}, views.Keys);
      assert |views.Keys - {me}| == 0;
    }
  }

  lemma PairHalves(me: string, nodes: Nodes, x: string, least: string, v: string, j: string)
    requires v != me && j != me && v != j && |Candidates(me, nodes)| >= 2
    requires Asks(me, nodes, v) && NotBefore(v, x)
    requires (least == j && NotBefore(me, j)) || (least == me && NotBefore(j, me))
    ensures Halves(me, nodes, x, least, {v}, {j})
  {
    hide Asks, Candidates;
    assert {j} + {me} == {j, me} && |{v}| == |{j}| == 1;
  }

  lemma ThreeSplit(me: string, nodes: Nodes, x: string, least: string, v: string)
    requires Proposes(me, nodes, x) && Supports(me, nodes, least) && x != least && |Candidates(me, nodes)| >= 2
    requires v != me && Asks(me, nodes, v) && NotBefore(v, x)
    ensures !AlwaysAgrees(me, nodes)
  {
    LeastFirst(me, nodes, x, least);
    OrderedBy(least, x, v);
    SupportsNotBefore(me, nodes, least);
    var j := least;
    if least == me {
      j := NameAfter(me, {v});
    }
    hide Proposes, Supports, Asks, Candidates, SplitViews, BothWin;
    PairHalves(me, nodes, x, least, v, j);
    hide Halves, NotBefore;
    SplitWins(me, nodes, x, least, {v}, {j}, j);
  }

  /**
    A node's won elections agree with every honest one if and only if it supports what it proposes,
    or nobody else it asks could vote for its proposal.
    */
  lemma AgreesIff(me: string, nodes: Nodes, x: string, least: string)
    requires Proposes(me, nodes, x) && Supports(me, nodes, least)
    ensures AlwaysAgrees(me, nodes) <==> x == least || !Backable(me, nodes, x)
  {
    if x == least || !Backable(me, nodes, x) {
      forall views: Views, quorum, z, votes, j, y, others |
        BothWin(views, quorum, me, z, votes, j, y, others) && views[me] == nodes && Honest(j, views[j])
        ensures z == y
      {
        LeastUnique(Choices(me, nodes), x, z);
        if x == least {
          OwnSupport(me, nodes, x);
          Agreement(views, quorum, me, z, votes, j, y, others);
        } else {
          BackedOrAlone(views, quorum, me, z, votes);
          assert j in views.Keys;
          LeastUnique(Choices(me, nodes), z, y);
        }
      }
    } else {
      var v :| v != me && Asks(me, nodes, v) && NotBefore(v, x);
      ThreeSplit(me, nodes, x, least, v);
    }
  }

  lemma OwnSupport(me: string, nodes: Nodes, x: string)
    requires Proposes(me, nodes, x) && Supports(me, nodes, x)
    ensures Honest(me, nodes)
  {
    forall z | Proposes(me, nodes, z)
      ensures z == x
    {
      LeastUnique(Choices(me, nodes), x, z);
    }
  }

  // ---- in a cluster that has every node a view knows

  ghost predicate Closed(views: Views) {
    forall v, n :: v in views && n in views[v] ==> n in views
  }

  /** The same, in every cluster in which the nodes known from configuration all count. */
  ghost predicate AgreesWhenClosed(me: string, nodes: Nodes) {
    forall views: Views, quorum, x, votes, j, y, others ::
      Closed(views) && BothWin(views, quorum, me, x, votes, j, y, others) && views[me] == nodes && Honest(j, views[j]) ==> x == y
  }

  function Known(me: string, nodes: Nodes): set<string> { nodes.Keys + {me} }

  /** Whoever else could vote for the proposal. */
  function Backers(me: string, nodes: Nodes, x: string): set<string> {
    set v | v in Known(me, nodes) && v != me && Asks(me, nodes, v) && NotBefore(v, x)
  }

  /** Candidates and backers make more than half of the known nodes, and nobody known is before the node it supports. */
  ghost predicate Splittable(me: string, nodes: Nodes, x: string, least: string) {
    && IsLeast(Known(me, nodes), least)
    && 2 * (1 + |Backers(me, nodes, x)|) > |Known(me, nodes)|
    && 2 * |Candidates(me, nodes)| > |Known(me, nodes)|
  }

  lemma AskedKnown(me: string, nodes: Nodes, v: string)
    requires Asks(me, nodes, v)
    ensures v in Known(me, nodes)
  {
  }

  /** Nobody but the node itself can vote in two elections with different outcomes. */
  lemma OneDouble(views: Views, quorum: nat, me: string, x: string, votes: set<string>, j: string, y: string, others: set<string>, v: string)
    requires BothWin(views, quorum, me, x, votes, j, y, others) && Honest(j, views[j]) && x != y
    requires v in votes && v in others
    ensures v == me && v != j
  {
    hide Asks;
    if j == me {
      LeastUnique(Choices(me, views[me]), x, y);
    } else if v != me {
      LeastUnique(Alive(v, views[v]), x, y);
    }
  }

  /** So the two elections share the node itself, and take everybody. */
  lemma Everybody(views: Views, quorum: nat, me: string, x: string, votes: set<string>, j: string, y: string, others: set<string>)
    requires BothWin(views, quorum, me, x, votes, j, y, others) && Honest(j, views[j]) && x != y
    ensures me in others && me != j && votes + others == views.Keys
  {
    assert |views| == |views.Keys|;
    assert votes <= views.Keys && others <= views.Keys && |votes| >= quorum && |others| >= quorum;
    Overlap(views.Keys, votes, others);
    var v :| v in votes && v in others;
    forall u | u in votes && u in others
      ensures u == me && u != j
    {
      OneDouble(views, quorum, me, x, votes, j, y, others, u);
    }
    hide BothWin, Honest;
    FullUnion(views.Keys, votes, others, me);
  }

  lemma FullUnion(all: set<string>, a: set<string>, b: set<string>, me: string)
    requires a <= all && b <= all && |a| + |b| > |all|
    requires forall u :: u in a && u in b ==> u == me
    ensures a + b == all
  {
    assert a * b <= {me};
    SubsetCard(a * b, {me});
    assert |a + b| + |a * b| == |a| + |b|;
    if x :| x in all && x !in a + b {
      assert a + b <= all - {x};
      SubsetCard(a + b, all - {x});
    }
  }

  /** Two elections of a closed cluster with different outcomes need a splittable view. */
  lemma SplitNeeds(views: Views, quorum: nat, me: string, x: string, votes: set<string>, j: string, y: string, others: set<string>, least: string)
    requires Closed(views) && BothWin(views, quorum, me, x, votes, j, y, others) && Honest(j, views[j]) && x != y
    requires Supports(me, views[me], least)
    ensures Splittable(me, views[me], x, least)
  {
    var nodes := views[me];
    Everybody(views, quorum, me, x, votes, j, y, others);
    LeastUnique(Alive(me, nodes), y, least);
    LeastFirst(me, nodes, x, least);
    forall v | v in Known(me, nodes)
      ensures NotBefore(v, least)
    {
      assert v in views;
      if v in votes && v != me {
        SupportsNotBefore(v, views[v], x);
        OrderedBy(least, x, v);
      } else {
        assert Supports(v, views[v], least);
        SupportsNotBefore(v, views[v], least);
      }
    }
    BackersVote(views, quorum, me, x, votes);
    KnownFits(views, me);
  }

  lemma BackersVote(views: Views, quorum: nat, me: string, x: string, votes: set<string>)
    requires Wins(views, quorum, me, x, votes)
    ensures 1 + |Backers(me, views[me], x)| >= quorum
  {
    forall v | v in votes - {me}
      ensures v in Backers(me, views[me], x)
    {
      SupportsNotBefore(v, views[v], x);
      AskedKnown(me, views[me], v);
    }
    SubsetCard(votes - {me}, Backers(me, views[me], x));
  }

  lemma KnownFits(views: Views, me: string)
    requires Closed(views) && me in views
    ensures |Known(me, views[me])| <= |views|
  {
    assert |views| == |views.Keys|;
    SubsetCard(Known(me, views[me]), views.Keys);
  }

  lemma {:induction false} SomeOf(s: set<string>, k: nat) returns (a: set<string>)
    requires k <= |s|
    ensures a <= s && |a| == k
    decreases k
  {
    a := {};
    if k > 0 {
      var x :| x in s;
      a := SomeOf(s - {x}, k - 1);
      a := a + {x};
    }
  }

  /** The known nodes, with one more if that makes their number odd. */
  lemma OddCluster(me: string, nodes: Nodes, least: string) returns (all: set<string>)
    requires IsLeast(Known(me, nodes), least)
    ensures Known(me, nodes) <= all && |all| == 2 * (|Known(me, nodes)| / 2) + 1 && IsLeast(all, least)
  {
    all := Known(me, nodes);
    if |all| % 2 == 0 {
      var z := NameAfter(least, all);
      all := all + {z};
    }
  }

  lemma TheRest(all: set<string>, half: set<string>, me: string, least: string)
    requires half <= all && me in all && me !in half && |all| == 2 * |half| + 1 && IsLeast(all, least) && least !in half
    ensures var rest := all - half - {me};
      me !in rest && half !! rest && |rest| == |half| && IsLeast(rest + {me}, least) && {me} + half + rest == all
  {
    var rest := all - half - {me};
    assert rest == all - (half + {me}) && half + {me} <= all;
    assert |half + {me}| == |half| + 1;
    assert least in rest + {me};
  }

  lemma ClosedHalves(me: string, nodes: Nodes, x: string, least: string) returns (half: set<string>, rest: set<string>)
    requires Proposes(me, nodes, x) && Supports(me, nodes, least) && x != least && Splittable(me, nodes, x, least)
    ensures Halves(me, nodes, x, least, half, rest) && rest != {} && Known(me, nodes) <= {me} + half + rest
  {
    LeastFirst(me, nodes, x, least);
    ProposedKnown(me, nodes, x);
    TwoKnown(Known(me, nodes), x, least);
    half := SomeOf(Backers(me, nodes, x), |Known(me, nodes)| / 2);
    assert forall v :: v in half ==> v in Known(me, nodes) && v != me && Asks(me, nodes, v) && NotBefore(v, x);
    hide Proposes, Supports, Asks, Candidates, Backers, NotBefore, IsLeast;
    var all := OddCluster(me, nodes, least);
    forall v | v in half
      ensures v != least
    {
      OrderedBy(least, x, v);
    }
    TheRest(all, half, me, least);
    rest := all - half - {me};
  }

  lemma ProposedKnown(me: string, nodes: Nodes, x: string)
    requires Proposes(me, nodes, x)
    ensures x in Known(me, nodes)
  {
  }

  lemma TwoKnown(s: set<string>, x: string, y: string)
    requires x in s && y in s && x != y
    ensures |s| >= 2
  {
    assert |{x, y}| == 2;
    SubsetCard({x, y}, s);
  }

  lemma SplitClosed(me: string, nodes: Nodes, x: string, half: set<string>, rest: set<string>)
    requires me !in half && me !in rest && half !! rest && Known(me, nodes) <= {me} + half + rest && x in Known(me, nodes)
    ensures Closed(SplitViews(me, nodes, x, half, rest))
  {
    SplitAt(me, nodes, x, half, rest);
    assert Seen({x}).Keys == {x} && Seen(rest + {me}).Keys == rest + {me};
    hide SplitViews, Seen;
  }

  /** A splittable view splits a closed cluster, of the known nodes and at most one more. */
  lemma ClosedSplit(me: string, nodes: Nodes, x: string, least: string)
    requires Proposes(me, nodes, x) && Supports(me, nodes, least) && x != least && Splittable(me, nodes, x, least)
    ensures !AgreesWhenClosed(me, nodes)
  {
    var half, rest := ClosedHalves(me, nodes, x, least);
    var j :| j in rest;
    ProposedKnown(me, nodes, x);
    hide Proposes, Supports, Splittable, SplitViews, BothWin, Honest, Closed, Known, Halves, Seen;
    HalvesApart(me, nodes, x, least, half, rest);
    SplitClosed(me, nodes, x, half, rest);
    SplitWins(me, nodes, x, least, half, rest, j);
  }

  /**
    With every known node in the cluster, a node's won elections agree with every honest one if and
    only if it supports what it proposes, or a known node is before the one it supports, or its
    candidates or the possible backers of its proposal are no more than half of the known nodes.
    */
  lemma ClosedAgreesIff(me: string, nodes: Nodes, x: string, least: string)
    requires Proposes(me, nodes, x) && Supports(me, nodes, least)
    ensures AgreesWhenClosed(me, nodes) <==> x == least || !Splittable(me, nodes, x, least)
  {
    if x == least || !Splittable(me, nodes, x, least) {
      forall views: Views, quorum, z, votes, j, y, others |
        Closed(views) && BothWin(views, quorum, me, z, votes, j, y, others) && views[me] == nodes && Honest(j, views[j])
        ensures z == y
      {
        LeastUnique(Choices(me, nodes), x, z);
        if x == least {
          OwnSupport(me, nodes, x);
          Agreement(views, quorum, me, z, votes, j, y, others);
        } else if z != y {
          SplitNeeds(views, quorum, me, z, votes, j, y, others, least);
        }
      }
    } else {
      ClosedSplit(me, nodes, x, least);
    }
  }
}
