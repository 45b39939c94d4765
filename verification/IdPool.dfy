/**
  The memory-id pool: a fixed array of 64-word lines. Word 0 of a line is a packed head
  (used, head and tail flags in the low bits, a 32-bit index in the high half); the other
  63 words hold ids. A list of ids lives in a chain of lines linked through the heads.
  */
module IdPool {
  import opened Words

  const LINE_SIZE := 64
  const LINE_IDS := 63
  const LINE_COUNT := 32768

  type Row = r: seq<u64> | |r| == 64 witness seq(64, _ => 0)

  // ---- the packed head word

  function Pack(head: bool, tail: bool, next: u32): u64 {
    1 + (if head then 2 else 0) + (if tail then 4 else 0) + next * 0x1_0000_0000
  }
  predicate Used(w: u64) { w % 2 == 1 }
  predicate IsHead(w: u64) { w / 2 % 2 == 1 }
  predicate IsTail(w: u64) { w / 4 % 2 == 1 }
  function NextIndex(w: u64): u32 { w / 0x1_0000_0000 }

  /** Every flag and the index can be read back from the packed word. */
  lemma PackFields(head: bool, tail: bool, next: u32)
    ensures var w := Pack(head, tail, next);
      Used(w) && (IsHead(w) <==> head) && (IsTail(w) <==> tail) && NextIndex(w) == next
  {
    var h, t := if head then 1 else 0, if tail then 1 else 0;
    var w: int := Pack(head, tail, next);
    assert w == 2 * (h + 2 * (t + 2 * (next * 0x2000_0000))) + 1;
    LowBit(w, h + 2 * (t + 2 * (next * 0x2000_0000)), 1);
    LowBit(w / 2, t + 2 * (next * 0x2000_0000), h);
    LowBit(w / 2 / 2, next * 0x2000_0000, t);
    assert w / 4 == w / 2 / 2;
    assert w == next * 0x1_0000_0000 + (1 + 2 * h + 4 * t);
    assert w / 0x1_0000_0000 == next;
  }

  lemma LowBit(w: int, rest: int, bit: int)
    requires w == 2 * rest + bit && 0 <= bit < 2
    ensures w / 2 == rest && w % 2 == bit
  {
  }

  // ---- the pool as a value

  datatype Pool = Pool(lines: seq<Row>, idle: seq<nat>)

  ghost predicate Sized(m: seq<Row>) { |m| == LINE_COUNT }

  ghost predicate InRange(c: seq<nat>) {
    forall i :: 0 <= i < |c| ==> c[i] < LINE_COUNT
  }

  /** The free list is duplicate-free and is exactly the set of lines whose used bit is 0. */
  ghost predicate IdleExact(p: Pool) {
    && Sized(p.lines)
    && Distinct(p.idle)
    && InRange(p.idle)
    && forall l :: 0 <= l < LINE_COUNT ==> (l in p.idle <==> !Used(p.lines[l][0]))
  }

  /** What a well-linked chain is, independently of how it is walked. */
  ghost predicate IsChain(m: seq<Row>, c: seq<nat>)
    requires Sized(m)
  {
    && c != []
    && InRange(c)
    && Distinct(c)
    && IsHead(m[c[0]][0])
    && (forall i :: 0 <= i < |c| ==> Used(m[c[i]][0]))
    && (forall i :: 0 <= i < |c| - 1 ==> !IsTail(m[c[i]][0]) && NextIndex(m[c[i]][0]) == c[i + 1])
    && IsTail(m[c[|c| - 1]][0])
  }

  /** The traversal loop: `path` is what has been visited, its last element the current line. */
  function Walk(m: seq<Row>, path: seq<nat>): (r: Option<seq<nat>>)
    requires Sized(m) && path != [] && InRange(path)
    decreases LINE_COUNT - |path|
  {
    var w := m[path[|path| - 1]][0];
    if IsTail(w) then Some(path)
    else if |path| >= LINE_COUNT || NextIndex(w) >= LINE_COUNT then None
    else if NextIndex(w) in path then None
    else if !Used(m[NextIndex(w)][0]) then None
    else Walk(m, path + [NextIndex(w)])
  }

  function FindChain(m: seq<Row>, head: nat): (r: Option<seq<nat>>)
    requires Sized(m)
  {
    if head >= LINE_COUNT || !Used(m[head][0]) || !IsHead(m[head][0]) then None
    else Walk(m, [head])
  }

  /** The ids along a chain: 63 from every line but the last, the counted prefix of the last. */
  function Gather(m: seq<Row>, c: seq<nat>): (ids: seq<u64>)
    requires Sized(m) && c != [] && InRange(c)
    requires NextIndex(m[c[|c| - 1]][0]) < LINE_SIZE
  {
    if |c| == 1 then m[c[0]][1..NextIndex(m[c[0]][0]) + 1]
    else m[c[0]][1..] + Gather(m, c[1..])
  }

  function FillAllocated(m: seq<Row>, head: nat): (r: Option<seq<u64>>)
    requires Sized(m)
  {
    match FindChain(m, head)
    case None => None
    case Some(c) =>
      FindChainSound(m, head, c);
      if NextIndex(m[c[|c| - 1]][0]) >= LINE_SIZE then None else Some(Gather(m, c))
  }

  function ClearHeads(m: seq<Row>, c: seq<nat>): (r: seq<Row>)
    ensures |r| == |m|
  {
    seq(|m|, l requires 0 <= l < |m| => if l in c then m[l][0 := 0] else m[l])
  }

  function Release(p: Pool, head: nat): (r: (Pool, bool))
    requires Sized(p.lines)
  {
    match FindChain(p.lines, head)
    case None => (p, false)
    case Some(c) => (Pool(ClearHeads(p.lines, c), p.idle + c), true)
  }

  // ---- allocation

  function LinesNeed(n: nat): (k: nat) { (n + LINE_IDS - 1) / LINE_IDS }

  /** The lines taken from the end of the free list, last first. */
  function Taken(idle: seq<nat>, need: nat): (t: seq<nat>)
    requires need <= |idle|
  {
    seq(need, i requires 0 <= i < need => idle[|idle| - 1 - i])
  }

  /** The head word written into line `k` of a chain over `taken` holding `n` ids. */
  function HeadWord(taken: seq<nat>, n: nat, k: nat): (w: u64)
    requires k < |taken| == LinesNeed(n) && InRange(taken)
  {
    if k == |taken| - 1 then Pack(k == 0, true, n - k * LINE_IDS)
    else Pack(k == 0, false, taken[k + 1])
  }

  /** Line `k` of a new chain: its head word, its share of the ids, and what was there before. */
  function NewRow(was: Row, taken: seq<nat>, ids: seq<u64>, k: nat): (r: Row)
    requires k < |taken| == LinesNeed(|ids|) && InRange(taken)
  {
    seq(64, j requires 0 <= j < 64 =>
      if j == 0 then HeadWord(taken, |ids|, k)
      else if k * LINE_IDS + j - 1 < |ids| then ids[k * LINE_IDS + j - 1]
      else was[j])
  }

  function IndexOf(s: seq<nat>, x: nat): (i: nat)
    requires x in s
    ensures i < |s| && s[i] == x
  {
    if s[0] == x then 0 else 1 + IndexOf(s[1..], x)
  }

  function WriteChain(m: seq<Row>, taken: seq<nat>, ids: seq<u64>): (r: seq<Row>)
    requires |taken| == LinesNeed(|ids|) && InRange(taken)
    ensures |r| == |m|
  {
    seq(|m|, l requires 0 <= l < |m| =>
      if l in taken then NewRow(m[l], taken, ids, IndexOf(taken, l)) else m[l])
  }

  /** The pool after the last |taken| free lines, in the order `taken`, became a chain of `ids`. */
  function Chained(p: Pool, taken: seq<nat>, ids: seq<u64>): (q: Pool)
    requires Sized(p.lines) && |taken| == LinesNeed(|ids|) <= |p.idle| && InRange(taken)
  {
    Pool(WriteChain(p.lines, taken, ids), p.idle[..|p.idle| - |taken|])
  }

  /** Allocation either fails and changes nothing or returns the head line of a new chain. */
  function Allocate(p: Pool, ids: seq<u64>): (r: (Pool, Option<nat>))
    requires Sized(p.lines) && InRange(p.idle)
  {
    var need := LinesNeed(|ids|);
    if need == 0 || |p.idle| < need then (p, None)
    else
      var taken := Taken(p.idle, need);
      (Chained(p, taken, ids), Some(taken[0]))
  }

  // ---- the walk finds exactly the chains

  /** A successful walk extends its path to a sequence linked from there to a tail. */
  lemma {:induction false} WalkSound(m: seq<Row>, path: seq<nat>, c: seq<nat>)
    requires Sized(m) && path != [] && InRange(path) && Distinct(path)
    requires forall i :: 0 <= i < |path| ==> Used(m[path[i]][0])
    requires forall i :: 0 <= i < |path| - 1 ==> !IsTail(m[path[i]][0]) && NextIndex(m[path[i]][0]) == path[i + 1]
    requires IsHead(m[path[0]][0])
    requires Walk(m, path) == Some(c)
    ensures IsChain(m, c) && path <= c
    decreases LINE_COUNT - |path|
  {
    var w := m[path[|path| - 1]][0];
    if !IsTail(w) {
      var next := path + [NextIndex(w)];
      assert forall i :: 0 <= i < |next| - 1 ==> next[i] == path[i];
      WalkSound(m, next, c);
    }
  }

  lemma FindChainSound(m: seq<Row>, head: nat, c: seq<nat>)
    requires Sized(m) && FindChain(m, head) == Some(c)
    ensures IsChain(m, c) && c[0] == head
  {
    WalkSound(m, [head], c);
  }

  /** A walk started on a prefix of a chain returns that chain. */
  lemma {:induction false} WalkComplete(m: seq<Row>, c: seq<nat>, k: nat)
    requires Sized(m) && IsChain(m, c) && 0 < k <= |c|
    ensures Walk(m, c[..k]) == Some(c)
    decreases |c| - k
  {
    DistinctBounded(c, LINE_COUNT);
    if k == |c| {
      assert c[..k] == c;
    } else {
      assert c[..k + 1] == c[..k] + [c[k]];
      assert c[k] !in c[..k];
      WalkComplete(m, c, k + 1);
    }
  }

  /**
    For arbitrary pool contents, including cycles and wild indices, the bounded walk with a
    visited set finds exactly the well-linked chain that starts at the head, if there is one.
    */
  lemma FindChainExact(m: seq<Row>, head: nat, c: seq<nat>)
    requires Sized(m)
    ensures FindChain(m, head) == Some(c) <==> IsChain(m, c) && c[0] == head
  {
    if FindChain(m, head) == Some(c) {
      FindChainSound(m, head, c);
    }
    if IsChain(m, c) && c[0] == head {
      assert c[..1] == [head];
      WalkComplete(m, c, 1);
    }
  }

  /** The length of what a chain holds is fixed by its line count and the count in its tail. */
  lemma {:induction false} GatherLength(m: seq<Row>, c: seq<nat>)
    requires Sized(m) && c != [] && InRange(c) && NextIndex(m[c[|c| - 1]][0]) < LINE_SIZE
    ensures |Gather(m, c)| == (|c| - 1) * LINE_IDS + NextIndex(m[c[|c| - 1]][0])
  {
    if |c| > 1 {
      GatherLength(m, c[1..]);
    }
  }

  // ---- frame: a chain only depends on its own lines

  lemma {:induction false} GatherFrame(m: seq<Row>, n: seq<Row>, c: seq<nat>)
    requires Sized(m) && Sized(n) && c != [] && InRange(c)
    requires NextIndex(m[c[|c| - 1]][0]) < LINE_SIZE
    requires forall i :: 0 <= i < |c| ==> m[c[i]] == n[c[i]]
    ensures Gather(n, c) == Gather(m, c)
  {
    if |c| > 1 {
      GatherFrame(m, n, c[1..]);
    }
  }

  /** Whatever happens to other lines, a chain is still found and still holds the same ids. */
  lemma ChainFrame(m: seq<Row>, n: seq<Row>, head: nat, c: seq<nat>)
    requires Sized(m) && Sized(n) && IsChain(m, c) && c[0] == head
    requires forall i :: 0 <= i < |c| ==> m[c[i]] == n[c[i]]
    ensures FindChain(m, head) == Some(c)
    ensures FindChain(n, head) == Some(c) && FillAllocated(n, head) == FillAllocated(m, head)
  {
    FindChainExact(m, head, c);
    assert IsChain(n, c);
    FindChainExact(n, head, c);
    if NextIndex(m[c[|c| - 1]][0]) < LINE_SIZE {
      GatherFrame(m, n, c);
    }
  }

  // ---- allocate, then read back

  lemma TakenFacts(idle: seq<nat>, need: nat)
    requires Distinct(idle) && InRange(idle) && need <= |idle|
    ensures var t := Taken(idle, need);
      Distinct(t) && InRange(t) && forall x :: x in t <==> x in idle[|idle| - need..]
  {
    var t := Taken(idle, need);
    var tail := idle[|idle| - need..];
    forall x | x in tail ensures x in t {
      var i :| 0 <= i < |tail| && tail[i] == x;
      assert t[need - 1 - i] == x;
    }
  }

  lemma {:induction false} IndexOfAt(s: seq<nat>, k: nat)
    requires Distinct(s) && k < |s|
    ensures IndexOf(s, s[k]) == k
  {
    if k > 0 {
      IndexOfAt(s[1..], k - 1);
    }
  }

  /** The lines of a freshly written chain are linked head to tail. */
  lemma WriteChainIsChain(m: seq<Row>, taken: seq<nat>, ids: seq<u64>)
    requires Sized(m) && Distinct(taken) && InRange(taken)
    requires 0 < |taken| == LinesNeed(|ids|)
    ensures var n := WriteChain(m, taken, ids);
      && IsChain(n, taken)
      && NextIndex(n[taken[|taken| - 1]][0]) == |ids| - (|taken| - 1) * LINE_IDS
  {
    var n := WriteChain(m, taken, ids);
    forall k | 0 <= k < |taken|
      ensures n[taken[k]][0] == HeadWord(taken, |ids|, k)
    {
      IndexOfAt(taken, k);
    }
    forall k | 0 <= k < |taken|
      ensures Used(n[taken[k]][0]) && (IsHead(n[taken[k]][0]) <==> k == 0)
      ensures IsTail(n[taken[k]][0]) <==> k == |taken| - 1
      ensures NextIndex(n[taken[k]][0])
           == if k == |taken| - 1 then |ids| - k * LINE_IDS else taken[k + 1]
    {
      if k == |taken| - 1 {
        PackFields(k == 0, true, |ids| - k * LINE_IDS);
      } else {
        PackFields(k == 0, false, taken[k + 1]);
      }
    }
  }

  lemma RowHoldsChunk(was: Row, taken: seq<nat>, ids: seq<u64>, k: nat)
    requires k < |taken| == LinesNeed(|ids|) && InRange(taken)
    ensures var r := NewRow(was, taken, ids, k); var last := |ids| - k * LINE_IDS;
      && (k < |taken| - 1 ==> r[1..] == ids[k * LINE_IDS..(k + 1) * LINE_IDS])
      && (k == |taken| - 1 ==> 0 < last <= LINE_IDS && r[1..last + 1] == ids[k * LINE_IDS..])
  {
  }

  lemma WriteChainFrame(m: seq<Row>, taken: seq<nat>, ids: seq<u64>)
    requires |taken| == LinesNeed(|ids|) && InRange(taken)
    ensures forall l :: 0 <= l < |m| && l !in taken ==> WriteChain(m, taken, ids)[l] == m[l]
  {
  }

  /** Line `i` of `c` holds the ids from 63i on: 63 of them, or all that are left in the last line. */
  ghost predicate HoldsChunks(n: seq<Row>, c: seq<nat>, ids: seq<u64>)
    requires Sized(n) && InRange(c) && |c| == LinesNeed(|ids|)
  {
    forall i :: 0 <= i < |c| ==>
      if i < |c| - 1 then n[c[i]][1..] == ids[i * LINE_IDS..(i + 1) * LINE_IDS]
      else NextIndex(n[c[i]][0]) == |ids| - i * LINE_IDS
           && n[c[i]][1..|ids| - i * LINE_IDS + 1] == ids[i * LINE_IDS..]
  }

  lemma {:induction false} ChunksGather(n: seq<Row>, c: seq<nat>, ids: seq<u64>, k: nat)
    requires Sized(n) && InRange(c) && |c| == LinesNeed(|ids|) && k < |c| && HoldsChunks(n, c, ids)
    ensures Gather(n, c[k..]) == ids[k * LINE_IDS..]
    decreases |c| - k
  {
    if k < |c| - 1 {
      ChunksGather(n, c, ids, k + 1);
      assert c[k..][1..] == c[k + 1..];
      assert ids[k * LINE_IDS..] == ids[k * LINE_IDS..(k + 1) * LINE_IDS] + ids[(k + 1) * LINE_IDS..];
    }
  }

  lemma WriteChainHolds(m: seq<Row>, taken: seq<nat>, ids: seq<u64>)
    requires Sized(m) && Distinct(taken) && InRange(taken)
    requires 0 < |taken| == LinesNeed(|ids|)
    ensures HoldsChunks(WriteChain(m, taken, ids), taken, ids)
  {
    WriteChainIsChain(m, taken, ids);
    forall i | 0 <= i < |taken|
      ensures WriteChain(m, taken, ids)[taken[i]] == NewRow(m[taken[i]], taken, ids, i)
    {
      IndexOfAt(taken, i);
    }
    forall i | 0 <= i < |taken| {
      RowHoldsChunk(m[taken[i]], taken, ids, i);
    }
  }

  lemma WriteChainRoundTrip(m: seq<Row>, taken: seq<nat>, ids: seq<u64>)
    requires Sized(m) && Distinct(taken) && InRange(taken)
    requires 0 < |taken| == LinesNeed(|ids|)
    ensures FindChain(WriteChain(m, taken, ids), taken[0]) == Some(taken)
    ensures FillAllocated(WriteChain(m, taken, ids), taken[0]) == Some(ids)
  {
    var n := WriteChain(m, taken, ids);
    WriteChainIsChain(m, taken, ids);
    WriteChainHolds(m, taken, ids);
    ChunksGather(n, taken, ids, 0);
    FindChainExact(n, taken[0], taken);
    assert taken[0..] == taken && ids[0..] == ids;
  }

  /**
    Round trip. For every non-empty id list that fits (whatever the pool held before),
    reading the chain at the returned head yields exactly that list; every line outside the
    taken ones is untouched, and the free list loses exactly the taken lines.
    */
  lemma AllocateFillRoundTrip(p: Pool, ids: seq<u64>)
    requires IdleExact(p) && ids != [] && LinesNeed(|ids|) <= |p.idle|
    ensures var (q, head) := Allocate(p, ids); var taken := Taken(p.idle, LinesNeed(|ids|));
      && Sized(q.lines) && taken != [] && head == Some(taken[0])
      && FindChain(q.lines, taken[0]) == Some(taken)
      && FillAllocated(q.lines, taken[0]) == Some(ids)
      && (forall l :: 0 <= l < LINE_COUNT && l !in taken ==> q.lines[l] == p.lines[l])
      && p.idle == q.idle + p.idle[|p.idle| - |taken|..]
  {
    hide Walk;
    var need := LinesNeed(|ids|);
    TakenFacts(p.idle, need);
    ChainedRoundTrip(p, Taken(p.idle, need), ids);
  }

  lemma ChainedRoundTrip(p: Pool, taken: seq<nat>, ids: seq<u64>)
    requires Sized(p.lines) && 0 < |taken| == LinesNeed(|ids|) <= |p.idle|
    requires InRange(taken) && Distinct(taken)
    ensures var q := Chained(p, taken, ids);
      && FindChain(q.lines, taken[0]) == Some(taken)
      && FillAllocated(q.lines, taken[0]) == Some(ids)
      && (forall l :: 0 <= l < LINE_COUNT && l !in taken ==> q.lines[l] == p.lines[l])
      && p.idle == q.idle + p.idle[|p.idle| - |taken|..]
  {
    hide Walk;
    WriteChainRoundTrip(p.lines, taken, ids);
  }

  lemma SplitMembers(s: seq<nat>, k: nat)
    requires Distinct(s) && k <= |s|
    ensures forall x :: x in s[..k] <==> x in s && x !in s[k..]
  {
    assert s == s[..k] + s[k..];
  }

  /** Allocation keeps the free list equal to the unused lines. */
  lemma AllocateKeepsIdle(p: Pool, ids: seq<u64>)
    requires IdleExact(p)
    ensures IdleExact(Allocate(p, ids).0)
  {
    var need := LinesNeed(|ids|);
    if 0 < need <= |p.idle| {
      TakenFacts(p.idle, need);
      ChainedKeepsIdle(p, Taken(p.idle, need), ids);
    }
  }

  lemma ChainedKeepsIdle(p: Pool, taken: seq<nat>, ids: seq<u64>)
    requires IdleExact(p) && 0 < |taken| == LinesNeed(|ids|) <= |p.idle|
    requires InRange(taken) && Distinct(taken)
    requires forall x :: x in taken <==> x in p.idle[|p.idle| - |taken|..]
    ensures IdleExact(Chained(p, taken, ids))
  {
    var n := WriteChain(p.lines, taken, ids);
    WriteChainFrame(p.lines, taken, ids);
    WriteChainIsChain(p.lines, taken, ids);
    IdleAfterTaking(p, n, taken);
  }

  lemma IdleAfterTaking(p: Pool, n: seq<Row>, taken: seq<nat>)
    requires IdleExact(p) && Sized(n) && |taken| <= |p.idle|
    requires forall x :: x in taken <==> x in p.idle[|p.idle| - |taken|..]
    requires InRange(taken) && forall i :: 0 <= i < |taken| ==> Used(n[taken[i]][0])
    requires forall l :: 0 <= l < LINE_COUNT && l !in taken ==> n[l] == p.lines[l]
    ensures IdleExact(Pool(n, p.idle[..|p.idle| - |taken|]))
  {
    var rest := p.idle[..|p.idle| - |taken|];
    SplitMembers(p.idle, |p.idle| - |taken|);
    forall l | 0 <= l < LINE_COUNT
      ensures l in rest <==> !Used(n[l][0])
    {
      if l in taken {
        var i :| 0 <= i < |taken| && taken[i] == l;
        assert Used(n[taken[i]][0]);
      }
    }
  }

  /** Release keeps the free list equal to the unused lines, for arbitrary line contents. */
  lemma ReleaseKeepsIdle(p: Pool, head: nat)
    requires IdleExact(p)
    ensures IdleExact(Release(p, head).0)
  {
    match FindChain(p.lines, head)
    case None =>
    case Some(c) =>
      FindChainSound(p.lines, head, c);
      var q := Release(p, head).0;
      forall l | 0 <= l < LINE_COUNT
        ensures l in q.idle <==> !Used(q.lines[l][0])
      {
        assert l in q.idle <==> l in p.idle || l in c;
      }
      assert forall i :: 0 <= i < |c| ==> c[i] !in p.idle;
  }

  /** Releasing a freshly allocated chain gives back exactly its lines, and only them. */
  lemma AllocateReleaseRoundTrip(p: Pool, ids: seq<u64>)
    requires IdleExact(p) && ids != [] && LinesNeed(|ids|) <= |p.idle|
    ensures var (q, head) := Allocate(p, ids); var (r, ok) := Release(q, head.value);
      && ok
      && (forall l :: l in r.idle <==> l in p.idle)
      && |r.idle| == |p.idle|
      && (forall l :: 0 <= l < LINE_COUNT && l !in p.idle ==> r.lines[l] == p.lines[l])
  {
    AllocateFillRoundTrip(p, ids);
    TakenFacts(p.idle, LinesNeed(|ids|));
    var k := |p.idle| - LinesNeed(|ids|);
    SplitMembers(p.idle, k);
  }

  // ---- ownership: which heads are live

  ghost function ChainLines(m: seq<Row>, head: nat): seq<nat>
    requires Sized(m)
  {
    var r := FindChain(m, head);
    if r.Some? then r.value else []
  }

  /** Every live head starts a chain and no line is in the chains of two live heads. */
  ghost predicate Separate(p: Pool, heads: set<nat>) {
    && IdleExact(p)
    && (forall h :: h in heads ==> FindChain(p.lines, h).Some?)
    && (forall h, k, l ::
          (h in heads && k in heads && l in ChainLines(p.lines, h) && l in ChainLines(p.lines, k)) ==> h == k)
  }

  ghost function OwnedLines(m: seq<Row>, heads: set<nat>): set<nat>
    requires Sized(m)
  {
    set h, l | h in heads && l in ChainLines(m, h) :: l
  }

  /** Every line is either free or in the chain of some live head. */
  ghost predicate Covered(p: Pool, heads: set<nat>)
    requires Sized(p.lines)
  {
    forall l :: 0 <= l < LINE_COUNT ==> l in p.idle || l in OwnedLines(p.lines, heads)
  }

  /** The lines of a found chain are in range and not free. */
  lemma ChainNotIdle(p: Pool, head: nat)
    requires IdleExact(p) && FindChain(p.lines, head).Some?
    ensures var c := ChainLines(p.lines, head);
      IsChain(p.lines, c) && c[0] == head && forall l :: l in c ==> l < LINE_COUNT && l !in p.idle
  {
    FindChainSound(p.lines, head, ChainLines(p.lines, head));
  }

  lemma OwnedNotIdle(p: Pool, heads: set<nat>)
    requires Separate(p, heads)
    ensures forall l :: l in OwnedLines(p.lines, heads) ==> l < LINE_COUNT && l !in p.idle
  {
    hide FindChain;
    forall h | h in heads {
      ChainNotIdle(p, h);
    }
  }

  /** Replacing lines outside the live chains keeps every live chain and its ids. */
  lemma KeepChains(p: Pool, n: seq<Row>, heads: set<nat>, changed: seq<nat>)
    requires Separate(p, heads) && Sized(n)
    requires forall l :: 0 <= l < LINE_COUNT && l !in changed ==> n[l] == p.lines[l]
    requires forall h, l :: h in heads && l in ChainLines(p.lines, h) ==> l !in changed
    ensures forall h :: h in heads ==>
      && FindChain(n, h) == FindChain(p.lines, h)
      && FillAllocated(n, h) == FillAllocated(p.lines, h)
  {
    forall h | h in heads
      ensures FindChain(n, h) == FindChain(p.lines, h) && FillAllocated(n, h) == FillAllocated(p.lines, h)
    {
      var c := ChainLines(p.lines, h);
      ChainNotIdle(p, h);
      ChainFrame(p.lines, n, h, c);
    }
  }

  /** Turning free lines `taken` into one new chain, leaving the rest alone, adds one owner. */
  lemma TakeOwnership(p: Pool, q: Pool, heads: set<nat>, taken: seq<nat>)
    requires Separate(p, heads) && IdleExact(q) && taken != []
    requires ChainLines(q.lines, taken[0]) == taken
    requires forall l :: 0 <= l < LINE_COUNT && l !in taken ==> q.lines[l] == p.lines[l]
    requires forall l :: l in p.idle <==> l in q.idle || l in taken
    requires forall l :: l in q.idle ==> l !in taken
    ensures taken[0] !in heads && Separate(q, heads + {taken[0]})
    ensures forall h :: h in heads ==> FillAllocated(q.lines, h) == FillAllocated(p.lines, h)
    ensures Covered(q, heads + {taken[0]}) <==> Covered(p, heads)
  {
    hide FindChain, FillAllocated;
    forall h | h in heads
      ensures forall l :: l in ChainLines(p.lines, h) ==> l !in taken
      ensures h !in taken
    {
      ChainNotIdle(p, h);
    }
    KeepChains(p, q.lines, heads, taken);
    OwnedLinesAdd(p.lines, q.lines, heads, taken[0]);
    OwnedNotIdle(p, heads);
  }

  /**
    Allocation adds one chain, disjoint from every live one, changes no live chain, and
    leaves the pool covered exactly when it was covered before.
    */
  lemma AllocateOwnership(p: Pool, heads: set<nat>, ids: seq<u64>)
    requires Separate(p, heads) && Allocate(p, ids).1.Some?
    ensures var (q, head) := Allocate(p, ids);
      && Sized(q.lines) && head.value !in heads && head.value < LINE_COUNT
      && Separate(q, heads + {head.value})
      && FillAllocated(q.lines, head.value) == Some(ids)
      && (forall h :: h in heads ==> FillAllocated(q.lines, h) == FillAllocated(p.lines, h))
      && (Covered(q, heads + {head.value}) <==> Covered(p, heads))
  {
    assert IdleExact(p);
    hide FindChain, FillAllocated, WriteChain, Covered, Separate;
    AllocateFillRoundTrip(p, ids);
    AllocateKeepsIdle(p, ids);
    var taken := Taken(p.idle, LinesNeed(|ids|));
    TakenFacts(p.idle, |taken|);
    SplitMembers(p.idle, |p.idle| - |taken|);
    TakeOwnership(p, Allocate(p, ids).0, heads, taken);
  }

  lemma OwnedLinesAdd(m: seq<Row>, n: seq<Row>, heads: set<nat>, head: nat)
    requires Sized(m) && Sized(n)
    requires forall h :: h in heads ==> ChainLines(n, h) == ChainLines(m, h)
    ensures OwnedLines(n, heads + {head}) == OwnedLines(m, heads) + Elems(ChainLines(n, head))
  {
    hide FindChain;
  }

  /**
    Releasing a live head succeeds, frees exactly its lines, changes no other live chain, and
    leaves the pool covered exactly when it was covered before.
    */
  lemma ReleaseOwnership(p: Pool, heads: set<nat>, head: nat)
    requires Separate(p, heads) && head in heads
    ensures var (q, ok) := Release(p, head);
      && ok && Sized(q.lines)
      && Separate(q, heads - {head})
      && (forall h :: h in heads && h != head ==> FillAllocated(q.lines, h) == FillAllocated(p.lines, h))
      && q.idle == p.idle + ChainLines(p.lines, head)
      && (Covered(q, heads - {head}) <==> Covered(p, heads))
  {
    ReleaseKeepsIdle(p, head);
    ChainNotIdle(p, head);
    var q := Release(p, head).0;
    var rest := heads - {head};
    assert Separate(p, rest);
    KeepChains(p, q.lines, rest, ChainLines(p.lines, head));
    OwnedLinesAdd(q.lines, p.lines, rest, head);
    assert rest + {head} == heads;
    OwnedNotIdle(p, rest);
  }

  // ---- restart

  function IdleLines(m: seq<Row>, from: nat): (idle: seq<nat>)
    requires Sized(m) && from <= LINE_COUNT
    decreases LINE_COUNT - from
  {
    if from == LINE_COUNT then []
    else if Used(m[from][0]) then IdleLines(m, from + 1)
    else [from] + IdleLines(m, from + 1)
  }

  /** The scan lists exactly the unused lines, each once. */
  lemma {:induction false} IdleLinesExact(m: seq<Row>, from: nat)
    requires Sized(m) && from <= LINE_COUNT
    ensures Distinct(IdleLines(m, from)) && InRange(IdleLines(m, from))
    ensures forall l :: l in IdleLines(m, from) <==> from <= l < LINE_COUNT && !Used(m[l][0])
    decreases LINE_COUNT - from
  {
    if from < LINE_COUNT {
      IdleLinesExact(m, from + 1);
    }
  }

  function Initialize(m: seq<Row>): (p: Pool)
    requires Sized(m)
    ensures IdleExact(p) && p.lines == m
  {
    IdleLinesExact(m, 0);
    Pool(m, IdleLines(m, 0))
  }
}
