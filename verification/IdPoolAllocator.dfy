/** The in-place allocator over the mapped pool; every method is proved against module IdPool. */
module IdPoolAllocator {
  import opened Words
  import opened IdPool

  /** All 63 ids of every line on a path, in order: what the traversal has collected so far. */
  ghost function FullLines(m: seq<Row>, path: seq<nat>): seq<u64>
    requires Sized(m) && InRange(path)
  {
    if path == [] then [] else FullLines(m, path[..|path| - 1]) + m[path[|path| - 1]][1..]
  }

  /** Collecting forwards, line by line, gives the same ids as the recursive reading of a chain. */
  lemma {:induction false} GatherIsFullLines(m: seq<Row>, c: seq<nat>, k: nat)
    requires Sized(m) && c != [] && InRange(c) && NextIndex(m[c[|c| - 1]][0]) < LINE_SIZE && k < |c|
    ensures FullLines(m, c[..k]) + Gather(m, c[k..]) == Gather(m, c)
  {
    if k == 0 {
      assert c[0..] == c;
    } else {
      GatherIsFullLines(m, c, k - 1);
      assert c[..k][..k - 1] == c[..k - 1];
      assert c[k - 1..][1..] == c[k..];
      var a, r, g := FullLines(m, c[..k - 1]), m[c[k - 1]][1..], Gather(m, c[k..]);
      assert (a + r) + g == a + (r + g);
    }
  }

  class Allocator {
    const memIds: array<Row>
    var idle: seq<nat>

    ghost predicate Mapped()
      reads this, memIds
    {
      memIds.Length == LINE_COUNT && InRange(idle)
    }

    /** In every state reached from a fresh attach: the free list is exactly the unused lines. */
    ghost predicate Valid()
      reads this, memIds
    {
      Mapped() && IdleExact(Abs())
    }

    ghost function Abs(): (p: Pool)
      reads this, memIds
    {
      Pool(memIds[..], idle)
    }

    /** Attaches to a mapped pool and collects its unused lines in ascending order. */
    constructor (address: array<Row>)
      requires address.Length == LINE_COUNT
      ensures memIds == address && Valid() && Abs() == Initialize(address[..])
    {
      memIds := address;
      var unused := CollectIdle(address);
      idle := unused;
      IdleLinesExact(address[..], 0);
    }

    static method CollectIdle(address: array<Row>) returns (unused: seq<nat>)
      requires address.Length == LINE_COUNT
      ensures unused == IdleLines(address[..], 0)
    {
      unused := [];
      ghost var m := address[..];
      for line := 0 to LINE_COUNT
        invariant unused + IdleLines(m, line) == IdleLines(m, 0)
      {
        IdleStep(m, line, unused);
        hide IdleLines;
        if !Used(address[line][0]) {
          unused := unused + [line];
        }
      }
      assert IdleLines(m, LINE_COUNT) == [] && unused + [] == unused;
    }

    method Allocate(ids: seq<u64>) returns (ok: bool, headIndex: nat)
      requires Valid()
      modifies this`idle, memIds
      ensures Valid()
      ensures Abs() == IdPool.Allocate(old(Abs()), ids).0
      ensures IdPool.Allocate(old(Abs()), ids).1 == if ok then Some(headIndex) else None
    {
      headIndex := 0;
      var linesNeed := (|ids| + LINE_IDS - 1) / LINE_IDS;
      if linesNeed == 0 || |idle| < linesNeed {
        return false, 0;
      }
      ghost var p := Abs();
      AllocateKeepsIdle(p, ids);
      var taken := WriteLines(ids, linesNeed);
      return true, taken[0];
    }

    method WriteLines(ids: seq<u64>, linesNeed: nat) returns (taken: seq<nat>)
      requires Mapped() && Distinct(idle) && 0 < linesNeed == LinesNeed(|ids|) <= |idle|
      modifies this`idle, memIds
      ensures Mapped() && taken == Taken(old(idle), linesNeed)
      ensures InRange(taken) && Abs() == Chained(old(Abs()), taken, ids)
    {
      ghost var p := Abs();
      taken := TakeLines(linesNeed);
      TakenFacts(p.idle, linesNeed);
      WriteHeads(taken, |ids|);
      WriteIds(taken, ids);
      WrittenIsChain(p.lines, memIds[..], taken, ids);
    }

    method TakeLines(linesNeed: nat) returns (taken: seq<nat>)
      requires Mapped() && linesNeed <= |idle|
      modifies this`idle
      ensures Mapped() && taken == Taken(old(idle), linesNeed)
      ensures idle == old(idle)[..|old(idle)| - linesNeed]
    {
      taken := [];
      for i := 0 to linesNeed
        invariant |taken| == i && forall k :: 0 <= k < i ==> taken[k] == idle[|idle| - 1 - k]
      {
        taken := taken + [idle[|idle| - 1 - i]];
      }
      idle := idle[..|idle| - linesNeed];
    }

    method WriteHeads(taken: seq<nat>, idCount: nat)
      requires Mapped() && |taken| == LinesNeed(idCount) && InRange(taken) && Distinct(taken)
      modifies memIds
      ensures forall k :: 0 <= k < |taken| ==>
        memIds[taken[k]] == old(memIds[taken[k]])[0 := HeadWord(taken, idCount, k)]
      ensures forall l :: 0 <= l < LINE_COUNT && l !in taken ==> memIds[l] == old(memIds[l])
    {
      for i := 0 to |taken|
        invariant forall k :: 0 <= k < i ==>
          memIds[taken[k]] == old(memIds[taken[k]])[0 := HeadWord(taken, idCount, k)]
        invariant forall k :: i <= k < |taken| ==> memIds[taken[k]] == old(memIds[taken[k]])
        invariant forall l :: 0 <= l < LINE_COUNT && l !in taken ==> memIds[l] == old(memIds[l])
      {
        var nextIndex := if i == |taken| - 1 then idCount - (|taken| - 1) * LINE_IDS else taken[i + 1];
        memIds[taken[i]] := memIds[taken[i]][0 := Pack(i == 0, i == |taken| - 1, nextIndex)];
      }
    }

    /** Id `i` goes to line i / 63 of the chain, word i % 63 + 1. */
    method WriteIds(taken: seq<nat>, ids: seq<u64>)
      requires Mapped() && 0 < |taken| == LinesNeed(|ids|) && InRange(taken) && Distinct(taken)
      modifies memIds
      ensures forall k :: 0 <= k < |taken| ==>
        memIds[taken[k]] == Filled(old(memIds[taken[k]]), ids, k, |ids|)
      ensures forall l :: 0 <= l < LINE_COUNT && l !in taken ==> memIds[l] == old(memIds[l])
    {
      for i := 0 to |ids|
        invariant forall k :: 0 <= k < |taken| ==>
          memIds[taken[k]] == Filled(old(memIds[taken[k]]), ids, k, i)
        invariant forall l :: 0 <= l < LINE_COUNT && l !in taken ==> memIds[l] == old(memIds[l])
      {
        var row := i / LINE_IDS;
        var col := i % LINE_IDS + 1;
        memIds[taken[row]] := memIds[taken[row]][col := ids[i]];
      }
    }

    /** Reads a chain of any pool contents: bounded, never out of range, stopped by any cycle. */
    method FillAllocated(headIndex: nat) returns (ok: bool, ids: seq<u64>)
      requires Mapped()
      ensures IdPool.FillAllocated(memIds[..], headIndex) == if ok then Some(ids) else None
      ensures !ok ==> ids == []
    {
      ghost var m := memIds[..];
      ghost var path: seq<nat> := [headIndex];
      PathStarts(m, headIndex);
      if headIndex >= LINE_COUNT || !Used(memIds[headIndex][0]) || !IsHead(memIds[headIndex][0]) {
        return false, [];
      }
      hide FindChain, Walk, OnPath, FullLines, IdPool.FillAllocated;
      ids := [];
      var idHead, currentIndex, traversed := memIds[headIndex][0], headIndex, 0;
      var visited := new bool[LINE_COUNT](_ => false);
      visited[currentIndex] := true;
      assert visited[..] == OneVisited(headIndex);
      while !IsTail(idHead)
        invariant memIds[..] == m && fresh(visited) && currentIndex < LINE_COUNT && idHead == m[currentIndex][0]
        invariant OnPath(m, headIndex, path, currentIndex, traversed, visited[..])
        invariant PathIds(m, path, ids)
        decreases LINE_COUNT - traversed
      {
        PathSteps(m, headIndex, path, currentIndex, traversed, visited[..], ids);
        traversed := traversed + 1;
        if traversed >= LINE_COUNT || NextIndex(idHead) >= LINE_COUNT {
          return false, [];
        }
        if visited[NextIndex(idHead)] {
          return false, [];
        }
        ids := ids + memIds[currentIndex][1..];
        path := path + [NextIndex(idHead)];
        currentIndex := NextIndex(idHead);
        visited[currentIndex] := true;
        idHead := memIds[currentIndex][0];
        if !Used(idHead) {
          return false, [];
        }
      }
      PathEnds(m, headIndex, path, currentIndex, traversed, visited[..], ids);
      if NextIndex(idHead) >= LINE_SIZE {
        return false, [];
      }
      ids := ids + memIds[currentIndex][1..NextIndex(idHead) + 1];
      ok := true;
    }

    /** Frees a chain; when the walk fails nothing has been changed. */
    method Release(headIndex: nat) returns (ok: bool)
      requires Valid()
      modifies this`idle, memIds
      ensures Valid()
      ensures (Abs(), ok) == IdPool.Release(old(Abs()), headIndex)
    {
      ghost var m := memIds[..];
      PathStarts(m, headIndex);
      ReleaseIs(Abs(), headIndex);
      if headIndex >= LINE_COUNT || !Used(memIds[headIndex][0]) || !IsHead(memIds[headIndex][0]) {
        return false;
      }
      hide FindChain, Walk, OnPath, FullLines, IdPool.FillAllocated, IdPool.Release, IdleExact;
      var releasedIndexes: seq<nat> := [];
      var idHead, currentIndex, traversed := memIds[headIndex][0], headIndex, 0;
      var visited := new bool[LINE_COUNT](_ => false);
      visited[currentIndex] := true;
      assert visited[..] == OneVisited(headIndex);
      assert releasedIndexes + [currentIndex] == [headIndex];
      ghost var ids: seq<u64> := [];
      while !IsTail(idHead)
        invariant memIds[..] == m && fresh(visited) && idle == old(idle)
        invariant currentIndex < LINE_COUNT && idHead == m[currentIndex][0]
        invariant OnPath(m, headIndex, releasedIndexes + [currentIndex], currentIndex, traversed, visited[..])
        invariant PathIds(m, releasedIndexes + [currentIndex], ids)
        decreases LINE_COUNT - traversed
      {
        PathSteps(m, headIndex, releasedIndexes + [currentIndex], currentIndex, traversed, visited[..], ids);
        ids := ids + m[currentIndex][1..];
        releasedIndexes := releasedIndexes + [currentIndex];
        traversed := traversed + 1;
        if traversed >= LINE_COUNT || NextIndex(idHead) >= LINE_COUNT {
          return false;
        }
        if visited[NextIndex(idHead)] {
          return false;
        }
        currentIndex := NextIndex(idHead);
        visited[currentIndex] := true;
        idHead := memIds[currentIndex][0];
        if !Used(idHead) {
          return false;
        }
      }
      PathEnds(m, headIndex, releasedIndexes + [currentIndex], currentIndex, traversed, visited[..], ids);
      releasedIndexes := releasedIndexes + [currentIndex];
      ClearLines(releasedIndexes);
      idle := idle + releasedIndexes;
      ReleaseKeepsIdle(old(Abs()), headIndex);
      ok := true;
    }

    method ClearLines(lines: seq<nat>)
      requires Mapped() && InRange(lines)
      modifies memIds
      ensures memIds[..] == ClearHeads(old(memIds[..]), lines)
    {
      for i := 0 to |lines|
        invariant forall l :: 0 <= l < LINE_COUNT ==>
          memIds[l] == if l in lines[..i] then old(memIds[l])[0 := 0] else old(memIds[l])
      {
        memIds[lines[i]] := memIds[lines[i]][0 := 0];
      }
      assert lines[..|lines|] == lines;
    }
  }

  /** What both traversal loops maintain: the walk from the head equals the walk from here. */
  ghost predicate OnPath(m: seq<Row>, head: nat, path: seq<nat>, current: nat, traversed: nat, visited: seq<bool>)
    requires Sized(m)
  {
    && path != [] && InRange(path)
    && current == path[|path| - 1]
    && traversed == |path| - 1 < LINE_COUNT
    && |visited| == LINE_COUNT
    && (forall l :: 0 <= l < LINE_COUNT ==> (visited[l] <==> l in path))
    && Walk(m, path) == FindChain(m, head)
  }

  lemma IdleStep(m: seq<Row>, line: nat, unused: seq<nat>)
    requires Sized(m) && line < LINE_COUNT
    ensures unused + IdleLines(m, line)
         == (if Used(m[line][0]) then unused else unused + [line]) + IdleLines(m, line + 1)
  {
    assert unused + ([line] + IdleLines(m, line + 1)) == unused + [line] + IdleLines(m, line + 1);
  }

  ghost function OneVisited(head: nat): seq<bool>
    requires head < LINE_COUNT
  {
    seq(LINE_COUNT, _ => false)[head := true]
  }

  lemma PathStarts(m: seq<Row>, head: nat)
    requires Sized(m)
    ensures head >= LINE_COUNT || !Used(m[head][0]) || !IsHead(m[head][0]) ==> FindChain(m, head) == None
    ensures FindChain(m, head) == None ==> IdPool.FillAllocated(m, head) == None
    ensures head < LINE_COUNT && Used(m[head][0]) && IsHead(m[head][0]) ==>
      OnPath(m, head, [head], head, 0, OneVisited(head)) && PathIds(m, [head], [])
  {
    assert [head][..0] == [];
  }

  /** The ids collected before the last line of a path. */
  ghost predicate PathIds(m: seq<Row>, path: seq<nat>, ids: seq<u64>)
    requires Sized(m)
  {
    path != [] && InRange(path) && ids == FullLines(m, path[..|path| - 1])
  }

  /** One round of the traversal: it stops exactly where the walk does, or goes on along it. */
  lemma PathSteps(m: seq<Row>, head: nat, path: seq<nat>, current: nat, traversed: nat, visited: seq<bool>, ids: seq<u64>)
    requires Sized(m) && OnPath(m, head, path, current, traversed, visited) && PathIds(m, path, ids) && !IsTail(m[current][0])
    ensures current < LINE_COUNT && |visited| == LINE_COUNT && traversed < LINE_COUNT
    ensures var next := NextIndex(m[current][0]);
      if traversed + 1 >= LINE_COUNT || next >= LINE_COUNT || visited[next] || !Used(m[next][0])
      then FindChain(m, head) == None
      else OnPath(m, head, path + [next], next, traversed + 1, visited[next := true])
           && PathIds(m, path + [next], ids + m[current][1..])
  {
    var k := |path| - 1;
    var next := NextIndex(m[current][0]);
    assert path[k] == current;
    hide FindChain;
    if traversed + 1 < LINE_COUNT && next < LINE_COUNT && !visited[next] && Used(m[next][0]) {
      assert (path + [next])[..k + 1] == path;
      assert Walk(m, path) == Walk(m, path + [next]);
    }
  }

  /** At a tail the path is the chain, and its ids are complete up to the last line. */
  lemma PathEnds(m: seq<Row>, head: nat, path: seq<nat>, current: nat, traversed: nat, visited: seq<bool>, ids: seq<u64>)
    requires Sized(m) && OnPath(m, head, path, current, traversed, visited) && PathIds(m, path, ids) && IsTail(m[current][0])
    ensures current < LINE_COUNT && FindChain(m, head) == Some(path)
    ensures IdPool.FillAllocated(m, head) ==
      if NextIndex(m[current][0]) >= LINE_SIZE then None else Some(ids + m[current][1..NextIndex(m[current][0]) + 1])
  {
    var k := |path| - 1;
    assert path[k] == current && Walk(m, path) == Some(path);
    hide FindChain, Walk;
    if NextIndex(m[current][0]) < LINE_SIZE {
      GatherIsFullLines(m, path, k);
      assert path[k..] == [current];
    }
  }

  lemma ReleaseIs(p: Pool, head: nat)
    requires Sized(p.lines)
    ensures FindChain(p.lines, head) == None ==> IdPool.Release(p, head) == (p, false)
    ensures forall c :: FindChain(p.lines, head) == Some(c) ==>
      InRange(c) && IdPool.Release(p, head) == (Pool(ClearHeads(p.lines, c), p.idle + c), true)
  {
    if FindChain(p.lines, head).Some? {
      FindChainSound(p.lines, head, FindChain(p.lines, head).value);
    }
  }

  /** Row `k` of a chain once the first `done` ids have been written. */
  ghost function Filled(was: Row, ids: seq<u64>, k: nat, done: nat): (r: Row)
    requires done <= |ids|
  {
    seq(64, j requires 0 <= j < 64 =>
      if 0 < j && k * LINE_IDS + j - 1 < done then ids[k * LINE_IDS + j - 1] else was[j])
  }

  /** Heads first, then ids: the two write loops together produce the specified chain. */
  lemma WrittenIsChain(m: seq<Row>, n: seq<Row>, taken: seq<nat>, ids: seq<u64>)
    requires Sized(m) && Sized(n) && |taken| == LinesNeed(|ids|) && InRange(taken) && Distinct(taken)
    requires forall k :: 0 <= k < |taken| ==>
      n[taken[k]] == Filled(m[taken[k]][0 := HeadWord(taken, |ids|, k)], ids, k, |ids|)
    requires forall l :: 0 <= l < LINE_COUNT && l !in taken ==> n[l] == m[l]
    ensures n == WriteChain(m, taken, ids)
  {
    forall l | 0 <= l < LINE_COUNT
      ensures n[l] == WriteChain(m, taken, ids)[l]
    {
      if l in taken {
        var k := IndexOf(taken, l);
        assert taken[k] == l;
        RowWritten(m[l], taken, ids, k);
      }
    }
  }

  lemma RowWritten(was: Row, taken: seq<nat>, ids: seq<u64>, k: nat)
    requires k < |taken| == LinesNeed(|ids|) && InRange(taken)
    ensures Filled(was[0 := HeadWord(taken, |ids|, k)], ids, k, |ids|) == NewRow(was, taken, ids, k)
  {
    hide HeadWord;
    assert Filled(was[0 := HeadWord(taken, |ids|, k)], ids, k, |ids|) == NewRow(was, taken, ids, k);
  }
}
