/** Two catalogs that share one id pool: who owns which chain, and what each operation does to it. */
module Holdings {
  import opened Words
  import opened Catalog
  import opened IdPool

  /** Both catalogs agree with their slots, and every chain has exactly one owner among them. */
  ghost predicate Shares<P, Q>(c: Catalog<P>, o: Catalog<Q>, pool: Pool) {
    && Sized(pool.lines)
    && Sound(c, pool.lines) && OneHeadEach(c)
    && Sound(o, pool.lines) && OneHeadEach(o)
    && Heads(c) !! Heads(o)
    && Separate(pool, Heads(c) + Heads(o))
  }

  ghost predicate AllOwned<P, Q>(c: Catalog<P>, o: Catalog<Q>, pool: Pool)
    requires Sized(pool.lines) && InBounds(c) && InBounds(o)
  {
    Covered(pool, Heads(c) + Heads(o))
  }

  lemma SharesSwap<P, Q>(c: Catalog<P>, o: Catalog<Q>, pool: Pool)
    requires Shares(c, o, pool)
    ensures Shares(o, c, pool) && (AllOwned(o, c, pool) <==> AllOwned(c, o, pool))
  {
    assert Heads(c) + Heads(o) == Heads(o) + Heads(c);
  }

  lemma SeparateSubset(pool: Pool, heads: set<nat>, fewer: set<nat>)
    requires Separate(pool, heads) && fewer <= heads
    ensures Separate(pool, fewer)
  {
    hide FindChain, IdleExact;
  }

  /** Dropping a live head without freeing its chain leaves lines nobody owns. */
  lemma DroppedHeadUncovers(pool: Pool, heads: set<nat>, head: nat)
    requires Separate(pool, heads) && head in heads
    ensures !Covered(pool, heads - {head})
  {
    ChainNotIdle(pool, head);
    hide FindChain;
    assert head in ChainLines(pool.lines, head);
    assert forall h :: h in heads - {head} ==> head !in ChainLines(pool.lines, h);
    assert head !in OwnedLines(pool.lines, heads - {head});
  }

  ghost function ResultState<P>(c: Catalog<P>, pool: Pool, name: string, body: P, ids: seq<u64>): (r: (Catalog<P>, Pool, bool))
    requires InBounds(c) && name in c.cache && Sized(pool.lines) && InRange(pool.idle)
  {
    var (q, head) := Allocate(pool, ids);
    if head == None then (c, q, false) else (WithIds(c, name, body, head.value, ids), q, true)
  }

  lemma AllocateFits(pool: Pool, ids: seq<u64>)
    requires Sized(pool.lines) && InRange(pool.idle)
    ensures Allocate(pool, ids).1.Some? <==> ids != [] && LinesNeed(|ids|) <= |pool.idle|
    ensures Allocate(pool, ids).1.None? ==> Allocate(pool, ids).0 == pool
  {
  }

  /**
    Storing a result: succeeds exactly when the id list is non-empty and fits, changes only the
    named record, and keeps the pool fully owned if and only if the record held no ids before
    (a second result for the same record loses the first chain for good).
    */
  lemma ResultKeeps<P, Q>(c: Catalog<P>, o: Catalog<Q>, pool: Pool, name: string, body: P, ids: seq<u64>)
    requires Shares(c, o, pool) && name in c.cache
    ensures var (d, q, ok) := ResultState(c, pool, name, body, ids);
      && Shares(d, o, q)
      && |d.table.recs| == |c.table.recs|
      && (ok <==> ids != [] && LinesNeed(|ids|) <= |pool.idle|)
      && Contents(d) == (if ok then Contents(c)[name := Item(body, ids)] else Contents(c))
      && (forall h :: h in Heads(c) + Heads(o) ==> FillAllocated(q.lines, h) == FillAllocated(pool.lines, h))
      && (ok && AllOwned(c, o, pool) ==> (AllOwned(d, o, q) <==> c.cache[name].memIds == []))
      && (!ok ==> d == c && q == pool)
  {
    AllocateFits(pool, ids);
    var heads := Heads(c) + Heads(o);
    var (d, q, ok) := ResultState(c, pool, name, body, ids);
    if ok {
      hide FindChain, FillAllocated, Allocate, Separate, Covered;
      var head := Allocate(pool, ids).1.value;
      AllocateOwnership(pool, heads, ids);
      SoundFrame(c, pool.lines, q.lines);
      SoundFrame(o, pool.lines, q.lines);
      WithIdsSound(c, q.lines, name, body, head, ids);
      HeadsSplit(c, name);
      hide *;
      NewHeads(q, Heads(c), Heads(o), OwnHead(c, name), head);
    }
  }

  lemma NewHeads(q: Pool, mine: set<nat>, others: set<nat>, own: set<nat>, head: nat)
    requires Separate(q, mine + others + {head}) && mine !! others && own <= mine && head !in mine + others
    requires own == {} || exists h :: own == {h}
    ensures (mine - own + {head}) !! others && Separate(q, (mine - own + {head}) + others)
    ensures Covered(q, mine + others + {head}) ==> (Covered(q, (mine - own + {head}) + others) <==> own == {})
  {
    hide Separate, Covered;
    var all := mine + others + {head};
    SeparateSubset(q, all, (mine - own + {head}) + others);
    if own == {} {
      assert (mine - own + {head}) + others == all;
    } else {
      var h :| own == {h};
      DroppedHeadUncovers(q, all, h);
      assert (mine - own + {head}) + others == all - {h};
    }
  }

  ghost function RemoveState<P>(c: Catalog<P>, pool: Pool, name: string): (r: (Catalog<P>, Pool))
    requires InBounds(c) && name in c.cache && Sized(pool.lines)
  {
    var s := c.table.recs[c.cache[name].slot];
    (Removed(c, name), if s.memIdCount != 0 then Release(pool, s.memIdBuffer).0 else pool)
  }

  /** Deleting a record frees exactly its chain and leaves the pool owned as well as it was. */
  lemma RemoveKeeps<P, Q>(c: Catalog<P>, o: Catalog<Q>, pool: Pool, name: string)
    requires Shares(c, o, pool) && name in c.cache
    ensures var (d, q) := RemoveState(c, pool, name);
      && Shares(d, o, q)
      && |d.table.recs| == |c.table.recs|
      && Contents(d) == Contents(c) - {name}
      && (forall h :: h in Heads(d) + Heads(o) ==> FillAllocated(q.lines, h) == FillAllocated(pool.lines, h))
      && (AllOwned(d, o, q) <==> AllOwned(c, o, pool))
  {
    hide FindChain, FillAllocated, Release, Separate, Covered;
    var (d, q) := RemoveState(c, pool, name);
    RemovedSound(c, pool.lines, name);
    HeadsSplit(c, name);
    var s := c.table.recs[c.cache[name].slot];
    assert s.memIdCount == |c.cache[name].memIds|;
    if s.memIdCount != 0 {
      assert OwnHead(c, name) == {s.memIdBuffer};
      ReleaseOwnership(pool, Heads(c) + Heads(o), s.memIdBuffer);
      assert Heads(d) + Heads(o) == Heads(c) + Heads(o) - {s.memIdBuffer};
      SoundFrame(d, pool.lines, q.lines);
      SoundFrame(o, pool.lines, q.lines);
    } else {
      assert Heads(d) == Heads(c);
    }
  }
}
