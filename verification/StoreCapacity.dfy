/** Conservation: in every good store, what is free and what is in use add up to the fixed sizes of the arrays. */
module StoreCapacity {
  import opened Words
  import opened Catalog
  import opened RefIndex
  import opened StoreSpec
  import opened StoreTheorems
  import opened StoreResults
  import IdPool

  lemma RecordsAddUp<P>(c: Catalog<P>, m: seq<IdPool.Row>)
    requires IdPool.Sized(m) && Sound(c, m)
    ensures |c.table.idle| + |Contents(c)| == |c.table.recs|
  {
    SlotsAddUp(c, m);
    assert Contents(c).Keys == c.cache.Keys;
    assert |Contents(c)| == |Contents(c).Keys| && |c.cache| == |c.cache.Keys|;
    hide Sound;
  }

  lemma RefsAddUp(r: Refs)
    requires RefsOk(r)
    ensures |r.table.idle| + |LiveRefs(r.table.recs)| == |r.table.recs|
  {
    hide Holds;
    var idle, live := Elems(r.table.idle), LiveRefs(r.table.recs);
    DistinctCard(r.table.idle);
    assert forall i :: 0 <= i < |r.table.idle| ==> r.table.idle[i] in r.table.idle;
    SplitCard(idle, live, |r.table.recs|);
  }

  lemma LinesAddUp(p: IdPool.Pool, heads: set<nat>)
    requires IdPool.Separate(p, heads) && IdPool.Covered(p, heads)
    ensures |p.idle| + |IdPool.OwnedLines(p.lines, heads)| == IdPool.LINE_COUNT
  {
    var idle, owned := Elems(p.idle), IdPool.OwnedLines(p.lines, heads);
    DistinctCard(p.idle);
    IdPool.OwnedNotIdle(p, heads);
    assert IdPool.IdleExact(p);
    hide IdPool.Separate, IdPool.OwnedLines, IdPool.ChainLines;
    assert forall i :: 0 <= i < |p.idle| ==> p.idle[i] in p.idle;
    SplitCard(idle, owned, IdPool.LINE_COUNT);
  }

  /** Room for 256 regions, 16384 leases, 18432 imports, 1179648 references and 32768 lines of ids, used or free. */
  lemma AddsUp(st: Store)
    requires Inv(st) && Bounded(st)
    ensures |st.regions.table.idle| + |ViewOf(st).regions| == 256
    ensures |st.leases.table.idle| + |ViewOf(st).leases| == 16384
    ensures |st.imports.table.idle| + |ViewOf(st).imports| == 18432
    ensures |st.refs.table.idle| + |LiveRefs(st.refs.table.recs)| == 1179648
    ensures Owned(st) ==>
      |st.pool.idle| + |IdPool.OwnedLines(st.pool.lines, Heads(st.leases) + Heads(st.imports))| == 32768
  {
    InvParts(st);
    var m := st.pool.lines;
    assert Sound(st.leases, m);
    hide Sound, RefsOk, RefCounts, Contents;
    RecordsAddUp(st.regions, m);
    RecordsAddUp(st.leases, m);
    RecordsAddUp(st.imports, m);
    RefsAddUp(st.refs);
    if Owned(st) {
      LinesAddUp(st.pool, Heads(st.leases) + Heads(st.imports));
    }
  }
}
