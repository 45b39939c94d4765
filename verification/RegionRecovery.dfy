/** A region created, kept through any run and a restart, and recovered; and the loops that do it. */
module RegionRecovery {
  import opened Words
  import opened Catalog
  import opened StoreSpec
  import opened StoreTheorems
  import opened RegionBitmap
  import opened RegionRepository

  // ---- pairs

  lemma {:induction false} BagHas(hosts: seq<Host>, parse: Parse, x: (Option<u32>, bool))
    ensures x in Bag(hosts, parse) <==> exists i :: 0 <= i < |hosts| && x == (parse(hosts[i].nodeId), hosts[i].affinity)
  {
    if hosts != [] {
      var k := |hosts| - 1;
      BagHas(hosts[..k], parse, x);
      if i :| 0 <= i < |hosts| && x == (parse(hosts[i].nodeId), hosts[i].affinity) && i < k {
        assert hosts[..k][i] == hosts[i];
      }
    }
  }

  lemma {:induction false} InputBagHas(ids: seq<nat>, flags: seq<bool>, x: (Option<u32>, bool))
    requires |ids| == |flags|
    ensures x in InputBag(ids, flags) <==> exists i :: 0 <= i < |ids| && x == (AsId(ids[i]), flags[i])
  {
    if ids != [] {
      InputBagHas(ids[1..], flags[1..], x);
      if i :| 0 < i < |ids| && x == (AsId(ids[i]), flags[i]) {
        assert ids[1..][i - 1] == ids[i] && flags[1..][i - 1] == flags[i];
      }
    }
  }

  /** The same nodes with the same flags. */
  ghost predicate SameNodes(a: seq<Host>, b: seq<Host>, parse: Parse) {
    forall x :: x in Bag(a, parse) <==> x in Bag(b, parse)
  }

  lemma NodesBag(hosts: seq<Host>, parse: Parse, x: (Option<u32>, bool))
    requires NodesOf(hosts, parse).Some?
    ensures var (ids, flags) := NodesOf(hosts, parse).value; x in Bag(hosts, parse) <==> x in InputBag(ids, flags)
  {
    var (ids, flags) := NodesOf(hosts, parse).value;
    BagHas(hosts, parse, x);
    InputBagHas(ids, flags, x);
    hide Bag, InputBag;
    assert forall i :: 0 <= i < |hosts| ==> (parse(hosts[i].nodeId), hosts[i].affinity) == (AsId(ids[i]), flags[i]);
  }

  lemma SamePairs(ids: seq<nat>, flags: seq<bool>, ids': seq<nat>, flags': seq<bool>, x: (Option<u32>, bool))
    requires |ids| == |flags| && |ids'| == |flags'| && Pairs(ids, flags) == Pairs(ids', flags')
    ensures x in InputBag(ids, flags) ==> x in InputBag(ids', flags')
  {
    InputBagHas(ids, flags, x);
    InputBagHas(ids', flags', x);
    hide InputBag;
    if i :| 0 <= i < |ids| && x == (AsId(ids[i]), flags[i]) {
      assert (ids[i], flags[i]) in Pairs(ids', flags');
      var j :| 0 <= j < |ids'| && (ids'[j], flags'[j]) == (ids[i], flags[i]);
      assert x == (AsId(ids'[j]), flags'[j]);
    }
  }

  lemma {:induction false} DistinctSub(s: seq<nat>, t: seq<nat>)
    requires Distinct(s) && forall x :: x in s ==> x in t
    ensures multiset(s) <= multiset(t)
  {
    forall x
      ensures multiset(s)[x] <= multiset(t)[x]
    {
      OnceEach(s, x);
    }
  }

  lemma {:induction false} OnceEach(s: seq<nat>, x: nat)
    requires Distinct(s)
    ensures multiset(s)[x] <= 1 && (multiset(s)[x] == 1 ==> x in s)
  {
    if s != [] {
      var k := |s| - 1;
      assert s == s[..k] + [s[k]];
      OnceEach(s[..k], x);
    }
  }

  // ---- storing and listing

  /** What the store lists for a region record. */
  ghost function Listed(name: string, r: Region): Input {
    var ids := Members(r.bitmap, 0);
    MembersExact(r.bitmap, 0);
    Input(name, r.size, ids, Flags(r.affinity, ids))
  }

  /** Equal bags of pairs mean equal pairs, for node numbers that fit a word. */
  lemma PairsFromBags(ids: seq<nat>, flags: seq<bool>, ids': seq<nat>, flags': seq<bool>)
    requires |ids| == |flags| && |ids'| == |flags'|
    requires forall i :: 0 <= i < |ids| ==> ids[i] < MAX_NODE
    requires forall i :: 0 <= i < |ids'| ==> ids'[i] < MAX_NODE
    requires forall x :: x in InputBag(ids, flags) ==> x in InputBag(ids', flags')
    ensures Pairs(ids, flags) <= Pairs(ids', flags')
  {
    forall i | 0 <= i < |ids|
      ensures (ids[i], flags[i]) in Pairs(ids', flags')
    {
      var x := (AsId(ids[i]), flags[i]);
      InputBagHas(ids, flags, x);
      InputBagHas(ids', flags', x);
      var j :| 0 <= j < |ids'| && x == (AsId(ids'[j]), flags'[j]);
      assert (ids'[j], flags'[j]) == (ids[i], flags[i]);
    }
  }

  /**
    Stored, listed and matched against any regions one of which has all its nodes, a region always
    comes back, and with the same nodes and flags if and only if no node was listed with both flags.
    */
  lemma ComesBack(hosts: seq<Host>, name: string, size: u64, parse: Parse, regions: seq<Desc>, at: nat)
    requires NodesOf(hosts, parse).Some?
    requires var (ids, flags) := NodesOf(hosts, parse).value; NodesOk(ids, flags)
    requires at < |regions| && ToNodeIds(regions[at], parse).Some?
    requires forall n :: n in NodesOf(hosts, parse).value.0 ==> n in ToNodeIds(regions[at], parse).value.0
    ensures var (ids, flags) := NodesOf(hosts, parse).value;
      var r := Recovered(Listed(name, RegionOf(size, ids, flags)), regions, parse);
      r.Some? && (SameNodes(r.value, hosts, parse) <==> Consistent(ids, flags))
  {
    var (ids, flags) := NodesOf(hosts, parse).value;
    var region := RegionOf(size, ids, flags);
    var input := Listed(name, region);
    RoundTrip(ids, flags);
    assert Pairs(input.nodeIds, input.affinity) == Pairs(ids, flags) <==> Consistent(ids, flags);
    hide Encoded, Members, Flags, Matched, Consistent;
    assert Distinct(input.nodeIds);
    DistinctSub(input.nodeIds, ToNodeIds(regions[at], parse).value.0);
    MatchedExact(input, regions[at], parse);
    var r := Recovered(input, regions, parse);
    RecoveredFirst(input, regions, parse);
    assert r.Some?;
    var i :| 0 <= i < |regions| && Matched(input, regions[i], parse) == r;
    MatchedSame(input, regions[i], parse);
    SameIffPairs(hosts, r.value, parse, input.nodeIds, input.affinity);
  }

  lemma SameIffPairs(hosts: seq<Host>, found: seq<Host>, parse: Parse, ids: seq<nat>, flags: seq<bool>)
    requires NodesOf(hosts, parse).Some? && |ids| == |flags| && Bag(found, parse) == InputBag(ids, flags)
    requires forall i :: 0 <= i < |ids| ==> ids[i] < MAX_NODE
    requires var (all, on) := NodesOf(hosts, parse).value; NodesOk(all, on)
    ensures var (all, on) := NodesOf(hosts, parse).value;
      SameNodes(found, hosts, parse) <==> Pairs(ids, flags) == Pairs(all, on)
  {
    var (all, on) := NodesOf(hosts, parse).value;
    forall x
      ensures x in Bag(hosts, parse) <==> x in InputBag(all, on)
    {
      NodesBag(hosts, parse, x);
    }
    hide Bag, InputBag;
    if Pairs(ids, flags) == Pairs(all, on) {
      forall x
        ensures x in Bag(found, parse) <==> x in Bag(hosts, parse)
      {
        SamePairs(ids, flags, all, on, x);
        SamePairs(all, on, ids, flags, x);
      }
    }
    if SameNodes(found, hosts, parse) {
      PairsFromBags(ids, flags, all, on);
      PairsFromBags(all, on, ids, flags);
    }
  }

  // ---- through any run

  lemma {:induction false} RegionStays(v: View, ops: seq<Op>, oks: seq<bool>, name: string)
    requires |oks| == |ops| && name in v.regions && DelRegion(name) !in ops
    ensures name in Replay(v, ops, oks).regions && Replay(v, ops, oks).regions[name] == v.regions[name]
    decreases |ops|
  {
    if ops != [] {
      var w := if oks[0] && Legal(v, ops[0]) then Effect(v, ops[0]) else v;
      assert ops[0] in ops;
      assert name in w.regions && w.regions[name] == v.regions[name];
      hide Effect, Legal;
      RegionStays(w, ops[1..], oks[1..], name);
    }
  }

  /**
    A region created in any good store, followed by any operations and restarts that do not remove
    it, then a restart and recovery: the record holds the same size, and recovery, when one reported
    region has all its nodes, finds the region, with the same nodes and flags if and only if no node
    was listed with both flags.
    */
  lemma EndToEnd(st: Store, hosts: seq<Host>, name: string, size: u64, parse: Parse, ops: seq<Op>, regions: seq<Desc>, at: nat)
    requires Inv(st) && Bounded(st) && Clean(name)
    requires NodesOf(hosts, parse).Some?
    requires var (ids, flags) := NodesOf(hosts, parse).value;
      && NodesOk(ids, flags) && Step(st, AddRegion(name, size, ids, flags)).1
      && ValidRun(Step(st, AddRegion(name, size, ids, flags)).0, ops) && DelRegion(name) !in ops
    requires at < |regions| && ToNodeIds(regions[at], parse).Some?
    requires forall n :: n in NodesOf(hosts, parse).value.0 ==> n in ToNodeIds(regions[at], parse).value.0
    ensures var (ids, flags) := NodesOf(hosts, parse).value;
      var last := Run(Step(st, AddRegion(name, size, ids, flags)).0, ops).0;
      && Bounded(last) && Bounded(Restarted(last))
      && name in ViewOf(Restarted(last)).regions && ViewOf(Restarted(last)).regions[name].body.size == size
      && var r := Recovered(Listed(name, ViewOf(Restarted(last)).regions[name].body), regions, parse);
         r.Some? && (SameNodes(r.value, hosts, parse) <==> Consistent(ids, flags))
  {
    var (ids, flags) := NodesOf(hosts, parse).value;
    var op := AddRegion(name, size, ids, flags);
    ComesBack(hosts, name, size, parse, regions, at);
    Created(st, op);
    hide *;
    var q := Step(st, op).0;
    RunRefines(q, ops);
    RegionStays(ViewOf(q), ops, Run(q, ops).1, name);
  }

  lemma Created(st: Store, op: Op)
    requires Inv(st) && Bounded(st) && op.AddRegion? && Clean(op.name) && Step(st, op).1
    ensures Inv(Step(st, op).0) && Bounded(Step(st, op).0) && NodesOk(op.nodeIds, op.affinity)
    ensures var v := ViewOf(Step(st, op).0); op.name in v.regions && v.regions[op.name].body == RegionOf(op.size, op.nodeIds, op.affinity)
    ensures RegionOf(op.size, op.nodeIds, op.affinity).size == op.size
  {
    assert WellFormed(st, op);
    StepRefines(st, op);
    hide Step, ViewOf, Inv, Bounded, Fits;
  }

  // ---- the loops

  method UpdateRegionInfo(region: Info, parse: Parse) returns (r: Option<Input>)
    ensures r.Some? <==> ToNodeIds(region.region, parse).Some?
    ensures r.Some? ==> r.value.name == region.name && r.value.size == region.size
    ensures r.Some? ==> (r.value.nodeIds, r.value.affinity) == ToNodeIds(region.region, parse).value
  {
    var d := region.region;
    if d.num < 0 || d.num > MAX_HOSTS || |d.hosts| != MAX_HOSTS {
      return None;
    }
    var nodeIds, affinitys: seq<bool> := [], [];
    for i := 0 to d.num
      invariant NodesOf(d.hosts[..i], parse) == Some((nodeIds, affinitys))
    {
      assert d.hosts[..i + 1][..i] == d.hosts[..i];
      var id := parse(d.hosts[i].nodeId);
      if id == None {
        assert d.hosts[..d.num][i] == d.hosts[i];
        return None;
      }
      nodeIds, affinitys := nodeIds + [id.value], affinitys + [d.hosts[i].affinity];
    }
    r := Some(Input(region.name, region.size, nodeIds, affinitys));
  }

  /** The flags of the matched hosts, in two arrays as the matcher keeps them. */
  ghost function SlotsOf(flag: seq<bool>, affinity: seq<bool>): Slots
    requires |flag| == |affinity|
  {
    seq(|flag|, i requires 0 <= i < |flag| => if flag[i] then Some(affinity[i]) else None)
  }

  /** The first free host with a number. */
  method FindHost(hosts: seq<Host>, num: nat, flag: array<bool>, ghost slots: Slots, parse: Parse, id: nat) returns (r: Search)
    requires num == |slots| <= |hosts| && flag.Length == num && forall i :: 0 <= i < num ==> (flag[i] <==> slots[i].Some?)
    ensures r == Find(hosts, slots, parse, id, 0)
  {
    for i := 0 to num
      invariant Find(hosts, slots, parse, id, 0) == Find(hosts, slots, parse, id, i)
    {
      if !flag[i] {
        var x := parse(hosts[i].nodeId);
        if x == None {
          return Unreadable;
        }
        if x.value == id {
          return Found(i);
        }
      }
    }
    r := Missing;
  }

  method CheckRegionMatched(input: Input, example: Desc, parse: Parse) returns (r: Option<seq<Host>>)
    ensures r == Matched(input, example, parse)
  {
    if example.num < 0 || example.num > MAX_HOSTS || |example.hosts| != MAX_HOSTS
       || |input.nodeIds| != |input.affinity| || |input.nodeIds| > example.num {
      return None;
    }
    var flag, affinity := new bool[example.num](_ => false), new bool[example.num](_ => false);
    ghost var goal := MatchAll(example.hosts, Free(example.num), parse, input.nodeIds, input.affinity);
    ghost var slots := SlotsOf(flag[..], affinity[..]);
    assert slots == Free(example.num);
    for j := 0 to |input.nodeIds|
      invariant slots == SlotsOf(flag[..], affinity[..])
      invariant MatchAll(example.hosts, slots, parse, input.nodeIds[j..], input.affinity[j..]) == goal
    {
      var f := FindHost(example.hosts, example.num, flag, slots, parse, input.nodeIds[j]);
      if !f.Found? {
        return None;
      }
      ghost var before := slots;
      flag[f.i], affinity[f.i] := true, input.affinity[j];
      slots := SlotsOf(flag[..], affinity[..]);
      assert slots == before[f.i := Some(input.affinity[j])];
      assert input.nodeIds[j..][1..] == input.nodeIds[j + 1..] && input.affinity[j..][1..] == input.affinity[j + 1..];
    }
    assert input.nodeIds[|input.nodeIds|..] == [];
    var chosen := ChooseHosts(example.hosts, example.num, flag, affinity);
    r := Some(chosen);
  }

  /** Copies the matched hosts out, with their flags. */
  method ChooseHosts(hosts: seq<Host>, num: nat, flag: array<bool>, affinity: array<bool>) returns (chosen: seq<Host>)
    requires flag.Length == affinity.Length == num <= |hosts|
    ensures chosen == Chosen(hosts, SlotsOf(flag[..], affinity[..]))
  {
    chosen := [];
    ghost var slots := SlotsOf(flag[..], affinity[..]);
    for i := 0 to num
      invariant chosen == Chosen(hosts, slots[..i])
    {
      assert slots[..i + 1][..i] == slots[..i];
      if flag[i] {
        chosen := chosen + [hosts[i].(affinity := affinity[i])];
      }
    }
    assert slots[..num] == slots;
  }

  method TransRecordToRegionCache(input: Input, regions: seq<Desc>, parse: Parse) returns (r: Option<seq<Host>>)
    ensures r == Recovered(input, regions, parse)
  {
    for i := 0 to |regions|
      invariant Recovered(input, regions, parse) == Recovered(input, regions[i..], parse)
    {
      assert regions[i..][1..] == regions[i + 1..];
      r := CheckRegionMatched(input, regions[i], parse);
      if r.Some? {
        return;
      }
    }
    r := None;
  }

  /** Recovers every listed region, or reports the first that matches none. */
  method Recovery(list: seq<Input>, regions: seq<Desc>, parse: Parse) returns (r: Option<seq<seq<Host>>>)
    ensures r.Some? <==> forall i :: 0 <= i < |list| ==> Recovered(list[i], regions, parse).Some?
    ensures r.Some? ==> |r.value| == |list|
    ensures r.Some? ==> forall i :: 0 <= i < |list| ==> Some(r.value[i]) == Recovered(list[i], regions, parse)
  {
    var all: seq<seq<Host>> := [];
    for i := 0 to |list|
      invariant |all| == i && forall k :: 0 <= k < i ==> Some(all[k]) == Recovered(list[k], regions, parse)
    {
      var one := TransRecordToRegionCache(list[i], regions, parse);
      if one == None {
        return None;
      }
      all := all + [one.value];
    }
    r := Some(all);
  }
}
