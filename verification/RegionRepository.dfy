/**
  Regions across a restart: a region is stored as two bitmaps and, on recovery, matched greedily
  against the regions the engine reports. Reading a node number from text is a parameter.
  */
module RegionRepository {
  import opened Words

  const MAX_HOSTS := 16

  type Parse = string -> Option<u32>

  datatype Host = Host(nodeId: string, hostName: string, affinity: bool)
  /** `hosts` is a fixed array of which the first `num` count. */
  datatype Desc = Desc(perfLevel: int, kind: int, num: int, hosts: seq<Host>)
  datatype Input = Input(name: string, size: u64, nodeIds: seq<nat>, affinity: seq<bool>)
  datatype Info = Info(name: string, size: u64, region: Desc)

  predicate NumOk(d: Desc) {
    0 <= d.num <= MAX_HOSTS == |d.hosts|
  }

  // ---- storing

  /** The node numbers and flags of a region; None when one cannot be read. */
  function ToNodeIds(d: Desc, parse: Parse): Option<(seq<nat>, seq<bool>)> {
    if !NumOk(d) then None else NodesOf(d.hosts[..d.num], parse)
  }

  function NodesOf(hosts: seq<Host>, parse: Parse): (r: Option<(seq<nat>, seq<bool>)>)
    ensures r.Some? ==> |r.value.0| == |r.value.1| == |hosts|
    ensures r.Some? <==> forall i :: 0 <= i < |hosts| ==> parse(hosts[i].nodeId).Some?
    ensures r.Some? ==> forall i :: 0 <= i < |hosts| ==>
      parse(hosts[i].nodeId) == Some(r.value.0[i]) && r.value.1[i] == hosts[i].affinity
  {
    if hosts == [] then Some(([], []))
    else
      var k := |hosts| - 1;
      var front, last := NodesOf(hosts[..k], parse), parse(hosts[k].nodeId);
      if front == None || last == None then None
      else Some((front.value.0 + [last.value], front.value.1 + [hosts[k].affinity]))
  }

  /** A description is read exactly when it has at most 16 hosts and every one of them a number. */
  lemma ToNodeIdsIff(d: Desc, parse: Parse)
    requires |d.hosts| == 16
    ensures ToNodeIds(d, parse).Some? <==> 0 <= d.num <= 16 && forall i :: 0 <= i < d.num ==> parse(d.hosts[i].nodeId).Some?
  {
    if 0 <= d.num <= 16 {
      assert forall i :: 0 <= i < d.num ==> d.hosts[..d.num][i] == d.hosts[i];
    }
  }

  // ---- matching

  /** Which hosts are matched already, and with which flag. */
  type Slots = seq<Option<bool>>

  datatype Search = Found(i: nat) | Missing | Unreadable

  /** The first free host with a number; unreadable if a free host before it cannot be read. */
  function Find(hosts: seq<Host>, slots: Slots, parse: Parse, id: nat, i: nat): (r: Search)
    requires |slots| <= |hosts|
    ensures r.Found? ==> i <= r.i < |slots| && slots[r.i] == None && parse(hosts[r.i].nodeId) == Some(id)
    ensures r.Missing? ==> forall k :: i <= k < |slots| && slots[k] == None ==> parse(hosts[k].nodeId) != Some(id)
    ensures r.Unreadable? ==> exists k :: i <= k < |slots| && slots[k] == None && parse(hosts[k].nodeId) == None
    decreases |slots| - i
  {
    if i >= |slots| then Missing
    else if slots[i].Some? then Find(hosts, slots, parse, id, i + 1)
    else
      var x := parse(hosts[i].nodeId);
      if x == None then Unreadable else if x.value == id then Found(i) else Find(hosts, slots, parse, id, i + 1)
  }

  function MatchAll(hosts: seq<Host>, slots: Slots, parse: Parse, ids: seq<nat>, flags: seq<bool>): (r: Option<Slots>)
    requires |slots| <= |hosts| && |ids| == |flags|
    ensures r.Some? ==> |r.value| == |slots|
    decreases |ids|
  {
    if ids == [] then Some(slots)
    else
      match Find(hosts, slots, parse, ids[0], 0)
      case Found(i) => MatchAll(hosts, slots[i := Some(flags[0])], parse, ids[1..], flags[1..])
      case _ => None
  }

  /** The matched hosts, in the engine's order, with the stored flags. */
  function Chosen(hosts: seq<Host>, slots: Slots): (r: seq<Host>)
    requires |slots| <= |hosts|
    ensures |r| <= |slots|
  {
    if slots == [] then []
    else
      var k := |slots| - 1;
      Chosen(hosts, slots[..k]) + if slots[k].Some? then [hosts[k].(affinity := slots[k].value)] else []
  }

  function Free(n: nat): Slots { seq(n, _ => None) }

  function Matched(input: Input, example: Desc, parse: Parse): Option<seq<Host>> {
    if !NumOk(example) || |input.nodeIds| != |input.affinity| || |input.nodeIds| > example.num then None
    else
      var r := MatchAll(example.hosts, Free(example.num), parse, input.nodeIds, input.affinity);
      if r == None then None else Some(Chosen(example.hosts, r.value))
  }

  /** The first region that matches. */
  function Recovered(input: Input, regions: seq<Desc>, parse: Parse): (r: Option<seq<Host>>) {
    if regions == [] then None
    else
      var r := Matched(input, regions[0], parse);
      if r.Some? then r else Recovered(input, regions[1..], parse)
  }

  /** Recovery finds a region exactly when one matches, and what it gives is a match. */
  lemma {:induction false} RecoveredFirst(input: Input, regions: seq<Desc>, parse: Parse)
    ensures var r := Recovered(input, regions, parse);
      && (r.Some? ==> exists i :: 0 <= i < |regions| && Matched(input, regions[i], parse) == r)
      && (r.None? ==> forall i :: 0 <= i < |regions| ==> Matched(input, regions[i], parse) == None)
  {
    hide Matched;
    if regions != [] {
      RecoveredFirst(input, regions[1..], parse);
      assert forall i :: 0 <= i < |regions[1..]| ==> regions[1..][i] == regions[i + 1];
    }
  }

  // ---- what a match gives back

  /** The (node, flag) pairs of a host list, with repetitions. */
  ghost function Bag(hosts: seq<Host>, parse: Parse): multiset<(Option<u32>, bool)> {
    if hosts == [] then multiset{}
    else
      var k := |hosts| - 1;
      Bag(hosts[..k], parse) + multiset{(parse(hosts[k].nodeId), hosts[k].affinity)}
  }

  ghost function InputBag(ids: seq<nat>, flags: seq<bool>): multiset<(Option<u32>, bool)>
    requires |ids| == |flags|
  {
    if ids == [] then multiset{} else multiset{(AsId(ids[0]), flags[0])} + InputBag(ids[1..], flags[1..])
  }

  function AsId(n: nat): Option<u32> { if n < 0x1_0000_0000 then Some(n) else None }

  lemma BagPush(hosts: seq<Host>, h: Host, parse: Parse)
    ensures Bag(hosts + [h], parse) == Bag(hosts, parse) + multiset{(parse(h.nodeId), h.affinity)}
  {
    assert (hosts + [h])[..|hosts|] == hosts;
  }

  lemma ChosenBag(hosts: seq<Host>, slots: Slots, parse: Parse)
    requires 0 < |slots| <= |hosts|
    ensures var k := |slots| - 1;
      Bag(Chosen(hosts, slots), parse) == Bag(Chosen(hosts, slots[..k]), parse)
        + if slots[k].Some? then multiset{(parse(hosts[k].nodeId), slots[k].value)} else multiset{}
  {
    var k := |slots| - 1;
    if slots[k].Some? {
      BagPush(Chosen(hosts, slots[..k]), hosts[k].(affinity := slots[k].value), parse);
    } else {
      assert Chosen(hosts, slots) == Chosen(hosts, slots[..k]);
    }
  }

  lemma {:induction false} SetSlot(hosts: seq<Host>, slots: Slots, parse: Parse, i: nat, flag: bool)
    requires |slots| <= |hosts| && i < |slots| && slots[i] == None
    ensures Bag(Chosen(hosts, slots[i := Some(flag)]), parse)
         == Bag(Chosen(hosts, slots), parse) + multiset{(parse(hosts[i].nodeId), flag)}
    decreases |slots|
  {
    hide Bag, Chosen;
    var k := |slots| - 1;
    var after := slots[i := Some(flag)];
    ChosenBag(hosts, slots, parse);
    ChosenBag(hosts, after, parse);
    if i == k {
      assert after[..k] == slots[..k];
    } else {
      assert after[..k] == slots[..k][i := Some(flag)];
      SetSlot(hosts, slots[..k], parse, i, flag);
    }
  }

  lemma {:induction false} MatchAllBag(hosts: seq<Host>, slots: Slots, parse: Parse, ids: seq<nat>, flags: seq<bool>)
    requires |slots| <= |hosts| && |ids| == |flags|
    ensures var r := MatchAll(hosts, slots, parse, ids, flags);
      r.Some? ==> Bag(Chosen(hosts, r.value), parse) == Bag(Chosen(hosts, slots), parse) + InputBag(ids, flags)
    decreases |ids|
  {
    if ids != [] {
      var f := Find(hosts, slots, parse, ids[0], 0);
      if f.Found? {
        SetSlot(hosts, slots, parse, f.i, flags[0]);
        MatchAllBag(hosts, slots[f.i := Some(flags[0])], parse, ids[1..], flags[1..]);
      }
    }
  }

  lemma {:induction false} FreeChosen(hosts: seq<Host>, n: nat)
    requires n <= |hosts|
    ensures Chosen(hosts, Free(n)) == []
  {
    if n > 0 {
      assert Free(n)[..n - 1] == Free(n - 1);
      FreeChosen(hosts, n - 1);
    }
  }

  /** A match hands back exactly the stored (node, flag) pairs, repetitions included. */
  lemma MatchedSame(input: Input, example: Desc, parse: Parse)
    ensures var r := Matched(input, example, parse);
      r.Some? ==> |input.nodeIds| == |input.affinity| && Bag(r.value, parse) == InputBag(input.nodeIds, input.affinity)
  {
    if Matched(input, example, parse).Some? {
      FreeChosen(example.hosts, example.num);
      MatchAllBag(example.hosts, Free(example.num), parse, input.nodeIds, input.affinity);
    }
  }

  // ---- when there is a match

  /** The numbers of the hosts still free. */
  ghost function FreeIds(hosts: seq<Host>, slots: Slots, parse: Parse): multiset<nat>
    requires |slots| <= |hosts| && forall i :: 0 <= i < |slots| ==> parse(hosts[i].nodeId).Some?
  {
    if slots == [] then multiset{}
    else
      var k := |slots| - 1;
      FreeIds(hosts, slots[..k], parse) + if slots[k].None? then multiset{parse(hosts[k].nodeId).value as nat} else multiset{}
  }

  lemma {:induction false} FreeIdsHas(hosts: seq<Host>, slots: Slots, parse: Parse, id: nat)
    requires |slots| <= |hosts| && forall i :: 0 <= i < |slots| ==> parse(hosts[i].nodeId).Some?
    ensures id in FreeIds(hosts, slots, parse) <==> exists i :: 0 <= i < |slots| && slots[i] == None && parse(hosts[i].nodeId) == Some(id)
  {
    if slots != [] {
      var k := |slots| - 1;
      FreeIdsHas(hosts, slots[..k], parse, id);
      if i :| 0 <= i < |slots| && slots[i] == None && parse(hosts[i].nodeId) == Some(id) && i < k {
        assert slots[..k][i] == None;
      }
    }
  }

  lemma {:induction false} TakeSlot(hosts: seq<Host>, slots: Slots, parse: Parse, i: nat, flag: bool)
    requires |slots| <= |hosts| && forall i :: 0 <= i < |slots| ==> parse(hosts[i].nodeId).Some?
    requires i < |slots| && slots[i] == None
    ensures FreeIds(hosts, slots, parse)
         == FreeIds(hosts, slots[i := Some(flag)], parse) + multiset{parse(hosts[i].nodeId).value as nat}
    decreases |slots|
  {
    var k := |slots| - 1;
    var after := slots[i := Some(flag)];
    if i == k {
      assert after[..k] == slots[..k];
    } else {
      assert after[..k] == slots[..k][i := Some(flag)];
      TakeSlot(hosts, slots[..k], parse, i, flag);
    }
  }

  lemma {:induction false} MatchAllExact(hosts: seq<Host>, slots: Slots, parse: Parse, ids: seq<nat>, flags: seq<bool>)
    requires |slots| <= |hosts| && forall i :: 0 <= i < |slots| ==> parse(hosts[i].nodeId).Some?
    requires |ids| == |flags|
    ensures MatchAll(hosts, slots, parse, ids, flags).Some? <==> multiset(ids) <= FreeIds(hosts, slots, parse)
    decreases |ids|
  {
    if ids != [] {
      var f := Find(hosts, slots, parse, ids[0], 0);
      assert ids == [ids[0]] + ids[1..];
      assert multiset(ids) == multiset{ids[0]} + multiset(ids[1..]);
      FreeIdsHas(hosts, slots, parse, ids[0]);
      if f.Found? {
        var next := slots[f.i := Some(flags[0])];
        TakeSlot(hosts, slots, parse, f.i, flags[0]);
        MatchAllExact(hosts, next, parse, ids[1..], flags[1..]);
        Cancel(multiset(ids[1..]), FreeIds(hosts, next, parse), ids[0]);
      } else {
        assert ids[0] in multiset(ids);
      }
    }
  }

  lemma {:induction false} AllFree(hosts: seq<Host>, n: nat, parse: Parse)
    requires n <= |hosts| && forall i :: 0 <= i < n ==> parse(hosts[i].nodeId).Some?
    ensures NodesOf(hosts[..n], parse).Some? && FreeIds(hosts, Free(n), parse) == multiset(NodesOf(hosts[..n], parse).value.0)
  {
    if n > 0 {
      AllFree(hosts, n - 1, parse);
      assert Free(n)[..n - 1] == Free(n - 1) && hosts[..n][..n - 1] == hosts[..n - 1];
    }
  }

  /** With readable hosts, greedy matching succeeds exactly when the region has every stored node often enough. */
  lemma MatchedExact(input: Input, example: Desc, parse: Parse)
    requires |input.nodeIds| == |input.affinity| && ToNodeIds(example, parse).Some?
    ensures Matched(input, example, parse).Some? <==> multiset(input.nodeIds) <= multiset(ToNodeIds(example, parse).value.0)
  {
    var all := ToNodeIds(example, parse).value.0;
    assert forall i :: 0 <= i < example.num ==> example.hosts[..example.num][i] == example.hosts[i];
    AllFree(example.hosts, example.num, parse);
    MatchAllExact(example.hosts, Free(example.num), parse, input.nodeIds, input.affinity);
    if multiset(input.nodeIds) <= multiset(all) {
      assert |multiset(input.nodeIds)| <= |multiset(all)| by { SubBag(multiset(input.nodeIds), multiset(all)); }
    }
  }

  lemma Cancel(a: multiset<nat>, b: multiset<nat>, x: nat)
    ensures multiset{x} + a <= b + multiset{x} <==> a <= b
  {
    if multiset{x} + a <= b + multiset{x} {
      forall y
        ensures a[y] <= b[y]
      {
        assert (multiset{x} + a)[y] == multiset{x}[y] + a[y] && (b + multiset{x})[y] == b[y] + multiset{x}[y];
      }
    }
  }

  lemma SubBag<T>(a: multiset<T>, b: multiset<T>)
    requires a <= b
    ensures |a| <= |b|
  {
    assert b == a + (b - a);
  }
}
