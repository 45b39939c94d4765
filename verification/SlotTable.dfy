/** Fixed arrays of records with a free list of slot indexes, and the allocator that owns one. */
module SlotTable {
  import opened Words

  datatype Table<R> = Table(recs: seq<R>, idle: seq<nat>)

  /** The free list is duplicate-free and is exactly the set of slots whose record is idle. */
  ghost predicate Exact<R>(t: Table<R>, isIdle: R -> bool) {
    && Distinct(t.idle)
    && (forall i :: i in t.idle <==> 0 <= i < |t.recs| && isIdle(t.recs[i]))
  }

  /** The slots from `from` on whose record is idle (or, with `want` false, is in use), ascending. */
  ghost function Slots<R>(recs: seq<R>, isIdle: R -> bool, want: bool, from: nat): (s: seq<nat>)
    requires from <= |recs|
    decreases |recs| - from
  {
    if from == |recs| then []
    else if isIdle(recs[from]) == want then [from] + Slots(recs, isIdle, want, from + 1)
    else Slots(recs, isIdle, want, from + 1)
  }

  /** The scan lists exactly the wanted slots, in strictly increasing order. */
  lemma {:induction false} SlotsExact<R>(recs: seq<R>, isIdle: R -> bool, want: bool, from: nat)
    requires from <= |recs|
    ensures var s := Slots(recs, isIdle, want, from);
      && (forall i :: i in s <==> from <= i < |recs| && isIdle(recs[i]) == want)
      && (forall i :: 0 <= i < |s| ==> from <= s[i] < |recs|)
      && (forall i, j :: 0 <= i < j < |s| ==> s[i] < s[j])
    decreases |recs| - from
  {
    if from < |recs| {
      SlotsExact(recs, isIdle, want, from + 1);
    }
  }

  ghost function Restored<R>(recs: seq<R>, isIdle: R -> bool): (t: Table<R>)
    ensures Exact(t, isIdle) && t.recs == recs
  {
    SlotsExact(recs, isIdle, true, 0);
    Table(recs, Slots(recs, isIdle, true, 0))
  }

  /** Taking the last free slot and storing a record that is in use keeps the table exact. */
  lemma TakeKeepsExact<R>(t: Table<R>, isIdle: R -> bool, r: R)
    requires Exact(t, isIdle) && t.idle != [] && !isIdle(r)
    ensures var i := t.idle[|t.idle| - 1];
      && i < |t.recs| && isIdle(t.recs[i])
      && Exact(Table(t.recs[i := r], t.idle[..|t.idle| - 1]), isIdle)
  {
    var k := |t.idle| - 1;
    assert t.idle == t.idle[..k] + [t.idle[k]];
    assert t.idle[k] in t.idle;
    assert forall i :: i in t.idle[..k] <==> i in t.idle && i != t.idle[k];
  }

  /** Clearing a record that is in use and returning its slot keeps the table exact. */
  lemma GiveKeepsExact<R>(t: Table<R>, isIdle: R -> bool, i: nat, r: R)
    requires Exact(t, isIdle) && i < |t.recs| && !isIdle(t.recs[i]) && isIdle(r)
    ensures Exact(Table(t.recs[i := r], t.idle + [i]), isIdle)
  {
  }

  /** Two exact free lists over the same records hold the same slots, equally many. */
  lemma ExactSameIdle<R>(t: Table<R>, u: Table<R>, isIdle: R -> bool)
    requires Exact(t, isIdle) && Exact(u, isIdle) && t.recs == u.recs
    ensures (forall i :: i in t.idle <==> i in u.idle) && |t.idle| == |u.idle|
  {
    DistinctSameLength(t.idle, u.idle);
  }

  class Allocator<R> {
    const records: array<R>
    const isIdle: R -> bool
    const clear: R -> R
    var idle: seq<nat>

    ghost function Abs(): (t: Table<R>)
      reads this, records
    {
      Table(records[..], idle)
    }

    constructor (records: array<R>, isIdle: R -> bool, clear: R -> R)
      ensures this.records == records && this.isIdle == isIdle && this.clear == clear && idle == []
    {
      this.records, this.isIdle, this.clear := records, isIdle, clear;
      idle := [];
    }

    /** Scans the mapped records: idle slots join the free list, the others are returned in order. */
    method Restore() returns (inUse: seq<nat>)
      modifies this`idle
      ensures idle == old(idle) + Slots(records[..], isIdle, true, 0)
      ensures inUse == Slots(records[..], isIdle, false, 0)
    {
      inUse := [];
      ghost var recs := records[..];
      for i := 0 to records.Length
        invariant idle + Slots(recs, isIdle, true, i) == old(idle) + Slots(recs, isIdle, true, 0)
        invariant inUse + Slots(recs, isIdle, false, i) == Slots(recs, isIdle, false, 0)
      {
        if isIdle(records[i]) {
          assert idle + Slots(recs, isIdle, true, i) == (idle + [i]) + Slots(recs, isIdle, true, i + 1);
          idle := idle + [i];
        } else {
          assert inUse + Slots(recs, isIdle, false, i) == (inUse + [i]) + Slots(recs, isIdle, false, i + 1);
          inUse := inUse + [i];
        }
      }
    }

    method Allocate() returns (r: Option<nat>)
      modifies this`idle
      ensures old(idle) == [] ==> r == None && idle == []
      ensures old(idle) != [] ==> r.Some? && old(idle) == idle + [r.value]
    {
      if idle == [] {
        return None;
      }
      r := Some(idle[|idle| - 1]);
      idle := idle[..|idle| - 1];
    }

    method Release(index: nat)
      modifies this`idle, records
      ensures index >= records.Length ==> Abs() == old(Abs())
      ensures index < records.Length ==>
        Abs() == Table(old(records[..])[index := clear(old(records[index]))], old(idle) + [index])
    {
      if index >= records.Length {
        return;
      }
      records[index] := clear(records[index]);
      idle := idle + [index];
    }
  }
}
