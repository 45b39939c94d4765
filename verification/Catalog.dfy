/**
  One family of named records: the persistent slots, their free list, and the in-memory cache
  that maps a name to its slot and its memory ids. Regions, leases and imports are all instances
  (a region slot simply never holds ids).
  */
module Catalog {
  import opened Words
  import opened SlotTable
  import opened IdPool

  const NAME_SIZE := 64

  datatype Slot<P> = Slot(name: string, body: P, memIdCount: nat, memIdBuffer: nat)
  datatype Entry = Entry(slot: nat, memIds: seq<u64>)
  datatype Item<P> = Item(body: P, memIds: seq<u64>)
  datatype Catalog<P> = Catalog(table: Table<Slot<P>>, cache: map<string, Entry>)

  predicate IsFree<P>(s: Slot<P>) { s.name == "" }
  function Cleared<P>(s: Slot<P>): Slot<P> { s.(name := "") }

  /** What a C string copy keeps of a name: everything before the first NUL. */
  function CStr(s: string): (r: string)
    ensures '\0' !in r && r <= s && (|r| < |s| ==> s[|r|] == '\0')
    ensures r == s <==> '\0' !in s
  {
    if s == "" || s[0] == '\0' then "" else [s[0]] + CStr(s[1..])
  }

  predicate Clean(name: string) { name != "" && '\0' !in name }

  // ---- operations

  /** The last free slot becomes the record of `name`. */
  function Fresh<P>(c: Catalog<P>, name: string, body: P): (r: Catalog<P>)
    requires InBounds(c) && c.table.idle != []
  {
    var k := |c.table.idle| - 1;
    var i := c.table.idle[k];
    Catalog(Table(c.table.recs[i := Slot(CStr(name), body, 0, 0)], c.table.idle[..k]),
            c.cache[name := Entry(i, [])])
  }

  /** A free slot is written and then cleared again, back on the free list. */
  function Scribbled<P>(c: Catalog<P>, i: nat, s: Slot<P>): (r: Catalog<P>)
    requires i < |c.table.recs|
  {
    c.(table := Table(c.table.recs[i := Cleared(s)], c.table.idle))
  }

  function Added<P>(c: Catalog<P>, name: string, body: P): (r: (Catalog<P>, bool))
    requires InBounds(c)
  {
    if |name| >= NAME_SIZE || c.table.idle == [] then (c, false)
    else if name in c.cache then
      (Scribbled(c, c.table.idle[|c.table.idle| - 1], Slot(CStr(name), body, 0, 0)), false)
    else (Fresh(c, name, body), true)
  }

  function Removed<P>(c: Catalog<P>, name: string): (r: Catalog<P>)
    requires InBounds(c) && name in c.cache
  {
    var i := c.cache[name].slot;
    Catalog(Table(c.table.recs[i := Cleared(c.table.recs[i])], c.table.idle + [i]), c.cache - {name})
  }

  function Rewritten<P>(c: Catalog<P>, name: string, body: P): (r: Catalog<P>)
    requires InBounds(c) && name in c.cache
  {
    var i := c.cache[name].slot;
    c.(table := c.table.(recs := c.table.recs[i := c.table.recs[i].(body := body)]))
  }

  function WithIds<P>(c: Catalog<P>, name: string, body: P, head: nat, ids: seq<u64>): (r: Catalog<P>)
    requires InBounds(c) && name in c.cache
  {
    var i := c.cache[name].slot;
    var s := c.table.recs[i].(body := body, memIdCount := |ids|, memIdBuffer := head);
    Catalog(c.table.(recs := c.table.recs[i := s]), c.cache[name := Entry(i, ids)])
  }

  // ---- invariant

  ghost predicate InBounds<P>(c: Catalog<P>) {
    && (forall k :: 0 <= k < |c.table.idle| ==> c.table.idle[k] < |c.table.recs|)
    && (forall n :: n in c.cache ==> c.cache[n].slot < |c.table.recs|)
  }

  /** The slot remembers how many ids there are and, if any, the chain that holds them. */
  ghost predicate Stored<P>(m: seq<Row>, s: Slot<P>, ids: seq<u64>)
    requires Sized(m)
  {
    s.memIdCount == |ids| && (ids != [] ==> FillAllocated(m, s.memIdBuffer) == Some(ids))
  }

  /** Cache and persistent slots agree, in both directions. */
  ghost predicate Sound<P>(c: Catalog<P>, m: seq<Row>)
    requires Sized(m)
  {
    && InBounds(c)
    && Exact(c.table, IsFree)
    && (forall n :: n in c.cache ==> Clean(n) && c.table.recs[c.cache[n].slot].name == n)
    && (forall n :: n in c.cache ==> Stored(m, c.table.recs[c.cache[n].slot], c.cache[n].memIds))
    && (forall i :: 0 <= i < |c.table.recs| && c.table.recs[i].name != "" ==>
          c.table.recs[i].name in c.cache && c.cache[c.table.recs[i].name].slot == i)
  }

  /** The abstract value: what the listing functions report. */
  ghost function Contents<P>(c: Catalog<P>): map<string, Item<P>>
    requires InBounds(c)
  {
    map n | n in c.cache :: Item(c.table.recs[c.cache[n].slot].body, c.cache[n].memIds)
  }

  ghost function HeadOf<P>(c: Catalog<P>, n: string): nat
    requires InBounds(c) && n in c.cache
  {
    c.table.recs[c.cache[n].slot].memIdBuffer
  }

  /** The chain heads owned by records that hold ids. */
  ghost function Heads<P>(c: Catalog<P>): set<nat>
    requires InBounds(c)
  {
    set n | n in c.cache && c.cache[n].memIds != [] :: HeadOf(c, n)
  }

  ghost predicate OneHeadEach<P>(c: Catalog<P>)
    requires InBounds(c)
  {
    forall a, b ::
      (a in c.cache && b in c.cache && c.cache[a].memIds != [] && c.cache[b].memIds != [] && a != b) ==>
        HeadOf(c, a) != HeadOf(c, b)
  }

  // ---- each operation keeps the invariant and does the abstract update

  lemma SoundFrame<P>(c: Catalog<P>, m: seq<Row>, n: seq<Row>)
    requires Sized(m) && Sized(n) && Sound(c, m)
    requires forall h :: h in Heads(c) ==> FillAllocated(n, h) == FillAllocated(m, h)
    ensures Sound(c, n)
  {
    hide FillAllocated;
    forall a | a in c.cache
      ensures Stored(n, c.table.recs[c.cache[a].slot], c.cache[a].memIds)
    {
      if c.cache[a].memIds != [] {
        assert HeadOf(c, a) in Heads(c);
      }
    }
  }

  /** The heads owned by records other than `name`. */
  ghost function HeadsExcept<P>(c: Catalog<P>, name: string): set<nat>
    requires InBounds(c)
  {
    set n | n in c.cache && n != name && c.cache[n].memIds != [] :: HeadOf(c, n)
  }

  ghost function OwnHead<P>(c: Catalog<P>, name: string): set<nat>
    requires InBounds(c)
  {
    if name in c.cache && c.cache[name].memIds != [] then {HeadOf(c, name)} else {}
  }

  lemma HeadsSplit<P>(c: Catalog<P>, name: string)
    requires InBounds(c)
    ensures Heads(c) == HeadsExcept(c, name) + OwnHead(c, name)
    ensures OneHeadEach(c) ==> HeadsExcept(c, name) == Heads(c) - OwnHead(c, name)
  {
    forall h | h in Heads(c)
      ensures h in HeadsExcept(c, name) + OwnHead(c, name)
    {
      var n :| n in c.cache && c.cache[n].memIds != [] && HeadOf(c, n) == h;
      assert n == name || h in HeadsExcept(c, name);
    }
  }

  /** `d` differs from `c` at most in what it says about `name` and in slots no other record uses. */
  ghost predicate OnlyAt<P>(c: Catalog<P>, d: Catalog<P>, name: string)
    requires InBounds(c) && InBounds(d)
  {
    && |d.table.recs| == |c.table.recs|
    && d.cache - {name} == c.cache - {name}
    && (forall n :: n in c.cache && n != name ==> d.table.recs[c.cache[n].slot] == c.table.recs[c.cache[n].slot])
  }

  /** A change at one name keeps the invariant when that name itself is stored properly. */
  lemma ChangeSound<P>(c: Catalog<P>, d: Catalog<P>, m: seq<Row>, name: string)
    requires Sized(m) && Sound(c, m) && OneHeadEach(c)
    requires InBounds(d) && OnlyAt(c, d, name) && Exact(d.table, IsFree)
    requires name in d.cache ==>
      && Clean(name) && d.table.recs[d.cache[name].slot].name == name
      && Stored(m, d.table.recs[d.cache[name].slot], d.cache[name].memIds)
    requires forall i :: 0 <= i < |d.table.recs| && d.table.recs[i].name != "" ==>
      d.table.recs[i].name in d.cache && d.cache[d.table.recs[i].name].slot == i
    requires OwnHead(d, name) !! HeadsExcept(c, name)
    ensures Sound(d, m) && OneHeadEach(d)
    ensures Heads(d) == Heads(c) - OwnHead(c, name) + OwnHead(d, name)
  {
    hide FillAllocated, Exact;
    OnlyAtCache(c, d, name);
    assert Sound(d, m);
    assert HeadsExcept(d, name) == HeadsExcept(c, name);
    HeadsSplit(c, name);
    HeadsSplit(d, name);
    forall a, b | a in d.cache && b in d.cache && d.cache[a].memIds != [] && d.cache[b].memIds != [] && a != b
      ensures HeadOf(d, a) != HeadOf(d, b)
    {
      if a == name {
        assert HeadOf(d, b) in HeadsExcept(c, name);
      } else if b == name {
        assert HeadOf(d, a) in HeadsExcept(c, name);
      }
    }
  }

  lemma OnlyAtCache<P>(c: Catalog<P>, d: Catalog<P>, name: string)
    requires InBounds(c) && InBounds(d) && OnlyAt(c, d, name)
    ensures forall n :: n != name ==> (n in d.cache <==> n in c.cache)
    ensures forall n :: n in d.cache && n != name ==> d.cache[n] == c.cache[n] && HeadOf(d, n) == HeadOf(c, n)
  {
    assert forall n :: n in d.cache && n != name ==> n in d.cache - {name};
    assert forall n :: n in c.cache && n != name ==> n in c.cache - {name};
  }

  lemma ContentsChange<P>(c: Catalog<P>, d: Catalog<P>, name: string)
    requires InBounds(c) && InBounds(d) && OnlyAt(c, d, name)
    ensures Contents(d) == if name !in d.cache then Contents(c) - {name}
      else Contents(c)[name := Item(d.table.recs[d.cache[name].slot].body, d.cache[name].memIds)]
  {
    OnlyAtCache(c, d, name);
  }

  lemma AddedSound<P>(c: Catalog<P>, m: seq<Row>, name: string, body: P)
    requires Sized(m) && Sound(c, m) && OneHeadEach(c) && Clean(name)
    ensures var (d, ok) := Added(c, name, body);
      && Sound(d, m) && OneHeadEach(d) && Heads(d) == Heads(c)
      && |d.table.recs| == |c.table.recs|
      && (ok <==> |name| < NAME_SIZE && name !in c.cache && c.table.idle != [])
      && Contents(d) == (if ok then Contents(c)[name := Item(body, [])] else Contents(c))
      && (forall n :: n in c.cache ==> n in d.cache && d.cache[n] == c.cache[n])
      && (forall n :: n in d.cache && n !in c.cache ==> c.table.recs[d.cache[n].slot].name == "")
  {
    if |name| < NAME_SIZE && c.table.idle != [] {
      var i := c.table.idle[|c.table.idle| - 1];
      assert i in c.table.idle;
      if name in c.cache {
        ScribbledSound(c, m, i, Slot(CStr(name), body, 0, 0));
        hide *;
        assert Added(c, name, body).0 == Scribbled(c, i, Slot(CStr(name), body, 0, 0));
      } else {
        FreshSound(c, m, name, body);
      }
    }
  }

  /** Adding a name that is already cached only scribbles on a slot that stays free. */
  lemma ScribbledSound<P>(c: Catalog<P>, m: seq<Row>, i: nat, s: Slot<P>)
    requires Sized(m) && Sound(c, m) && OneHeadEach(c)
    requires i < |c.table.recs| && IsFree(c.table.recs[i])
    ensures var d := Scribbled(c, i, s);
      && Sound(d, m) && OneHeadEach(d) && Heads(d) == Heads(c) && Contents(d) == Contents(c)
      && |d.table.recs| == |c.table.recs| && d.cache == c.cache
  {
    hide FillAllocated;
    var d := Scribbled(c, i, s);
    SameNamesExact(c.table, d.table);
    assert forall n :: n in c.cache ==> c.cache[n].slot != i;
    assert forall n :: n in c.cache ==> HeadOf(d, n) == HeadOf(c, n);
  }

  lemma FreshStored<P>(m: seq<Row>, s: Slot<P>)
    requires Sized(m) && s.memIdCount == 0
    ensures Stored(m, s, [])
  {
  }

  /** A new name changes one free slot and its own cache entry. */
  lemma FreshAt<P>(c: Catalog<P>, m: seq<Row>, name: string, body: P)
    requires Sized(m) && Sound(c, m) && Clean(name) && name !in c.cache && c.table.idle != []
    ensures var d := Fresh(c, name, body);
      && InBounds(d) && OnlyAt(c, d, name) && Exact(d.table, IsFree)
      && (forall i :: 0 <= i < |d.table.recs| && d.table.recs[i].name != "" ==>
            d.table.recs[i].name in d.cache && d.cache[d.table.recs[i].name].slot == i)
      && d.table.recs[d.cache[name].slot] == Slot(name, body, 0, 0)
  {
    assert CStr(name) == name;
    hide FillAllocated, CStr, Stored;
    var i := c.table.idle[|c.table.idle| - 1];
    assert i in c.table.idle;
    TakeKeepsExact(c.table, IsFree, Slot(name, body, 0, 0));
    assert forall n :: n in c.cache ==> c.cache[n].slot != i;
    hide Exact;
    var d := Fresh(c, name, body);
    assert d.cache - {name} == c.cache - {name};
  }

  lemma FreshSound<P>(c: Catalog<P>, m: seq<Row>, name: string, body: P)
    requires Sized(m) && Sound(c, m) && OneHeadEach(c) && Clean(name)
    requires name !in c.cache && c.table.idle != []
    ensures var d := Fresh(c, name, body);
      && Sound(d, m) && OneHeadEach(d) && Heads(d) == Heads(c)
      && |d.table.recs| == |c.table.recs|
      && Contents(d) == Contents(c)[name := Item(body, [])]
  {
    var d := Fresh(c, name, body);
    FreshAt(c, m, name, body);
    assert OwnHead(d, name) == {} && OwnHead(c, name) == {} && |d.table.recs| == |c.table.recs|;
    ContentsChange(c, d, name);
    FreshStored(m, d.table.recs[d.cache[name].slot]);
    hide Contents, OnlyAt, Exact, Stored, FillAllocated, Sound, OneHeadEach, CStr, Clean, HeadsExcept;
    ChangeSound(c, d, m, name);
  }

  lemma RemovedSound<P>(c: Catalog<P>, m: seq<Row>, name: string)
    requires Sized(m) && Sound(c, m) && OneHeadEach(c) && name in c.cache
    ensures var d := Removed(c, name);
      && Sound(d, m) && OneHeadEach(d) && Heads(d) == Heads(c) - OwnHead(c, name)
      && |d.table.recs| == |c.table.recs|
      && Contents(d) == Contents(c) - {name}
      && OwnHead(c, name) <= Heads(c)
  {
    hide FillAllocated;
    var d := Removed(c, name);
    var i := c.cache[name].slot;
    GiveKeepsExact(c.table, IsFree, i, Cleared(c.table.recs[i]));
    assert forall n :: n in c.cache && n != name ==> c.cache[n].slot != i;
    HeadsSplit(c, name);
    ContentsChange(c, d, name);
    ChangeSound(c, d, m, name);
    hide *;
  }

  lemma RewrittenSound<P>(c: Catalog<P>, m: seq<Row>, name: string, body: P)
    requires Sized(m) && Sound(c, m) && OneHeadEach(c) && name in c.cache
    ensures var d := Rewritten(c, name, body);
      && Sound(d, m) && OneHeadEach(d) && Heads(d) == Heads(c)
      && |d.table.recs| == |c.table.recs|
      && Contents(d) == Contents(c)[name := Item(body, c.cache[name].memIds)]
  {
    hide FillAllocated;
    var d := Rewritten(c, name, body);
    var i := c.cache[name].slot;
    SameNamesExact(c.table, d.table);
    assert forall n :: n in c.cache && n != name ==> c.cache[n].slot != i;
    HeadsSplit(c, name);
    ContentsChange(c, d, name);
    ChangeSound(c, d, m, name);
  }

  lemma SameNamesExact<P>(t: Table<Slot<P>>, u: Table<Slot<P>>)
    requires Exact(t, IsFree) && |u.recs| == |t.recs| && u.idle == t.idle
    requires forall j :: 0 <= j < |t.recs| ==> u.recs[j].name == t.recs[j].name
    ensures Exact(u, IsFree)
  {
  }

  lemma WithIdsSound<P>(c: Catalog<P>, m: seq<Row>, name: string, body: P, head: nat, ids: seq<u64>)
    requires Sized(m) && Sound(c, m) && OneHeadEach(c) && name in c.cache
    requires ids != [] && FillAllocated(m, head) == Some(ids) && head !in Heads(c)
    ensures var d := WithIds(c, name, body, head, ids);
      && Sound(d, m) && OneHeadEach(d) && Heads(d) == Heads(c) - OwnHead(c, name) + {head}
      && |d.table.recs| == |c.table.recs|
      && Contents(d) == Contents(c)[name := Item(body, ids)]
  {
    hide FillAllocated;
    var d := WithIds(c, name, body, head, ids);
    var i := c.cache[name].slot;
    SameNamesExact(c.table, d.table);
    assert forall n :: n in c.cache && n != name ==> c.cache[n].slot != i;
    HeadsSplit(c, name);
    ContentsChange(c, d, name);
    ChangeSound(c, d, m, name);
  }

  // ---- restart

  /** The cache rebuilt from the slots in `live`, in that order, keeping the first of a name. */
  ghost function RestoredCache<P>(recs: seq<Slot<P>>, live: seq<nat>, m: seq<Row>): map<string, Entry>
    requires Sized(m) && forall i :: 0 <= i < |live| ==> live[i] < |recs|
  {
    if live == [] then map[]
    else
      var k := |live| - 1;
      var before := RestoredCache(recs, live[..k], m);
      var s := recs[live[k]];
      var filled := FillAllocated(m, s.memIdBuffer);
      if s.memIdCount != 0 && filled == None then before
      else if s.name in before then before
      else before[s.name := Entry(live[k], if s.memIdCount != 0 then filled.value else [])]
  }

  ghost function RestoredCatalog<P>(recs: seq<Slot<P>>, m: seq<Row>): (c: Catalog<P>)
    requires Sized(m)
  {
    SlotsExact(recs, IsFree, false, 0);
    Catalog(Restored(recs, IsFree), RestoredCache(recs, Slots(recs, IsFree, false, 0), m))
  }

  lemma {:induction false} RestoredPrefix<P>(c: Catalog<P>, m: seq<Row>, live: seq<nat>)
    requires Sized(m) && Sound(c, m) && Distinct(live)
    requires forall i :: 0 <= i < |live| ==> live[i] < |c.table.recs| && c.table.recs[live[i]].name != ""
    ensures RestoredCache(c.table.recs, live, m) == map n | n in c.cache && c.cache[n].slot in live :: c.cache[n]
  {
    hide FillAllocated;
    if live != [] {
      var k := |live| - 1;
      var s := c.table.recs[live[k]];
      RestoredPrefix(c, m, live[..k]);
      assert live == live[..k] + [live[k]];
      assert Stored(m, s, c.cache[s.name].memIds);
      assert live[k] !in live[..k];
    }
  }

  /** Rebuilding from the persistent slots and pool alone gives back the very same cache. */
  lemma RestoreExact<P>(c: Catalog<P>, m: seq<Row>)
    requires Sized(m) && Sound(c, m)
    ensures RestoredCatalog(c.table.recs, m).cache == c.cache
    ensures Sound(RestoredCatalog(c.table.recs, m), m)
    ensures forall i :: i in RestoredCatalog(c.table.recs, m).table.idle <==> i in c.table.idle
  {
    hide FillAllocated;
    var live := Slots(c.table.recs, IsFree, false, 0);
    SlotsExact(c.table.recs, IsFree, false, 0);
    RestoredPrefix(c, m, live);
    assert forall n :: n in c.cache ==> c.cache[n].slot in live;
    var t := Restored(c.table.recs, IsFree);
    ExactSameIdle(c.table, t, IsFree);
    assert RestoredCatalog(c.table.recs, m) == Catalog(t, c.cache);
    OtherFreeList(c, m, t.idle);
  }

  lemma OtherFreeList<P>(c: Catalog<P>, m: seq<Row>, idle: seq<nat>)
    requires Sized(m) && Sound(c, m) && Exact(Table(c.table.recs, idle), IsFree)
    ensures Sound(Catalog(Table(c.table.recs, idle), c.cache), m)
  {
    hide FillAllocated;
    assert forall k :: 0 <= k < |idle| ==> idle[k] in idle;
  }

  lemma {:induction false} RestoredNames<P>(recs: seq<Slot<P>>, live: seq<nat>, m: seq<Row>, n: string)
    requires Sized(m) && forall i :: 0 <= i < |live| ==> live[i] < |recs|
    requires n in RestoredCache(recs, live, m)
    ensures exists i :: i in live && recs[i].name == n
  {
    hide FillAllocated;
    var k := |live| - 1;
    if n in RestoredCache(recs, live[..k], m) {
      RestoredNames(recs, live[..k], m, n);
      assert forall i :: i in live[..k] ==> i in live;
    } else {
      assert live[k] in live;
    }
  }

  lemma NamesNulFree<P>(c: Catalog<P>, m: seq<Row>, name: string, body: P, i: nat)
    requires Sized(m) && Sound(c, m) && Added(c, name, body).1 && i < |c.table.recs|
    ensures '\0' !in Added(c, name, body).0.table.recs[i].name
  {
    hide FillAllocated;
    assert c.table.recs[i].name != "" ==> Clean(c.table.recs[i].name);
  }

  /** Such a name is added like any other, to a slot that was free, but the slot does not keep it. */
  lemma UncleanAdded<P>(c: Catalog<P>, m: seq<Row>, name: string, body: P)
    requires Sized(m) && Sound(c, m) && !Clean(name)
    ensures var (d, ok) := Added(c, name, body);
      && name !in c.cache && InBounds(d) && |d.table.recs| == |c.table.recs|
      && (ok <==> |name| < NAME_SIZE && c.table.idle != [])
      && (ok ==> !Sound(d, m) && Contents(d) == Contents(c)[name := Item(body, [])]
                 && d.cache == c.cache[name := d.cache[name]] && c.table.recs[d.cache[name].slot].name == "")
      && (!ok ==> d == c)
  {
    if |name| < NAME_SIZE && c.table.idle != [] {
      var i := c.table.idle[|c.table.idle| - 1];
      assert i in c.table.idle;
      var d := Fresh(c, name, body);
      assert name in d.cache && !Sound(d, m);
      hide FillAllocated, CStr, Stored;
      assert forall n :: n in c.cache ==> c.cache[n].slot != i;
      assert OnlyAt(c, d, name);
      ContentsChange(c, d, name);
    }
  }

  /** A name that is empty or holds a NUL is in the cache after the add, and not after a restart. */
  lemma UncleanLost<P>(c: Catalog<P>, m: seq<Row>, name: string, body: P)
    requires Sized(m) && Sound(c, m) && Added(c, name, body).1 && !Clean(name)
    ensures var d := Added(c, name, body).0; name in d.cache && name !in RestoredCatalog(d.table.recs, m).cache
  {
    hide FillAllocated;
    var d := Added(c, name, body).0;
    var live := Slots(d.table.recs, IsFree, false, 0);
    SlotsExact(d.table.recs, IsFree, false, 0);
    if name in RestoredCache(d.table.recs, live, m) {
      RestoredNames(d.table.recs, live, m, name);
      var i :| i in live && d.table.recs[i].name == name;
      NamesNulFree(c, m, name, body, i);
    }
  }

  /**
    After a successful add, a restart rebuilds the cache if and only if the new name is
    non-empty and free of NUL: an empty name leaves its slot looking free, and a name with a
    NUL comes back cut short.
    */
  lemma AddSurvivesRestartIffClean<P>(c: Catalog<P>, m: seq<Row>, name: string, body: P)
    requires Sized(m) && Sound(c, m) && OneHeadEach(c) && Added(c, name, body).1
    ensures var d := Added(c, name, body).0;
      RestoredCatalog(d.table.recs, m).cache == d.cache <==> Clean(name)
  {
    hide FillAllocated;
    if Clean(name) {
      AddedSound(c, m, name, body);
      RestoreExact(Added(c, name, body).0, m);
    } else {
      UncleanLost(c, m, name, body);
    }
  }
}
