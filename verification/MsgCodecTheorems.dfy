/** Round trip, exact consumption, no valid strict prefix, and sticky invalidity of the wire format. */
module MsgCodecTheorems {
  import opened MsgCodec

  lemma {:induction false} NumberRound(x: nat, n: nat)
    ensures ValueOf(Number(x, n)) == x % Pow256(n)
  {
    if n > 0 {
      NumberRound(x / 256, n - 1);
      assert Number(x, n)[1..] == Number(x / 256, n - 1);
      DivMod(x, Pow256(n - 1));
    }
  }

  lemma DivMod(x: nat, m: nat)
    requires m >= 1
    ensures x % (256 * m) == x % 256 + 256 * (x / 256 % m)
  {
    var q, r := x / 256 / m, x / 256 % m;
    assert x / 256 == m * q + r;
    assert x == 256 * (m * q + r) + x % 256;
    assert x == (256 * m) * q + (256 * r + x % 256);
    assert 256 * r + x % 256 < 256 * m;
    Remainder(x, 256 * m, q, 256 * r + x % 256);
  }

  lemma Remainder(x: nat, d: nat, q: nat, r: nat)
    requires d >= 1 && x == d * q + r && r < d
    ensures x % d == r
  {
    assert x == d * (x / d) + x % d;
    var p := x / d;
    assert p < q ==> d * (p + 1) <= d * q;
    assert p > q ==> d * p >= d * (q + 1);
  }

  lemma TakesNumber(x: nat, n: nat, rest: bytes)
    ensures TakeNumber(n, Stream(Number(x, n) + rest, true)) == (x % Pow256(n), Stream(rest, true))
  {
    NumberRound(x, n);
    var s := Number(x, n) + rest;
    assert s[..n] == Number(x, n) && s[n..] == rest;
  }

  // ---- invalid is sticky

  lemma Sticky(less: Order, t: Type, s: Stream)
    requires !s.valid
    ensures !Unpack(less, t, s).1.valid
  {
    match t
    case Pair(a, b) =>
      Sticky(less, a, s);
      Sticky(less, b, Unpack(less, a, s).1);
    case _ =>
  }

  // ---- sizes

  lemma {:induction false} PackSize(less: Order, t: Type, v: Value)
    requires Sized(t) && Typed(less, t, v)
    ensures |Pack(t, v)| >= 1
    decreases t
  {
    match t
    case Pair(a, b) => PackSize(less, a, v.first);
    case _ =>
  }

  lemma {:induction false} PackAllSize(less: Order, e: Type, items: seq<Value>)
    requires Sized(e) && forall i :: 0 <= i < |items| ==> Typed(less, e, items[i])
    ensures |PackAll(e, items)| >= |items|
  {
    if items != [] {
      PackSize(less, e, items[0]);
      PackAllSize(less, e, items[1..]);
    }
  }

  lemma {:induction false} PackEntriesSize(less: Order, k: Type, w: Type, entries: seq<(Value, Value)>)
    requires Sized(k) && Sized(w)
    requires forall i :: 0 <= i < |entries| ==> Typed(less, k, entries[i].0) && Typed(less, w, entries[i].1)
    ensures |PackEntries(k, w, entries)| >= 2 * |entries|
  {
    if entries != [] {
      PackSize(less, k, entries[0].0);
      PackSize(less, w, entries[0].1);
      PackEntriesSize(less, k, w, entries[1..]);
    }
  }

  // ---- round trip

  lemma {:induction false} EmplacedLast(less: Order, s: seq<(Value, Value)>, x: (Value, Value))
    requires IsOrder(less) && forall i :: 0 <= i < |s| ==> less(s[i].0, x.0)
    ensures Emplaced(less, s, x) == s + [x]
  {
    if s != [] {
      EmplacedLast(less, s[1..], x);
      assert less(s[0].0, x.0) && !less(x.0, s[0].0);
    }
  }

  /** Filling a map with entries that are in key order keeps them as they are. */
  lemma {:induction false} EmplacedSorted(less: Order, s: seq<(Value, Value)>)
    requires IsOrder(less) && Ascending(less, s)
    ensures EmplacedAll(less, s) == s
  {
    if s != [] {
      var front, x := s[..|s| - 1], s[|s| - 1];
      EmplacedSorted(less, front);
      EmplacedLast(less, front, x);
      assert s == front + [x];
    }
  }

  lemma StringRound(text: bytes, rest: bytes)
    requires |text| <= MAX_ALLOWED
    ensures TakeString(Stream(PackString(text) + rest, true)) == (text, Stream(rest, true))
  {
    Pow4();
    hide Pow256, Number;
    assert |text| % 0x1_0000_0000 == |text| && text[..|text|] == text;
    assert PackString(text) + rest == Number(|text|, 4) + (text + rest);
    TakesNumber(|text|, 4, text + rest);
    assert (text + rest)[..|text|] == text && (text + rest)[|text|..] == rest;
  }

  lemma Pow4()
    ensures Pow256(4) == 0x1_0000_0000 && Pow256(8) == 0x1_0000_0000_0000_0000
  {
    assert Pow256(2) == 0x1_0000;
    assert Pow256(4) == 0x1_0000_0000;
    assert Pow256(6) == 0x1_0000_0000_0000;
  }

  lemma TakesSize(x: nat, rest: bytes)
    requires x <= MAX_ALLOWED
    ensures TakeNumber(8, Stream(Number(x, 8) + rest, true)) == (x, Stream(rest, true))
  {
    hide Pow256, TakeNumber, Number;
    Pow4();
    TakesNumber(x, 8, rest);
    assert x % 0x1_0000_0000_0000_0000 == x;
  }

  /** The claim of the round trip for one value. */
  ghost predicate Returns(less: Order, t: Type, v: Value, rest: bytes) {
    Unpack(less, t, Stream(Pack(t, v) + rest, true)) == (v, Stream(rest, true))
  }

  lemma PodReturns(less: Order, raw: bytes, rest: bytes)
    ensures Returns(less, Pod(|raw|), PodV(raw), rest)
  {
    assert (raw + rest)[..|raw|] == raw && (raw + rest)[|raw|..] == rest;
  }

  lemma PairReturns(less: Order, a: Type, b: Type, x: Value, y: Value, rest: bytes)
    requires Returns(less, a, x, Pack(b, y) + rest) && Returns(less, b, y, rest)
    ensures Returns(less, Pair(a, b), PairV(x, y), rest)
  {
    hide Pack, Unpack;
    var u := Stream(Pack(b, y) + rest, true);
    PairPacks(a, b, x, y);
    PairUnpacks(less, a, b, x, y, Stream(Pack(a, x) + (Pack(b, y) + rest), true), u, Stream(rest, true));
    assert Pack(Pair(a, b), PairV(x, y)) + rest == Pack(a, x) + (Pack(b, y) + rest);
  }

  lemma PairPacks(a: Type, b: Type, x: Value, y: Value)
    ensures Pack(Pair(a, b), PairV(x, y)) == Pack(a, x) + Pack(b, y)
  {
  }

  lemma PairUnpacks(less: Order, a: Type, b: Type, x: Value, y: Value, s: Stream, u: Stream, w: Stream)
    requires Unpack(less, a, s) == (x, u) && Unpack(less, b, u) == (y, w) && w.valid
    ensures Unpack(less, Pair(a, b), s) == (PairV(x, y), w)
  {
  }

  lemma VecReturns(less: Order, e: Type, items: seq<Value>, rest: bytes)
    requires |items| <= MAX_ALLOWED && |items| <= |PackAll(e, items)|
    requires UnpackAll(less, e, |items|, Stream(PackAll(e, items) + rest, true)) == (items, Stream(rest, true))
    ensures Returns(less, Vec(e), VecV(items), rest)
  {
    hide TakeNumber, PackAll, UnpackAll;
    var tail := PackAll(e, items) + rest;
    assert Pack(Vec(e), VecV(items)) + rest == Number(|items|, 8) + tail;
    TakesSize(|items|, tail);
  }

  lemma MapReturns(less: Order, k: Type, w: Type, s: seq<(Value, Value)>, rest: bytes)
    requires |s| <= MAX_ALLOWED && 2 * |s| <= |PackEntries(k, w, s)| && EmplacedAll(less, s) == s
    requires UnpackEntries(less, k, w, |s|, Stream(PackEntries(k, w, s) + rest, true)) == (s, Stream(rest, true))
    ensures Returns(less, Map(k, w), MapV(s), rest)
  {
    hide TakeNumber, PackEntries, UnpackEntries, EmplacedAll;
    var tail := PackEntries(k, w, s) + rest;
    assert Pack(Map(k, w), MapV(s)) + rest == Number(|s|, 8) + tail;
    TakesSize(|s|, tail);
  }

  /** Unpacking a packed value gives the value back, stays valid, and consumes exactly its bytes. */
  lemma {:induction false} RoundTrip(less: Order, t: Type, v: Value, rest: bytes)
    requires IsOrder(less) && Sized(t) && Typed(less, t, v) && Within(t, v)
    ensures Unpack(less, t, Stream(Pack(t, v) + rest, true)) == (v, Stream(rest, true))
    decreases t, 0
  {
    match t
    case Pod(size) => PodReturns(less, v.raw, rest);
    case Str => StringRound(v.text, rest);
    case Pair(a, b) =>
      hide IsOrder, Pack, Unpack;
      RoundTrip(less, a, v.first, Pack(b, v.second) + rest);
      RoundTrip(less, b, v.second, rest);
      PairReturns(less, a, b, v.first, v.second, rest);
    case Vec(e) =>
      hide IsOrder, Pack, Unpack, PackAll, UnpackAll;
      PackAllSize(less, e, v.items);
      RoundTripAll(less, e, v.items, rest);
      VecReturns(less, e, v.items, rest);
    case Map(k, w) =>
      hide IsOrder, Pack, Unpack, PackEntries, UnpackEntries, EmplacedAll;
      PackEntriesSize(less, k, w, v.entries);
      RoundTripEntries(less, k, w, v.entries, rest);
      EmplacedSorted(less, v.entries);
      MapReturns(less, k, w, v.entries, rest);
  }

  lemma {:induction false} RoundTripAll(less: Order, e: Type, items: seq<Value>, rest: bytes)
    requires IsOrder(less) && Sized(e)
    requires forall i :: 0 <= i < |items| ==> Typed(less, e, items[i]) && Within(e, items[i])
    ensures UnpackAll(less, e, |items|, Stream(PackAll(e, items) + rest, true)) == (items, Stream(rest, true))
    decreases e, |items| + 1
  {
    if items == [] {
      assert [] + rest == rest;
    } else {
      var tail := PackAll(e, items[1..]) + rest;
      assert PackAll(e, items) + rest == Pack(e, items[0]) + tail;
      RoundTrip(less, e, items[0], tail);
      RoundTripAll(less, e, items[1..], rest);
      assert items == [items[0]] + items[1..];
    }
  }

  lemma {:induction false} RoundTripEntries(less: Order, k: Type, w: Type, entries: seq<(Value, Value)>, rest: bytes)
    requires IsOrder(less) && Sized(k) && Sized(w)
    requires forall i :: 0 <= i < |entries| ==> Typed(less, k, entries[i].0) && Within(k, entries[i].0)
    requires forall i :: 0 <= i < |entries| ==> Typed(less, w, entries[i].1) && Within(w, entries[i].1)
    ensures UnpackEntries(less, k, w, |entries|, Stream(PackEntries(k, w, entries) + rest, true)) == (entries, Stream(rest, true))
    decreases Map(k, w), 0, |entries|
  {
    hide IsOrder, Pack, Unpack;
    if entries == [] {
      assert [] + rest == rest;
    } else {
      var x := entries[0];
      var tail := PackEntries(k, w, entries[1..]) + rest;
      assert PackEntries(k, w, entries) + rest == Pack(k, x.0) + (Pack(w, x.1) + tail);
      RoundTrip(less, k, x.0, Pack(w, x.1) + tail);
      RoundTrip(less, w, x.1, tail);
      hide Typed, Within;
      RoundTripEntries(less, k, w, entries[1..], rest);
      assert entries == [(x.0, x.1)] + entries[1..];
    }
  }

  // ---- more input does not change what was read

  lemma RawExtends(n: nat, rest: bytes, extra: bytes)
    requires |rest| >= n
    ensures TakeRaw(n, Stream(rest + extra, true)) == (rest[..n], Stream(rest[n..] + extra, true))
  {
    assert (rest + extra)[..n] == rest[..n] && (rest + extra)[n..] == rest[n..] + extra;
  }

  ghost predicate Extends<T(!new)>(r: (T, Stream), q: (T, Stream), extra: bytes) {
    r.1.valid ==> q == (r.0, Stream(r.1.rest + extra, true))
  }

  lemma StringExtends(rest: bytes, extra: bytes)
    ensures Extends(TakeString(Stream(rest, true)), TakeString(Stream(rest + extra, true)), extra)
  {
    if TakeString(Stream(rest, true)).1.valid {
      RawExtends(4, rest, extra);
      var size := ValueOf(rest[..4]);
      RawExtends(size, rest[4..], extra);
    }
  }

  lemma {:induction false} UnpackExtends(less: Order, t: Type, rest: bytes, extra: bytes)
    ensures Extends(Unpack(less, t, Stream(rest, true)), Unpack(less, t, Stream(rest + extra, true)), extra)
    decreases t, 0
  {
    if Unpack(less, t, Stream(rest, true)).1.valid {
      match t
      case Pod(size) => RawExtends(size, rest, extra);
      case Str => StringExtends(rest, extra);
      case Pair(a, b) =>
        var u := Unpack(less, a, Stream(rest, true)).1;
        if !u.valid {
          Sticky(less, b, u);
        }
        UnpackExtends(less, a, rest, extra);
        UnpackExtends(less, b, u.rest, extra);
      case Vec(e) =>
        RawExtends(8, rest, extra);
        AllExtends(less, e, ValueOf(rest[..8]), rest[8..], extra);
      case Map(k, w) =>
        RawExtends(8, rest, extra);
        EntriesExtend(less, k, w, ValueOf(rest[..8]), rest[8..], extra);
    }
  }

  lemma {:induction false} AllExtends(less: Order, e: Type, n: nat, rest: bytes, extra: bytes)
    ensures Extends(UnpackAll(less, e, n, Stream(rest, true)), UnpackAll(less, e, n, Stream(rest + extra, true)), extra)
    decreases e, n + 1
  {
    if n > 0 {
      UnpackExtends(less, e, rest, extra);
      AllExtends(less, e, n - 1, Unpack(less, e, Stream(rest, true)).1.rest, extra);
    }
  }

  lemma {:induction false} EntriesExtend(less: Order, k: Type, w: Type, n: nat, rest: bytes, extra: bytes)
    ensures Extends(UnpackEntries(less, k, w, n, Stream(rest, true)),
                    UnpackEntries(less, k, w, n, Stream(rest + extra, true)), extra)
    decreases Map(k, w), 0, n
  {
    if n > 0 {
      var u := Unpack(less, k, Stream(rest, true)).1;
      var z := Unpack(less, w, u).1;
      UnpackExtends(less, k, rest, extra);
      if u.valid {
        UnpackExtends(less, w, u.rest, extra);
        EntriesExtend(less, k, w, n - 1, z.rest, extra);
      } else {
        Sticky(less, w, u);
      }
    }
  }

  /** No strict prefix of an encoding unpacks as valid. */
  lemma NoPrefix(less: Order, t: Type, v: Value, n: nat)
    requires IsOrder(less) && Sized(t) && Typed(less, t, v) && Within(t, v) && n < |Pack(t, v)|
    ensures !Unpack(less, t, Stream(Pack(t, v)[..n], true)).1.valid
  {
    var head, tail := Pack(t, v)[..n], Pack(t, v)[n..];
    assert head + tail == Pack(t, v) == Pack(t, v) + [];
    RoundTrip(less, t, v, []);
    UnpackExtends(less, t, head, tail);
  }

  /** One packing stands for one value only. */
  lemma Injective(less: Order, t: Type, v: Value, w: Value)
    requires IsOrder(less) && Sized(t) && Typed(less, t, v) && Within(t, v) && Typed(less, t, w) && Within(t, w)
    requires Pack(t, v) == Pack(t, w)
    ensures v == w
  {
    RoundTrip(less, t, v, []);
    RoundTrip(less, t, w, []);
  }

  // ---- what unpacks is within the limits

  lemma {:induction false} EmplacedMembers(less: Order, s: seq<(Value, Value)>, x: (Value, Value))
    ensures |Emplaced(less, s, x)| <= |s| + 1
    ensures forall y :: y in Emplaced(less, s, x) ==> y in s || y == x
  {
    if s != [] {
      EmplacedMembers(less, s[1..], x);
    }
  }

  lemma {:induction false} EmplacedAscending(less: Order, s: seq<(Value, Value)>, x: (Value, Value))
    requires IsOrder(less) && Ascending(less, s)
    ensures Ascending(less, Emplaced(less, s, x))
  {
    if s != [] {
      EmplacedAscending(less, s[1..], x);
      EmplacedMembers(less, s[1..], x);
      var r := Emplaced(less, s[1..], x);
      if less(x.0, s[0].0) {
        assert forall j :: 0 <= j < |s| ==> less(x.0, s[j].0);
      } else if less(s[0].0, x.0) {
        forall j | 0 <= j < |r|
          ensures less(s[0].0, r[j].0)
        {
          assert r[j] in s[1..] || r[j] == x;
        }
      }
    }
  }

  lemma {:induction false} EmplacedAllOk(less: Order, s: seq<(Value, Value)>)
    requires IsOrder(less)
    ensures Ascending(less, EmplacedAll(less, s)) && |EmplacedAll(less, s)| <= |s|
    ensures forall y :: y in EmplacedAll(less, s) ==> y in s
  {
    if s != [] {
      var front, x := s[..|s| - 1], s[|s| - 1];
      EmplacedAllOk(less, front);
      EmplacedAscending(less, EmplacedAll(less, front), x);
      EmplacedMembers(less, EmplacedAll(less, front), x);
    }
  }

  /** Whatever the input, a value that unpacks as valid has its type and keeps the limits. */
  lemma {:induction false} UnpackedOk(less: Order, t: Type, s: Stream)
    requires IsOrder(less)
    ensures var (v, u) := Unpack(less, t, s); u.valid ==> Typed(less, t, v) && Within(t, v)
    decreases t, 0
  {
    var (v, u) := Unpack(less, t, s);
    if u.valid {
      match t
      case Pair(a, b) =>
        var w := Unpack(less, a, s).1;
        if !w.valid {
          Sticky(less, b, w);
        }
        UnpackedOk(less, a, s);
        UnpackedOk(less, b, w);
      case Vec(e) =>
        var (size, w) := TakeNumber(8, s);
        UnpackedAllOk(less, e, size, w);
      case Map(k, x) =>
        var (size, w) := TakeNumber(8, s);
        UnpackedEntriesOk(less, k, x, size, w);
        MapTyped(less, k, x, UnpackEntries(less, k, x, size, w).0);
      case _ =>
    }
  }

  ghost predicate EntryOk(less: Order, k: Type, w: Type, x: (Value, Value)) {
    Typed(less, k, x.0) && Within(k, x.0) && Typed(less, w, x.1) && Within(w, x.1)
  }

  lemma MapTyped(less: Order, k: Type, w: Type, entries: seq<(Value, Value)>)
    requires IsOrder(less) && |entries| <= MAX_ALLOWED
    requires forall x :: x in entries ==> EntryOk(less, k, w, x)
    ensures var v := MapV(EmplacedAll(less, entries)); Typed(less, Map(k, w), v) && Within(Map(k, w), v)
  {
    EmplacedAllOk(less, entries);
    hide IsOrder;
    var s := EmplacedAll(less, entries);
    forall i | 0 <= i < |s|
      ensures EntryOk(less, k, w, s[i])
    {
      assert s[i] in s;
    }
  }

  lemma {:induction false} UnpackedAllOk(less: Order, e: Type, n: nat, s: Stream)
    requires IsOrder(less)
    ensures var (xs, u) := UnpackAll(less, e, n, s);
      |xs| <= n && (u.valid ==> forall x :: x in xs ==> Typed(less, e, x) && Within(e, x))
    decreases e, n + 1
  {
    if n > 0 && s.valid {
      var u := Unpack(less, e, s).1;
      UnpackedOk(less, e, s);
      UnpackedAllOk(less, e, n - 1, u);
    }
  }

  lemma {:induction false} UnpackedEntriesOk(less: Order, k: Type, w: Type, n: nat, s: Stream)
    requires IsOrder(less)
    ensures var (xs, u) := UnpackEntries(less, k, w, n, s);
      |xs| <= n && (u.valid ==> forall x :: x in xs ==> EntryOk(less, k, w, x))
    decreases Map(k, w), 0, n
  {
    if n > 0 && s.valid {
      var u := Unpack(less, k, s).1;
      var z := Unpack(less, w, u).1;
      if !u.valid {
        Sticky(less, w, u);
      }
      UnpackedOk(less, k, s);
      UnpackedOk(less, w, u);
      UnpackedEntriesOk(less, k, w, n - 1, z);
    }
  }

  /** The limits are exactly what a round trip needs. */
  lemma RoundTripIff(less: Order, t: Type, v: Value, rest: bytes)
    requires IsOrder(less) && Sized(t) && Typed(less, t, v)
    ensures Unpack(less, t, Stream(Pack(t, v) + rest, true)) == (v, Stream(rest, true)) <==> Within(t, v)
  {
    if Within(t, v) {
      RoundTrip(less, t, v, rest);
    } else {
      UnpackedOk(less, t, Stream(Pack(t, v) + rest, true));
    }
  }
}
