/** The wire format byte by byte, and what the unpacker leaves in a value it could not read. */
module MsgWire {
  import opened MsgCodec
  import opened MsgCodecTheorems

  // ---- bytes

  /** Four bytes, least significant first. */
  ghost predicate Spells4(s: bytes, x: nat) {
    |s| >= 4 && x == (s[0] as int) + 256 * (s[1] as int) + 65536 * (s[2] as int) + 16777216 * (s[3] as int)
  }

  /** Eight bytes, least significant first. */
  ghost predicate Spells8(s: bytes, x: nat) {
    |s| >= 8 && Spells4(s[4..], x / 4294967296) && Spells4(s, x % 4294967296)
  }

  lemma NumberSplits(x: nat, n: nat)
    requires n >= 4
    ensures var s := Number(x, n);
      Spells4(s, x % 4294967296) && s[4..] == Number(x / 4294967296, n - 4)
  {
    var a, b, c := x / 256, x / 256 / 256, x / 256 / 256 / 256;
    var d := c / 256;
    assert Number(x, n) == [x % 256] + Number(a, n - 1);
    assert Number(a, n - 1) == [a % 256] + Number(b, n - 2);
    assert Number(b, n - 2) == [b % 256] + Number(c, n - 3);
    assert Number(c, n - 3) == [c % 256] + Number(d, n - 4);
    assert x == x % 256 + 256 * (a % 256) + 65536 * (b % 256) + 16777216 * (c % 256) + 4294967296 * d;
    Remainder(x, 4294967296, d, x % 256 + 256 * (a % 256) + 65536 * (b % 256) + 16777216 * (c % 256));
    assert x / 4294967296 == d;
  }

  /** A string is its length in four bytes and its text. */
  lemma StringWire(text: bytes)
    requires |text| < 4294967296
    ensures var s := Pack(Str, StrV(text)); Spells4(s, |text|) && s[4..] == text
  {
    NumberSplits(|text|, 4);
    var s := Number(|text|, 4);
    assert |text| % 4294967296 == |text| && text[..|text|] == text;
    hide Number;
    assert Pack(Str, StrV(text)) == s + text;
    assert (s + text)[4..] == text;
  }

  lemma CountWire(x: nat, rest: bytes)
    requires x < 18446744073709551616
    ensures Spells8(Number(x, 8) + rest, x) && (Number(x, 8) + rest)[8..] == rest
  {
    NumberSplits(x, 8);
    NumberSplits(x / 4294967296, 4);
    var s := Number(x, 8);
    assert s[4..] == Number(x / 4294967296, 4);
    assert (s + rest)[4..] == s[4..] + rest;
  }

  /** A vector is its length in eight bytes and its elements one after the other. */
  lemma VectorWire(e: Type, items: seq<Value>, more: Value)
    requires |items| < 18446744073709551615
    ensures var s, longer := Pack(Vec(e), VecV(items)), Pack(Vec(e), VecV(items + [more]));
      && Spells8(s, |items|) && Spells8(longer, |items| + 1)
      && (items == [] ==> s[8..] == []) && longer[8..] == s[8..] + Pack(e, more)
  {
    CountWire(|items|, PackAll(e, items));
    CountWire(|items| + 1, PackAll(e, items + [more]));
    PackAllMore(e, items, more);
  }

  lemma {:induction false} PackAllMore(e: Type, items: seq<Value>, more: Value)
    ensures PackAll(e, items + [more]) == PackAll(e, items) + Pack(e, more)
    decreases |items|
  {
    hide Pack;
    if items == [] {
      assert PackAll(e, [more]) == Pack(e, more) + PackAll(e, []);
    } else {
      PackAllMore(e, items[1..], more);
      assert (items + [more])[0] == items[0] && (items + [more])[1..] == items[1..] + [more];
    }
  }

  /** A map is its size in eight bytes and its entries one after the other, the key before the value. */
  lemma MapWire(k: Type, w: Type, entries: seq<(Value, Value)>, more: (Value, Value))
    requires |entries| < 18446744073709551615
    ensures var s, longer := Pack(Map(k, w), MapV(entries)), Pack(Map(k, w), MapV(entries + [more]));
      && Spells8(s, |entries|) && Spells8(longer, |entries| + 1)
      && (entries == [] ==> s[8..] == []) && longer[8..] == s[8..] + Pack(k, more.0) + Pack(w, more.1)
  {
    CountWire(|entries|, PackEntries(k, w, entries));
    CountWire(|entries| + 1, PackEntries(k, w, entries + [more]));
    PackEntriesMore(k, w, entries, more);
  }

  lemma {:induction false} PackEntriesMore(k: Type, w: Type, entries: seq<(Value, Value)>, more: (Value, Value))
    ensures PackEntries(k, w, entries + [more]) == PackEntries(k, w, entries) + Pack(k, more.0) + Pack(w, more.1)
    decreases |entries|
  {
    hide Pack;
    if entries == [] {
      assert PackEntries(k, w, [more]) == Pack(k, more.0) + Pack(w, more.1) + PackEntries(k, w, []);
    } else {
      PackEntriesMore(k, w, entries[1..], more);
      assert (entries + [more])[0] == entries[0] && (entries + [more])[1..] == entries[1..] + [more];
    }
  }

  // ---- limits

  /** At most 1048576 bytes in a string, elements in a vector, entries in a map. */
  ghost predicate Limited(t: Type, v: Value) {
    match (t, v)
    case (Pod(_), _) => true
    case (Str, StrV(text)) => |text| <= 1048576
    case (Pair(a, b), PairV(x, y)) => Limited(a, x) && Limited(b, y)
    case (Vec(e), VecV(items)) => |items| <= 1048576 && forall i :: 0 <= i < |items| ==> Limited(e, items[i])
    case (Map(k, w), MapV(s)) => |s| <= 1048576 && forall i :: 0 <= i < |s| ==> Limited(k, s[i].0) && Limited(w, s[i].1)
    case _ => false
  }

  lemma {:induction false} LimitedIff(t: Type, v: Value)
    ensures Limited(t, v) <==> Within(t, v)
    decreases t
  {
    match (t, v)
    case (Pair(a, b), PairV(x, y)) => LimitedIff(a, x); LimitedIff(b, y);
    case (Vec(e), VecV(items)) =>
      forall i | 0 <= i < |items|
        ensures Limited(e, items[i]) <==> Within(e, items[i])
      {
        LimitedIff(e, items[i]);
      }
    case (Map(k, w), MapV(s)) =>
      forall i | 0 <= i < |s|
        ensures (Limited(k, s[i].0) <==> Within(k, s[i].0)) && (Limited(w, s[i].1) <==> Within(w, s[i].1))
      {
        LimitedIff(k, s[i].0);
        LimitedIff(w, s[i].1);
      }
    case _ =>
  }

  /** The round trip, with the limit written out. */
  lemma ReturnsIff(less: Order, t: Type, v: Value, rest: bytes)
    requires IsOrder(less) && Sized(t) && Typed(less, t, v)
    ensures Unpack(less, t, Stream(Pack(t, v) + rest, true)) == (v, Stream(rest, true)) <==> Limited(t, v)
  {
    LimitedIff(t, v);
    RoundTripIff(less, t, v, rest);
  }

  // ---- what could not be read

  /** Nothing: zeros in plain fields, and empty texts, vectors and maps. */
  ghost predicate Blank(t: Type, v: Value) {
    match t
    case Pod(size) => v.PodV? && |v.raw| == size && forall i :: 0 <= i < size ==> v.raw[i] == 0
    case Str => v == StrV([])
    case Pair(a, b) => v.PairV? && Blank(a, v.first) && Blank(b, v.second)
    case Vec(_) => v == VecV([])
    case Map(_, _) => v == MapV([])
  }

  lemma DefaultBlank(t: Type)
    ensures Blank(t, Default(t))
  {
  }

  /** Whatever arrives, a value that is not read in full is left blank: no part of it is kept. */
  lemma Unread(less: Order, t: Type, s: Stream)
    ensures var (v, u) := Unpack(less, t, s); !u.valid ==> Blank(t, v)
  {
    DefaultBlank(t);
    hide UnpackAll, UnpackEntries, EmplacedAll, Default, ValueOf;
  }

  // ---- maps that name a key twice

  /** Place i is the first with its key. */
  ghost predicate IsFirst(s: seq<(Value, Value)>, i: nat)
    requires i < |s|
  {
    forall j :: 0 <= j < i ==> s[j].0 != s[i].0
  }

  ghost predicate HasFirst(s: seq<(Value, Value)>, x: (Value, Value)) {
    exists i :: 0 <= i < |s| && s[i] == x && IsFirst(s, i)
  }

  lemma {:induction false} EmplacedExact(less: Order, s: seq<(Value, Value)>, x: (Value, Value), y: (Value, Value))
    requires IsOrder(less) && Ascending(less, s)
    ensures y in Emplaced(less, s, x) <==> y in s || (y == x && forall i :: 0 <= i < |s| ==> s[i].0 != x.0)
    decreases |s|
  {
    if s != [] {
      if less(x.0, s[0].0) {
        assert forall i :: 0 <= i < |s| ==> s[i].0 != x.0;
      } else if less(s[0].0, x.0) {
        EmplacedExact(less, s[1..], x, y);
        assert s == [s[0]] + s[1..];
        assert (forall i :: 0 <= i < |s| ==> s[i].0 != x.0) <==> (forall i :: 0 <= i < |s[1..]| ==> s[1..][i].0 != x.0);
      }
    }
  }

  /** Of entries with the same key the map keeps exactly the first one that arrived. */
  lemma {:induction false} FirstKept(less: Order, s: seq<(Value, Value)>, y: (Value, Value))
    requires IsOrder(less)
    ensures y in EmplacedAll(less, s) <==> HasFirst(s, y)
    decreases |s|
  {
    if s != [] {
      var k := |s| - 1;
      var front, x := s[..k], s[k];
      var m := EmplacedAll(less, front);
      FirstKept(less, front, y);
      EmplacedAllOk(less, front);
      EmplacedExact(less, m, x, y);
      KeysKept(less, front, x.0);
      FirstOfMore(s, y);
      assert EmplacedAll(less, s) == Emplaced(less, m, x);
      hide EmplacedAll, Emplaced, HasFirst, IsOrder, Ascending;
      assert forall i :: 0 <= i < |m| ==> m[i] in m;
      assert forall j :: 0 <= j < k ==> front[j] == s[j];
    }
  }

  lemma FirstOfMore(s: seq<(Value, Value)>, y: (Value, Value))
    requires s != []
    ensures var k := |s| - 1;
      HasFirst(s, y) <==> HasFirst(s[..k], y) || (y == s[k] && forall j :: 0 <= j < k ==> s[j].0 != s[k].0)
  {
    var k := |s| - 1;
    if HasFirst(s, y) {
      var i :| 0 <= i < |s| && s[i] == y && IsFirst(s, i);
      if i < k {
        assert s[..k][i] == y && IsFirst(s[..k], i);
      }
    }
    if HasFirst(s[..k], y) {
      var i :| 0 <= i < k && s[..k][i] == y && IsFirst(s[..k], i);
      assert s[i] == y && IsFirst(s, i) by {
        assert forall j :: 0 <= j < i ==> s[..k][j] == s[j];
      }
    }
    if y == s[k] && forall j :: 0 <= j < k ==> s[j].0 != s[k].0 {
      assert IsFirst(s, k);
    }
  }

  /** A key is in the map exactly when it arrived. */
  lemma {:induction false} KeysKept(less: Order, s: seq<(Value, Value)>, key: Value)
    requires IsOrder(less)
    ensures (forall y :: y in EmplacedAll(less, s) ==> y.0 != key) <==> (forall i :: 0 <= i < |s| ==> s[i].0 != key)
    decreases |s|
  {
    if s != [] {
      var k := |s| - 1;
      var m, x := EmplacedAll(less, s[..k]), s[k];
      KeysKept(less, s[..k], key);
      EmplacedAllOk(less, s[..k]);
      assert forall i :: 0 <= i < k ==> s[..k][i] == s[i];
      forall y
        ensures y in EmplacedAll(less, s) <==> y in m || (y == x && forall i :: 0 <= i < |m| ==> m[i].0 != x.0)
      {
        EmplacedExact(less, m, x, y);
      }
    }
  }
}
