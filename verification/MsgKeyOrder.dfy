/** An order of map keys of the kind std::less gives: plain fields by their bytes, the rest element by element. */
module MsgKeyOrder {
  import opened MsgCodec

  predicate BytesLess(s: bytes, t: bytes) {
    t != [] && (s == [] || s[0] < t[0] || (s[0] == t[0] && BytesLess(s[1..], t[1..])))
  }

  /** Values of different kinds never meet as keys of one map; any fixed order of the kinds will do. */
  function Kind(v: Value): nat {
    match v
    case PodV(_) => 0
    case StrV(_) => 1
    case PairV(_, _) => 2
    case VecV(_) => 3
    case MapV(_) => 4
  }

  predicate Less(a: Value, b: Value)
    decreases a
  {
    match (a, b)
    case (PodV(x), PodV(y)) => BytesLess(x, y)
    case (StrV(x), StrV(y)) => BytesLess(x, y)
    case (PairV(x, p), PairV(y, q)) => Less(x, y) || (x == y && Less(p, q))
    case (VecV(s), VecV(t)) => ItemsLess(s, t)
    case (MapV(s), MapV(t)) => EntriesLess(s, t)
    case _ => Kind(a) < Kind(b)
  }

  predicate ItemsLess(s: seq<Value>, t: seq<Value>)
    decreases s
  {
    t != [] && (s == [] || Less(s[0], t[0]) || (s[0] == t[0] && ItemsLess(s[1..], t[1..])))
  }

  predicate EntryLess(x: (Value, Value), y: (Value, Value))
    decreases x
  {
    Less(x.0, y.0) || (x.0 == y.0 && Less(x.1, y.1))
  }

  predicate EntriesLess(s: seq<(Value, Value)>, t: seq<(Value, Value)>)
    decreases s
  {
    t != [] && (s == [] || EntryLess(s[0], t[0]) || (s[0] == t[0] && EntriesLess(s[1..], t[1..])))
  }

  /** The bytes agree up to some place, and there the first one ends or has the smaller byte. */
  ghost predicate DiffersAt(s: bytes, t: bytes, k: nat) {
    k <= |s| && k < |t| && s[..k] == t[..k] && (k < |s| ==> s[k] < t[k])
  }

  lemma {:induction false} BytesLessIff(s: bytes, t: bytes)
    ensures BytesLess(s, t) <==> exists k: nat :: DiffersAt(s, t, k)
  {
    if s == [] || t == [] || s[0] != t[0] {
      if BytesLess(s, t) {
        assert DiffersAt(s, t, 0);
      }
    } else {
      BytesLessIff(s[1..], t[1..]);
      if BytesLess(s, t) {
        var k: nat :| DiffersAt(s[1..], t[1..], k);
        assert s[..k + 1] == [s[0]] + s[1..][..k] && t[..k + 1] == [t[0]] + t[1..][..k];
        assert DiffersAt(s, t, k + 1);
      }
      forall k: nat | DiffersAt(s, t, k)
        ensures BytesLess(s, t)
      {
        assert k > 0;
        assert s[1..][..k - 1] == s[..k][1..] && t[1..][..k - 1] == t[..k][1..];
        assert DiffersAt(s[1..], t[1..], k - 1);
      }
    }
  }

  // ---- it is a strict total order

  lemma {:induction false} BytesTotal(s: bytes, t: bytes)
    ensures !BytesLess(s, s) && (s == t || BytesLess(s, t) || BytesLess(t, s))
  {
    if s != [] {
      BytesTotal(s[1..], if t == [] then [] else t[1..]);
      if t != [] {
        assert s == [s[0]] + s[1..] && t == [t[0]] + t[1..];
      }
    }
  }

  lemma {:induction false} BytesChain(s: bytes, t: bytes, u: bytes)
    requires BytesLess(s, t) && BytesLess(t, u)
    ensures BytesLess(s, u)
  {
    if s != [] && s[0] == t[0] == u[0] {
      BytesChain(s[1..], t[1..], u[1..]);
    }
  }

  lemma {:induction false} Total(a: Value, b: Value)
    ensures !Less(a, a) && (a == b || Less(a, b) || Less(b, a))
    decreases a, 1
  {
    match (a, b)
    case (PodV(x), PodV(y)) => BytesTotal(x, y);
    case (StrV(x), StrV(y)) => BytesTotal(x, y);
    case (PairV(x, p), PairV(y, q)) => Total(x, y); Total(p, q);
    case (VecV(s), VecV(t)) => ItemsTotal(s, t);
    case (MapV(s), MapV(t)) => EntriesTotal(s, t);
    case _ => Irreflexive(a);
  }

  lemma {:induction false} Irreflexive(a: Value)
    ensures !Less(a, a)
    decreases a, 0
  {
    match a
    case PodV(x) => BytesTotal(x, x);
    case StrV(x) => BytesTotal(x, x);
    case PairV(x, p) => Irreflexive(x); Irreflexive(p);
    case VecV(s) => ItemsTotal(s, s);
    case MapV(s) => EntriesTotal(s, s);
  }

  lemma {:induction false} ItemsTotal(s: seq<Value>, t: seq<Value>)
    ensures !ItemsLess(s, s) && (s == t || ItemsLess(s, t) || ItemsLess(t, s))
    decreases s
  {
    if s != [] {
      Irreflexive(s[0]);
      ItemsTotal(s[1..], if t == [] then [] else t[1..]);
      if t != [] {
        Total(s[0], t[0]);
        assert s == [s[0]] + s[1..] && t == [t[0]] + t[1..];
      }
    }
  }

  lemma {:induction false} EntryTotal(x: (Value, Value), y: (Value, Value))
    ensures !EntryLess(x, x) && (x == y || EntryLess(x, y) || EntryLess(y, x))
    decreases x
  {
    Total(x.0, y.0);
    Total(x.1, y.1);
  }

  lemma {:induction false} EntriesTotal(s: seq<(Value, Value)>, t: seq<(Value, Value)>)
    ensures !EntriesLess(s, s) && (s == t || EntriesLess(s, t) || EntriesLess(t, s))
    decreases s
  {
    if s != [] {
      EntryTotal(s[0], if t == [] then s[0] else t[0]);
      EntriesTotal(s[1..], if t == [] then [] else t[1..]);
      if t != [] {
        assert s == [s[0]] + s[1..] && t == [t[0]] + t[1..];
      }
    }
  }

  lemma {:induction false} Chain(a: Value, b: Value, c: Value)
    requires Less(a, b) && Less(b, c)
    ensures Less(a, c)
    decreases a
  {
    match (a, b, c)
    case (PodV(x), PodV(y), PodV(z)) => BytesChain(x, y, z);
    case (StrV(x), StrV(y), StrV(z)) => BytesChain(x, y, z);
    case (PairV(x, p), PairV(y, q), PairV(z, r)) =>
      if Less(x, y) && Less(y, z) {
        Chain(x, y, z);
      } else if Less(p, q) && Less(q, r) {
        Chain(p, q, r);
      }
    case (VecV(s), VecV(t), VecV(u)) => ItemsChain(s, t, u);
    case (MapV(s), MapV(t), MapV(u)) => EntriesChain(s, t, u);
    case _ =>
  }

  lemma {:induction false} ItemsChain(s: seq<Value>, t: seq<Value>, u: seq<Value>)
    requires ItemsLess(s, t) && ItemsLess(t, u)
    ensures ItemsLess(s, u)
    decreases s
  {
    if s != [] {
      if Less(s[0], t[0]) && Less(t[0], u[0]) {
        Chain(s[0], t[0], u[0]);
      } else if s[0] == t[0] == u[0] {
        Irreflexive(s[0]);
        ItemsChain(s[1..], t[1..], u[1..]);
      }
    }
  }

  lemma {:induction false} EntryChain(x: (Value, Value), y: (Value, Value), z: (Value, Value))
    requires EntryLess(x, y) && EntryLess(y, z)
    ensures EntryLess(x, z)
    decreases x
  {
    if Less(x.0, y.0) && Less(y.0, z.0) {
      Chain(x.0, y.0, z.0);
    } else if x.0 == y.0 == z.0 {
      Irreflexive(x.0);
      Chain(x.1, y.1, z.1);
    }
  }

  lemma {:induction false} EntriesChain(s: seq<(Value, Value)>, t: seq<(Value, Value)>, u: seq<(Value, Value)>)
    requires EntriesLess(s, t) && EntriesLess(t, u)
    ensures EntriesLess(s, u)
    decreases s
  {
    if s != [] {
      if EntryLess(s[0], t[0]) && EntryLess(t[0], u[0]) {
        EntryChain(s[0], t[0], u[0]);
      } else if s[0] == t[0] == u[0] {
        EntryTotal(s[0], s[0]);
        EntriesChain(s[1..], t[1..], u[1..]);
      }
    }
  }

  /** What the codec asks of the key comparison is met. */
  lemma LessIsOrder()
    ensures IsOrder(Less)
  {
    forall a, b
      ensures !Less(a, a) && (a == b || Less(a, b) || Less(b, a))
    {
      Total(a, b);
    }
    forall a, b, c | Less(a, b) && Less(b, c)
      ensures Less(a, c)
    {
      Chain(a, b, c);
    }
  }
}
