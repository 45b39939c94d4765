/** The packer and unpacker as they work: one appends to a stream, the other consumes one. */
module MsgPacker {
  import opened MsgCodec

  lemma Joined(a: bytes, b: bytes, c: bytes)
    ensures a + (b + c) == a + b + c
  {
  }

  class NetMsgPacker {
    var outStream: bytes

    constructor ()
      ensures outStream == []
    {
      outStream := [];
    }

    method Write(raw: bytes)
      modifies this
      ensures outStream == old(outStream) + raw
    {
      outStream := outStream + raw;
    }

    method Serialize(t: Type, v: Value)
      modifies this
      ensures outStream == old(outStream) + Pack(t, v)
      decreases t, 1
    {
      match (t, v)
      case (Pod(_), PodV(raw)) => Write(raw);
      case (Str, StrV(text)) =>
        var size := |text| % 0x1_0000_0000;
        Write(Number(size, 4));
        Write(text[..size]);
        Joined(old(outStream), Number(size, 4), text[..size]);
      case (Pair(a, b), PairV(x, y)) =>
        Serialize(a, x);
        Serialize(b, y);
        Joined(old(outStream), Pack(a, x), Pack(b, y));
      case (Vec(e), VecV(items)) =>
        Write(Number(|items|, 8));
        SerializeItems(e, items);
        Joined(old(outStream), Number(|items|, 8), PackAll(e, items));
      case (Map(k, w), MapV(entries)) =>
        Write(Number(|entries|, 8));
        SerializeEntries(k, w, entries);
        Joined(old(outStream), Number(|entries|, 8), PackEntries(k, w, entries));
      case _ => assert outStream + [] == outStream;
    }

    method SerializeItems(e: Type, items: seq<Value>)
      modifies this
      ensures outStream == old(outStream) + PackAll(e, items)
      decreases Vec(e), 0
    {
      ghost var head := outStream;
      for i := 0 to |items|
        invariant outStream + PackAll(e, items[i..]) == head + PackAll(e, items)
      {
        assert items[i..][1..] == items[i + 1..];
        Joined(outStream, Pack(e, items[i]), PackAll(e, items[i + 1..]));
        Serialize(e, items[i]);
      }
      assert items[|items|..] == [] && outStream + [] == outStream;
    }

    method SerializeEntries(k: Type, w: Type, entries: seq<(Value, Value)>)
      modifies this
      ensures outStream == old(outStream) + PackEntries(k, w, entries)
      decreases Map(k, w), 0
    {
      ghost var head := outStream;
      for i := 0 to |entries|
        invariant outStream + PackEntries(k, w, entries[i..]) == head + PackEntries(k, w, entries)
      {
        assert entries[i..][1..] == entries[i + 1..];
        ghost var key, value, rest := Pack(k, entries[i].0), Pack(w, entries[i].1), PackEntries(k, w, entries[i + 1..]);
        Joined(outStream, key + value, rest);
        Joined(outStream, key, value);
        Serialize(k, entries[i].0);
        Serialize(w, entries[i].1);
      }
      assert entries[|entries|..] == [] && outStream + [] == outStream;
    }
  }

  class NetMsgUnpacker {
    var inStream: bytes
    var valid: bool

    ghost function Abs(): (s: Stream)
      reads this
    {
      Stream(inStream, valid)
    }

    constructor (value: bytes)
      ensures Abs() == Stream(value, true)
    {
      inStream, valid := value, true;
    }

    method Read(n: nat) returns (raw: bytes)
      modifies this
      ensures (raw, Abs()) == TakeRaw(n, old(Abs()))
    {
      if valid && |inStream| >= n {
        raw, inStream := inStream[..n], inStream[n..];
      } else {
        if valid {
          inStream, valid := [], false;
        }
        raw := Zeros(n);
      }
    }

    method ReadString() returns (text: bytes)
      modifies this
      ensures (text, Abs()) == TakeString(old(Abs()))
    {
      var raw := Read(4);
      var size := ValueOf(raw);
      if !valid || size > MAX_ALLOWED || size > |inStream| {
        valid := false;
        return [];
      }
      text, inStream := inStream[..size], inStream[size..];
    }

    method Deserialize(less: Order, t: Type) returns (v: Value)
      modifies this
      ensures (v, Abs()) == Unpack(less, t, old(Abs()))
      decreases t, 0
    {
      match t
      case Pod(size) =>
        var raw := Read(size);
        v := PodV(raw);
      case Str =>
        var text := ReadString();
        v := StrV(text);
      case Pair(a, b) =>
        var x := Deserialize(less, a);
        var y := Deserialize(less, b);
        v := if valid then PairV(x, y) else Default(t);
      case Vec(e) =>
        var raw := Read(8);
        var size := ValueOf(raw);
        if !valid || size > MAX_ALLOWED || size > |inStream| {
          valid := false;
          return VecV([]);
        }
        var items := DeserializeItems(less, e, size);
        v := VecV(items);
      case Map(k, w) =>
        var raw := Read(8);
        var size := ValueOf(raw);
        if !valid || size > MAX_ALLOWED || size > |inStream| / 2 {
          valid := false;
          return MapV([]);
        }
        var entries := DeserializeEntries(less, k, w, size);
        v := MapV(entries);
    }

    /** The elements of a vector; cleared when one cannot be read. */
    method DeserializeItems(less: Order, e: Type, size: nat) returns (items: seq<Value>)
      requires valid
      modifies this
      ensures Abs() == UnpackAll(less, e, size, old(Abs())).1
      ensures items == if valid then UnpackAll(less, e, size, old(Abs())).0 else []
      decreases e, 1
    {
      items := [];
      hide Unpack, UnpackAll;
      ghost var goal := UnpackAll(less, e, size, Abs());
      NoItems(less, e, Abs());
      for i := 0 to size
        invariant valid
        invariant UnpackAll(less, e, size - i, Abs()).1 == goal.1
        invariant items + UnpackAll(less, e, size - i, Abs()).0 == goal.0
      {
        ItemsStep(less, e, size - i, Abs());
        var item := Deserialize(less, e);
        NoItems(less, e, Abs());
        if !valid {
          return [];
        }
        ghost var rest := UnpackAll(less, e, size - i - 1, Abs()).0;
        assert items + ([item] + rest) == items + [item] + rest;
        items := items + [item];
      }
      NoItems(less, e, Abs());
      assert items + [] == items;
    }

    /** The entries of a map, placed one by one; cleared when one cannot be read. */
    method DeserializeEntries(less: Order, k: Type, w: Type, size: nat) returns (entries: seq<(Value, Value)>)
      requires valid
      modifies this
      ensures Abs() == UnpackEntries(less, k, w, size, old(Abs())).1
      ensures entries == if valid then EmplacedAll(less, UnpackEntries(less, k, w, size, old(Abs())).0) else []
      decreases Map(k, w), 0, 0
    {
      entries := [];
      hide Unpack, UnpackEntries, Emplaced, EmplacedAll;
      ghost var read: seq<(Value, Value)> := [];
      ghost var goal := UnpackEntries(less, k, w, size, Abs());
      NoEntries(less, k, w, Abs());
      for i := 0 to size
        invariant valid
        invariant UnpackEntries(less, k, w, size - i, Abs()).1 == goal.1
        invariant read + UnpackEntries(less, k, w, size - i, Abs()).0 == goal.0
        invariant entries == EmplacedAll(less, read)
      {
        EntriesStep(less, k, w, size - i, Abs());
        var key := Deserialize(less, k);
        var value := Deserialize(less, w);
        NoEntries(less, k, w, Abs());
        if !valid {
          return [];
        }
        EmplacedStep(less, read, (key, value));
        entries := Emplaced(less, entries, (key, value));
        ghost var rest := UnpackEntries(less, k, w, size - i - 1, Abs()).0;
        assert read + ([(key, value)] + rest) == read + [(key, value)] + rest;
        read := read + [(key, value)];
      }
      NoEntries(less, k, w, Abs());
      assert read + [] == read;
    }
  }

  lemma ItemsStep(less: Order, e: Type, n: nat, s: Stream)
    requires n > 0 && s.valid
    ensures var (x, u) := Unpack(less, e, s); var (xs, end) := UnpackAll(less, e, n - 1, u);
      UnpackAll(less, e, n, s) == ([x] + xs, end)
  {
  }

  lemma NoItems(less: Order, e: Type, s: Stream)
    ensures UnpackAll(less, e, 0, s) == ([], s)
    ensures !s.valid ==> forall n: nat :: UnpackAll(less, e, n, s) == ([], s)
  {
  }

  lemma EntriesStep(less: Order, k: Type, w: Type, n: nat, s: Stream)
    requires n > 0 && s.valid
    ensures var (x, u) := Unpack(less, k, s); var (y, z) := Unpack(less, w, u); var (xs, end) := UnpackEntries(less, k, w, n - 1, z);
      UnpackEntries(less, k, w, n, s) == ([(x, y)] + xs, end)
  {
  }

  lemma NoEntries(less: Order, k: Type, w: Type, s: Stream)
    ensures UnpackEntries(less, k, w, 0, s) == ([], s) && EmplacedAll(less, []) == []
    ensures !s.valid ==> forall n: nat :: UnpackEntries(less, k, w, n, s) == ([], s)
  {
  }

  lemma EmplacedStep(less: Order, s: seq<(Value, Value)>, x: (Value, Value))
    ensures EmplacedAll(less, s + [x]) == Emplaced(less, EmplacedAll(less, s), x)
  {
    assert (s + [x])[..|s|] == s;
  }
}
