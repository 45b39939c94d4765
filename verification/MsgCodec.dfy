/**
  The wire format of network messages, for any message built from plain fields, strings, records,
  vectors and maps. A record (ClusterNode) is its fields one after the other.
  */
module MsgCodec {

  type byte = x: int | 0 <= x < 256
  type bytes = seq<byte>

  const MAX_ALLOWED := 1024 * 1024

  datatype Type = Pod(size: nat) | Str | Pair(first: Type, second: Type) | Vec(elem: Type) | Map(key: Type, value: Type)

  datatype Value =
    | PodV(raw: bytes)
    | StrV(text: bytes)
    | PairV(first: Value, second: Value)
    | VecV(items: seq<Value>)
    | MapV(entries: seq<(Value, Value)>)

  /** A strict total order on keys, as std::less provides. */
  type Order = (Value, Value) -> bool

  ghost predicate IsOrder(less: Order) {
    && (forall a :: !less(a, a))
    && (forall a, b, c :: less(a, b) && less(b, c) ==> less(a, c))
    && (forall a, b :: a == b || less(a, b) || less(b, a))
  }

  /** Every plain field has at least one byte. */
  predicate Sized(t: Type) {
    match t
    case Pod(size) => size > 0
    case Str => true
    case Pair(a, b) => Sized(a) && Sized(b)
    case Vec(e) => Sized(e)
    case Map(k, v) => Sized(k) && Sized(v)
  }

  ghost predicate Ascending(less: Order, s: seq<(Value, Value)>) {
    forall i, j :: 0 <= i < j < |s| ==> less(s[i].0, s[j].0)
  }

  /** A value of a type; the entries of a map are in key order. */
  ghost predicate Typed(less: Order, t: Type, v: Value) {
    match t
    case Pod(size) => v.PodV? && |v.raw| == size
    case Str => v.StrV?
    case Pair(a, b) => v.PairV? && Typed(less, a, v.first) && Typed(less, b, v.second)
    case Vec(e) => v.VecV? && forall i :: 0 <= i < |v.items| ==> Typed(less, e, v.items[i])
    case Map(k, w) =>
      && v.MapV? && Ascending(less, v.entries)
      && forall i :: 0 <= i < |v.entries| ==> Typed(less, k, v.entries[i].0) && Typed(less, w, v.entries[i].1)
  }

  /** Within the limits the unpacker enforces. */
  ghost predicate Within(t: Type, v: Value) {
    match t
    case Pod(_) => true
    case Str => v.StrV? && |v.text| <= MAX_ALLOWED
    case Pair(a, b) => v.PairV? && Within(a, v.first) && Within(b, v.second)
    case Vec(e) => v.VecV? && |v.items| <= MAX_ALLOWED && forall i :: 0 <= i < |v.items| ==> Within(e, v.items[i])
    case Map(k, w) =>
      && v.MapV? && |v.entries| <= MAX_ALLOWED
      && forall i :: 0 <= i < |v.entries| ==> Within(k, v.entries[i].0) && Within(w, v.entries[i].1)
  }

  // ---- packing

  function Pow256(n: nat): (r: nat)
    ensures r >= 1
  {
    if n == 0 then 1 else 256 * Pow256(n - 1)
  }

  /** A number in n bytes, low byte first; what does not fit is cut off. */
  function Number(x: nat, n: nat): (r: bytes)
    ensures |r| == n
  {
    if n == 0 then [] else [x % 256] + Number(x / 256, n - 1)
  }

  function ValueOf(s: bytes): nat {
    if s == [] then 0 else s[0] + 256 * ValueOf(s[1..])
  }

  /** The length of a string is kept in 32 bits, and only so many bytes are written. */
  function PackString(text: bytes): bytes {
    var size := |text| % 0x1_0000_0000;
    Number(size, 4) + text[..size]
  }

  function Pack(t: Type, v: Value): bytes
    decreases t, 0
  {
    match (t, v)
    case (Pod(_), PodV(raw)) => raw
    case (Str, StrV(text)) => PackString(text)
    case (Pair(a, b), PairV(x, y)) => Pack(a, x) + Pack(b, y)
    case (Vec(e), VecV(items)) => Number(|items|, 8) + PackAll(e, items)
    case (Map(k, w), MapV(entries)) => Number(|entries|, 8) + PackEntries(k, w, entries)
    case _ => []
  }

  function PackAll(e: Type, items: seq<Value>): bytes
    decreases e, |items| + 1
  {
    if items == [] then [] else Pack(e, items[0]) + PackAll(e, items[1..])
  }

  function PackEntries(k: Type, w: Type, entries: seq<(Value, Value)>): bytes
    decreases Map(k, w), 0, |entries|
  {
    if entries == [] then [] else Pack(k, entries[0].0) + Pack(w, entries[0].1) + PackEntries(k, w, entries[1..])
  }

  // ---- unpacking

  datatype Stream = Stream(rest: bytes, valid: bool)

  function Zeros(n: nat): bytes { seq(n, _ => 0) }

  /** What a value is when it could not be read. */
  function Default(t: Type): Value {
    match t
    case Pod(size) => PodV(Zeros(size))
    case Str => StrV([])
    case Pair(a, b) => PairV(Default(a), Default(b))
    case Vec(_) => VecV([])
    case Map(_, _) => MapV([])
  }

  function TakeRaw(n: nat, s: Stream): (bytes, Stream) {
    if !s.valid then (Zeros(n), s)
    else if |s.rest| < n then (Zeros(n), Stream([], false))
    else (s.rest[..n], s.(rest := s.rest[n..]))
  }

  function TakeNumber(n: nat, s: Stream): (nat, Stream) {
    var (raw, t) := TakeRaw(n, s);
    (ValueOf(raw), t)
  }

  function TakeString(s: Stream): (bytes, Stream) {
    var (size, t) := TakeNumber(4, s);
    if !t.valid || size > MAX_ALLOWED || size > |t.rest| then ([], t.(valid := false))
    else (t.rest[..size], t.(rest := t.rest[size..]))
  }

  /** Insertion into an ordered map; a key that is there already keeps its value. */
  function Emplaced(less: Order, s: seq<(Value, Value)>, x: (Value, Value)): seq<(Value, Value)> {
    if s == [] || less(x.0, s[0].0) then [x] + s
    else if less(s[0].0, x.0) then [s[0]] + Emplaced(less, s[1..], x)
    else s
  }

  function EmplacedAll(less: Order, s: seq<(Value, Value)>): seq<(Value, Value)> {
    if s == [] then [] else Emplaced(less, EmplacedAll(less, s[..|s| - 1]), s[|s| - 1])
  }

  function Unpack(less: Order, t: Type, s: Stream): (r: (Value, Stream))
    decreases t, 0
  {
    match t
    case Pod(size) => var (raw, u) := TakeRaw(size, s); (PodV(raw), u)
    case Str => var (text, u) := TakeString(s); (StrV(text), u)
    case Pair(a, b) =>
      var (x, u) := Unpack(less, a, s);
      var (y, w) := Unpack(less, b, u);
      if w.valid then (PairV(x, y), w) else (Default(t), w)
    case Vec(e) =>
      var (size, u) := TakeNumber(8, s);
      if !u.valid || size > MAX_ALLOWED || size > |u.rest| then (VecV([]), u.(valid := false))
      else
        var (items, w) := UnpackAll(less, e, size, u);
        (VecV(if w.valid then items else []), w)
    case Map(k, v) =>
      var (size, u) := TakeNumber(8, s);
      if !u.valid || size > MAX_ALLOWED || size > |u.rest| / 2 then (MapV([]), u.(valid := false))
      else
        var (entries, w) := UnpackEntries(less, k, v, size, u);
        (MapV(if w.valid then EmplacedAll(less, entries) else []), w)
  }

  function UnpackAll(less: Order, e: Type, n: nat, s: Stream): (seq<Value>, Stream)
    decreases e, n + 1
  {
    if n == 0 || !s.valid then ([], s)
    else
      var (x, u) := Unpack(less, e, s);
      var (xs, w) := UnpackAll(less, e, n - 1, u);
      ([x] + xs, w)
  }

  function UnpackEntries(less: Order, k: Type, v: Type, n: nat, s: Stream): (seq<(Value, Value)>, Stream)
    decreases Map(k, v), 0, n
  {
    if n == 0 || !s.valid then ([], s)
    else
      var (x, u) := Unpack(less, k, s);
      var (y, w) := Unpack(less, v, u);
      var (xs, z) := UnpackEntries(less, k, v, n - 1, w);
      ([(x, y)] + xs, z)
  }
}
