/**
  A region's node set as two 1024-bit maps of sixteen 64-bit words: which nodes belong to it,
  and which of those have affinity. A word is its 64 bits, least significant first.
  */
module RegionBitmap {

  const BITS := 64
  const WORDS := 16
  const MAX_NODE := 1024

  type Word = w: seq<bool> | |w| == 64 witness seq(64, _ => false)
  type Bitmap = b: seq<Word> | |b| == 16 witness seq(16, _ => seq(64, _ => false))

  function Zero(): Bitmap {
    seq(16, _ => seq(64, _ => false))
  }

  predicate Bit(b: Bitmap, n: nat)
    requires n < MAX_NODE
  {
    b[n / BITS][n % BITS]
  }

  function WithBit(b: Bitmap, n: nat): Bitmap
    requires n < MAX_NODE
  {
    b[n / BITS := b[n / BITS][n % BITS := true]]
  }

  lemma WithBitBits(b: Bitmap, n: nat)
    requires n < MAX_NODE
    ensures forall k :: 0 <= k < MAX_NODE ==> (Bit(WithBit(b, n), k) <==> k == n || Bit(b, k))
  {
    forall k | 0 <= k < MAX_NODE
      ensures Bit(WithBit(b, n), k) <==> k == n || Bit(b, k)
    {
      assert k == k / BITS * BITS + k % BITS && n == n / BITS * BITS + n % BITS;
    }
  }

  /** The bitmap with a bit for every chosen node: node `i` is chosen when `pick[i]`. */
  function Encoded(nodeIds: seq<nat>, pick: seq<bool>): (b: Bitmap)
    requires |nodeIds| == |pick| && forall i :: 0 <= i < |nodeIds| ==> nodeIds[i] < MAX_NODE
  {
    if nodeIds == [] then Zero()
    else
      var k := |nodeIds| - 1;
      var b := Encoded(nodeIds[..k], pick[..k]);
      if pick[k] then WithBit(b, nodeIds[k]) else b
  }

  /** A bit is set exactly when its node is listed with the flag. */
  lemma {:induction false} EncodedBits(nodeIds: seq<nat>, pick: seq<bool>)
    requires |nodeIds| == |pick| && forall i :: 0 <= i < |nodeIds| ==> nodeIds[i] < MAX_NODE
    ensures forall n :: 0 <= n < MAX_NODE ==>
      (Bit(Encoded(nodeIds, pick), n) <==> exists i :: 0 <= i < |nodeIds| && nodeIds[i] == n && pick[i])
  {
    if nodeIds != [] {
      var k := |nodeIds| - 1;
      var b := Encoded(nodeIds[..k], pick[..k]);
      EncodedBits(nodeIds[..k], pick[..k]);
      WithBitBits(b, nodeIds[k]);
      hide Bit, WithBit;
      forall n | 0 <= n < MAX_NODE
        ensures Bit(Encoded(nodeIds, pick), n) <==> exists i :: 0 <= i < |nodeIds| && nodeIds[i] == n && pick[i]
      {
        if i :| 0 <= i < |nodeIds| && nodeIds[i] == n && pick[i] && i < k {
          assert nodeIds[..k][i] == n && pick[..k][i];
        }
      }
    }
  }

  /** The positions of the set bits from `from` on, ascending. */
  function Members(b: Bitmap, from: nat): (s: seq<nat>)
    requires from <= MAX_NODE
    decreases MAX_NODE - from
  {
    if from == MAX_NODE then []
    else if Bit(b, from) then [from] + Members(b, from + 1)
    else Members(b, from + 1)
  }

  lemma {:induction false} MembersExact(b: Bitmap, from: nat)
    requires from <= MAX_NODE
    ensures var s := Members(b, from);
      && (forall n :: n in s <==> from <= n < MAX_NODE && Bit(b, n))
      && (forall i :: 0 <= i < |s| ==> from <= s[i] < MAX_NODE)
      && (forall i, j :: 0 <= i < j < |s| ==> s[i] < s[j])
    decreases MAX_NODE - from
  {
    if from < MAX_NODE {
      MembersExact(b, from + 1);
    }
  }

  predicate AreNodes(ids: seq<nat>) { forall i :: 0 <= i < |ids| ==> ids[i] < MAX_NODE }

  ghost function Flags(affinity: Bitmap, ids: seq<nat>): seq<bool>
    requires forall i :: 0 <= i < |ids| ==> ids[i] < MAX_NODE
  {
    seq(|ids|, i requires 0 <= i < |ids| => Bit(affinity, ids[i]))
  }

  /** The (node, affinity) pairs of a list. */
  ghost function Pairs(nodeIds: seq<nat>, affinity: seq<bool>): set<(nat, bool)>
    requires |nodeIds| == |affinity|
  {
    set i | 0 <= i < |nodeIds| :: (nodeIds[i], affinity[i])
  }

  /** No node is listed both with and without affinity. */
  ghost predicate Consistent(nodeIds: seq<nat>, affinity: seq<bool>)
    requires |nodeIds| == |affinity|
  {
    forall i, j :: 0 <= i < |nodeIds| && 0 <= j < |nodeIds| && nodeIds[i] == nodeIds[j] ==> affinity[i] == affinity[j]
  }

  /**
    Storing a node list and listing it again yields the nodes in strictly increasing order, and
    the same set of (node, affinity) pairs exactly when no node was given both flags.
    */
  lemma RoundTrip(nodeIds: seq<nat>, affinity: seq<bool>)
    requires |nodeIds| == |affinity| && forall i :: 0 <= i < |nodeIds| ==> nodeIds[i] < MAX_NODE
    ensures var ids := Members(Encoded(nodeIds, AllTrue(|nodeIds|)), 0);
      && (forall i :: 0 <= i < |ids| ==> ids[i] < MAX_NODE)
      && (forall i, j :: 0 <= i < j < |ids| ==> ids[i] < ids[j])
      && (forall n :: n in ids <==> n in nodeIds)
      && (Pairs(ids, Flags(Encoded(nodeIds, affinity), ids)) == Pairs(nodeIds, affinity) <==>
          Consistent(nodeIds, affinity))
  {
    var all := Encoded(nodeIds, AllTrue(|nodeIds|));
    var aff := Encoded(nodeIds, affinity);
    var ids := Members(all, 0);
    EncodedBits(nodeIds, AllTrue(|nodeIds|));
    EncodedBits(nodeIds, affinity);
    MembersExact(all, 0);
    hide Encoded, Members, Bit;
    var flags := Flags(aff, ids);
    assert forall n :: n in ids <==> n in nodeIds;
    if Consistent(nodeIds, affinity) {
      forall i | 0 <= i < |nodeIds|
        ensures (nodeIds[i], affinity[i]) in Pairs(ids, flags)
      {
        assert nodeIds[i] in ids;
        var k :| 0 <= k < |ids| && ids[k] == nodeIds[i];
        assert flags[k] == affinity[i];
      }
      forall k | 0 <= k < |ids|
        ensures (ids[k], flags[k]) in Pairs(nodeIds, affinity)
      {
        assert ids[k] in nodeIds;
        var i :| 0 <= i < |nodeIds| && nodeIds[i] == ids[k];
        assert flags[k] == affinity[i];
      }
    } else {
      var i, j :| 0 <= i < |nodeIds| && 0 <= j < |nodeIds| && nodeIds[i] == nodeIds[j] && affinity[i] != affinity[j];
      var n := nodeIds[i];
      assert (n, affinity[i]) in Pairs(nodeIds, affinity) && (n, affinity[j]) in Pairs(nodeIds, affinity);
      assert Bit(aff, n);
      assert (n, false) !in Pairs(ids, flags);
    }
  }

  /** The pairs that come back for a stored node list. */
  ghost function ListedPairs(nodeIds: seq<nat>, affinity: seq<bool>): set<(nat, bool)>
    requires |nodeIds| == |affinity| && forall i :: 0 <= i < |nodeIds| ==> nodeIds[i] < MAX_NODE
  {
    var all := Encoded(nodeIds, AllTrue(|nodeIds|));
    MembersExact(all, 0);
    Pairs(Members(all, 0), Flags(Encoded(nodeIds, affinity), Members(all, 0)))
  }

  /** An instance: node 1 given with and without affinity does not come back as stored. */
  lemma BothFlagsLost()
    ensures ListedPairs([1, 1], [true, false]) != Pairs([1, 1], [true, false])
  {
    var ids: seq<nat>, flags := [1, 1], [true, false];
    RoundTrip(ids, flags);
    assert ids[0] == ids[1] && flags[0] != flags[1];
    hide Encoded, Members;
  }

  function AllTrue(n: nat): seq<bool> {
    seq(n, _ => true)
  }

  // ---- the loops

  /** Sets one bit per listed node, and its affinity bit where asked. */
  method EncodeNodes(nodeIds: seq<nat>, affinity: seq<bool>) returns (bitmap: Bitmap, bitmapAffinity: Bitmap)
    requires |nodeIds| == |affinity| && forall i :: 0 <= i < |nodeIds| ==> nodeIds[i] < MAX_NODE
    ensures bitmap == Encoded(nodeIds, AllTrue(|nodeIds|)) && bitmapAffinity == Encoded(nodeIds, affinity)
  {
    bitmap, bitmapAffinity := Zero(), Zero();
    for i := 0 to |nodeIds|
      invariant bitmap == Encoded(nodeIds[..i], AllTrue(i))
      invariant bitmapAffinity == Encoded(nodeIds[..i], affinity[..i])
    {
      assert nodeIds[..i + 1][..i] == nodeIds[..i] && affinity[..i + 1][..i] == affinity[..i];
      assert AllTrue(i + 1)[..i] == AllTrue(i);
      var index, bits := nodeIds[i] / BITS, nodeIds[i] % BITS;
      bitmap := bitmap[index := bitmap[index][bits := true]];
      if affinity[i] {
        bitmapAffinity := bitmapAffinity[index := bitmapAffinity[index][bits := true]];
      }
    }
    assert nodeIds[..|nodeIds|] == nodeIds && affinity[..|affinity|] == affinity;
  }

  lemma {:induction false} MembersSkip(b: Bitmap, from: nat, count: nat)
    requires from + count <= MAX_NODE && forall n :: from <= n < from + count ==> !Bit(b, n)
    ensures Members(b, from) == Members(b, from + count)
    decreases count
  {
    if count > 0 {
      MembersSkip(b, from + 1, count - 1);
    }
  }

  lemma {:induction false} MembersFrame(b: Bitmap, c: Bitmap, from: nat)
    requires from <= MAX_NODE && forall n :: from <= n < MAX_NODE ==> (Bit(b, n) <==> Bit(c, n))
    ensures Members(b, from) == Members(c, from)
    decreases MAX_NODE - from
  {
    if from < MAX_NODE {
      MembersFrame(b, c, from + 1);
    }
  }

  /** Reading bit `n` of a bitmap whose word `index` is `w`. */
  lemma WordBit(b: Bitmap, c: Bitmap, index: nat, w: Word, n: nat)
    requires index < WORDS && n < MAX_NODE && c == b[index := w]
    ensures Bit(c, n) == if index * BITS <= n < index * BITS + BITS then w[n - index * BITS] else Bit(b, n)
  {
    if index * BITS <= n < index * BITS + BITS {
      assert n / BITS == index && n % BITS == n - index * BITS;
    } else {
      assert n / BITS != index;
    }
  }

  /** Taking the lowest set bit of a word takes the first member of the bitmap. */
  lemma PopLowest(b: Bitmap, index: nat, w: Word, bit: nat)
    requires index < WORDS && bit < BITS && w[bit] && forall k :: 0 <= k < bit ==> !w[k]
    ensures var base := index * BITS;
      Members(b[index := w], base) == [base + bit] + Members(b[index := w[bit := false]], base)
  {
    var base := index * BITS;
    var cur: Bitmap, next: Bitmap := b[index := w], b[index := w[bit := false]];
    forall n | base <= n < MAX_NODE
      ensures n < base + bit ==> !Bit(cur, n)
      ensures n < base + bit + 1 ==> !Bit(next, n)
      ensures n == base + bit ==> Bit(cur, n)
      ensures n > base + bit ==> Bit(cur, n) == Bit(next, n)
    {
      WordBit(b, cur, index, w, n);
      WordBit(b, next, index, w[bit := false], n);
    }
    hide Bit;
    MembersSkip(cur, base, bit);
    MembersSkip(next, base, bit + 1);
    MembersFrame(cur, next, base + bit + 1);
  }

  method LowestBit(w: Word) returns (bit: nat)
    requires true in w
    ensures bit < BITS && w[bit] && forall k :: 0 <= k < bit ==> !w[k]
  {
    bit := 0;
    while !w[bit]
      invariant bit < BITS && forall k :: 0 <= k < bit ==> !w[k]
      decreases BITS - bit
    {
      bit := bit + 1;
    }
  }

  /** Lists the nodes of a region word by word, taking and clearing the lowest set bit. */
  method ListNodes(bitmap: Bitmap, bitmapAffinity: Bitmap) returns (nodeIds: seq<nat>, affinitys: seq<bool>)
    ensures nodeIds == Members(bitmap, 0)
    ensures AreNodes(nodeIds) && affinitys == Flags(bitmapAffinity, nodeIds)
  {
    nodeIds, affinitys := [], [];
    hide Members;
    assert [] + Members(bitmap, 0) == Members(bitmap, 0);
    for index := 0 to WORDS
      invariant nodeIds + Members(bitmap, index * BITS) == Members(bitmap, 0)
      invariant AreNodes(nodeIds) && affinitys == Flags(bitmapAffinity, nodeIds)
    {
      nodeIds, affinitys := ListWord(bitmap, bitmapAffinity, index, nodeIds, affinitys);
    }
    NoMembers(bitmap);
    assert nodeIds + [] == nodeIds;
  }

  lemma NoMembers(bitmap: Bitmap)
    ensures Members(bitmap, WORDS * BITS) == []
  {
  }

  /** The nodes of one word, lowest first, after those listed already. */
  method ListWord(bitmap: Bitmap, bitmapAffinity: Bitmap, index: nat, before: seq<nat>, flags: seq<bool>)
    returns (nodeIds: seq<nat>, affinitys: seq<bool>)
    requires index < WORDS && AreNodes(before) && flags == Flags(bitmapAffinity, before)
    ensures nodeIds + Members(bitmap, (index + 1) * BITS) == before + Members(bitmap, index * BITS)
    ensures AreNodes(nodeIds) && affinitys == Flags(bitmapAffinity, nodeIds)
  {
    nodeIds, affinitys := before, flags;
    var word: Word, base := bitmap[index], index * BITS;
    assert bitmap[index := word] == bitmap;
    while true in word
      invariant nodeIds + Members(bitmap[index := word], base) == before + Members(bitmap, base)
      invariant AreNodes(nodeIds) && affinitys == Flags(bitmapAffinity, nodeIds)
      decreases multiset(word)[true]
    {
      var bit := LowestBit(word);
      PopLowest(bitmap, index, word, bit);
      nodeIds := nodeIds + [base + bit];
      affinitys := affinitys + [bitmapAffinity[index][bit]];
      word := word[bit := false];
    }
    EmptyWord(bitmap, index, word);
  }

  lemma EmptyWord(b: Bitmap, index: nat, w: Word)
    requires index < WORDS && true !in w
    ensures Members(b[index := w], index * BITS) == Members(b, (index + 1) * BITS)
  {
    var base, c: Bitmap := index * BITS, b[index := w];
    forall n | base <= n < MAX_NODE
      ensures if n < base + BITS then !Bit(c, n) else Bit(c, n) == Bit(b, n)
    {
      WordBit(b, c, index, w, n);
    }
    hide Bit;
    MembersSkip(c, base, BITS);
    MembersFrame(c, b, base + BITS);
  }
}
