/**
 One Bloom filter in a bitmap: a 512-byte header, then one partition of bits for each of its hash
 functions. The two hash functions that everything is derived from are left uninterpreted.
 */
module BloomFilter {
  import opened Bitmap

  const HEADER := 512
  const MAGIC := 0xCB1005DD
  const WORD := 0x1_0000_0000_0000_0000
  const PRIME := 18446744073709551557

  type Word = w: int | 0 <= w < WORD

  type Key = string

  /** The four words that hashing a key yields. */
  datatype Hasher = Hasher(murmur: Key -> (Word, Word), spooky: Key -> (Word, Word))

  // ----- hashes

  function BaseHash(h: Hasher, key: Key, i: nat): Word
    requires i < 4
  {
    match i
    case 0 => h.murmur(key).0
    case 1 => h.murmur(key).1
    case 2 => h.spooky(key).0
    case _ => h.spooky(key).1
  }

  /** Beyond the first four, a linear combination; products and sums wrap at 64 bits. */
  function HashOf(h: Hasher, key: Key, i: nat): Word {
    if i < 4 then BaseHash(h, key, i)
    else (BaseHash(h, key, 1) + (i * BaseHash(h, key, 3)) % WORD % PRIME) % WORD
  }

  method ComputeHashes(h: Hasher, key: Key, kNum: nat) returns (hashes: seq<Word>)
    requires kNum >= 4
    ensures |hashes| == kNum && forall i :: 0 <= i < kNum ==> hashes[i] == HashOf(h, key, i)
  {
    var m, s := h.murmur(key), h.spooky(key);
    hashes := [m.0, m.1, s.0, s.1];
    var i := 4;
    while i < kNum
      invariant 4 <= i <= kNum && |hashes| == i
      invariant forall j :: 0 <= j < i ==> hashes[j] == HashOf(h, key, j)
    {
      hashes := hashes + [(hashes[1] + (i * hashes[3]) % WORD % PRIME) % WORD];
      i := i + 1;
    }
  }

  // ----- the header

  function Val(b: bv8): (r: nat)
    ensures r < 256
  {
    b as nat
  }

  function U32(mem: Bytes, at: nat): (r: nat)
    requires at + 4 <= |mem|
    ensures r < 0x1_0000_0000
  {
    Val(mem[at]) + 0x100 * Val(mem[at + 1]) + 0x1_0000 * Val(mem[at + 2]) + 0x100_0000 * Val(mem[at + 3])
  }

  function U64(mem: Bytes, at: nat): (r: nat)
    requires at + 8 <= |mem|
    ensures r < WORD
  {
    U32(mem, at) + 0x1_0000_0000 * U32(mem, at + 4)
  }

  function ByteAt(n: nat, i: nat): bv8
    requires i < 4
  {
    match i
    case 0 => (n % 0x100) as bv8
    case 1 => (n / 0x100 % 0x100) as bv8
    case 2 => (n / 0x1_0000 % 0x100) as bv8
    case _ => (n / 0x100_0000 % 0x100) as bv8
  }

  /** Little-endian. */
  function PutU32(m: Map, at: nat, n: nat): (r: Map)
    requires at + 4 <= |m.mem|
    ensures |r.mem| == |m.mem|
  {
    Poke(Poke(Poke(Poke(m, at, ByteAt(n, 0)), at + 1, ByteAt(n, 1)), at + 2, ByteAt(n, 2)), at + 3, ByteAt(n, 3))
  }

  function PutU64(m: Map, at: nat, n: nat): (r: Map)
    requires at + 8 <= |m.mem|
    ensures |r.mem| == |m.mem|
  {
    PutU32(PutU32(m, at, n % 0x1_0000_0000), at + 4, n / 0x1_0000_0000)
  }

  lemma ByteBack(x: nat)
    requires x < 256
    ensures Val(x as bv8) == x
  {
  }

  lemma Digits(n: nat)
    requires n < 0x1_0000_0000
    ensures n == n % 0x100 + 0x100 * (n / 0x100 % 0x100) + 0x1_0000 * (n / 0x1_0000 % 0x100) + 0x100_0000 * (n / 0x100_0000 % 0x100)
  {
  }

  /** The bytes outside the four are untouched. */
  lemma PutU32Frame(m: Map, at: nat, n: nat)
    requires at + 4 <= |m.mem|
    ensures var r := PutU32(m, at, n);
            && r.mode == m.mode && r.dirty == m.dirty
            && (forall i :: 0 <= i < |m.mem| && !(at <= i < at + 4) ==> r.mem[i] == m.mem[i])
            && r.mem[at] == ByteAt(n, 0) && r.mem[at + 1] == ByteAt(n, 1)
            && r.mem[at + 2] == ByteAt(n, 2) && r.mem[at + 3] == ByteAt(n, 3)
  {
  }

  lemma PutU32Back(m: Map, at: nat, n: nat)
    requires at + 4 <= |m.mem| && n < 0x1_0000_0000
    ensures U32(PutU32(m, at, n).mem, at) == n
  {
    PutU32Frame(m, at, n);
    ByteBack(n % 0x100);
    ByteBack(n / 0x100 % 0x100);
    ByteBack(n / 0x1_0000 % 0x100);
    ByteBack(n / 0x100_0000 % 0x100);
    Digits(n);
  }

  lemma PutU32Tracked(m: Map, at: nat, n: nat)
    requires Tracked(m) && at + 4 <= |m.mem| && at + 4 <= PAGE
    ensures Tracked(PutU32(m, at, n))
  {
    var m1 := Poke(m, at, ByteAt(n, 0));
    var m2 := Poke(m1, at + 1, ByteAt(n, 1));
    PokeTracked(m, at, ByteAt(n, 0));
    PokeTracked(m1, at + 1, ByteAt(n, 1));
    PokeTracked(m2, at + 2, ByteAt(n, 2));
    PokeTracked(Poke(m2, at + 2, ByteAt(n, 2)), at + 3, ByteAt(n, 3));
  }

  /** A 64-bit header field reads back as written, and nothing else changes. */
  lemma PutU64Back(m: Map, at: nat, n: nat)
    requires Tracked(m) && at + 8 <= |m.mem| && at + 8 <= PAGE && n < WORD
    ensures var r := PutU64(m, at, n);
            && U64(r.mem, at) == n && Tracked(r) && r.mode == m.mode && r.dirty == m.dirty
            && forall i :: 0 <= i < |m.mem| && !(at <= i < at + 8) ==> r.mem[i] == m.mem[i]
  {
    var lo, hi := n % 0x1_0000_0000, n / 0x1_0000_0000;
    var m1 := PutU32(m, at, lo);
    PutU32Frame(m, at, lo);
    PutU32Back(m, at, lo);
    PutU32Tracked(m, at, lo);
    PutU32Frame(m1, at + 4, hi);
    PutU32Back(m1, at + 4, hi);
    PutU32Tracked(m1, at + 4, hi);
  }

  // ----- the filter

  function KNum(m: Map): nat
    requires |m.mem| >= HEADER
  {
    U32(m.mem, 4)
  }

  function Count(m: Map): nat
    requires |m.mem| >= HEADER
  {
    U64(m.mem, 8)
  }

  function BitmapSize(m: Map): nat
    requires |m.mem| >= HEADER
  {
    (|m.mem| - HEADER) * 8
  }

  /** The bits of one partition. */
  function Offset(m: Map): (off: nat)
    requires |m.mem| >= HEADER && KNum(m) > 0
    ensures KNum(m) <= BitmapSize(m) ==> off >= 1
  {
    Share(BitmapSize(m), KNum(m))
  }

  function Share(bits: nat, k: nat): (r: nat)
    requires k > 0
    ensures k <= bits ==> r >= 1
  {
    bits / k
  }

  /** A filter with room for its header, enough hash functions and a bit for each. */
  predicate Filter(m: Map) {
    Tracked(m) && |m.mem| >= HEADER && U32(m.mem, 0) == MAGIC && 4 <= KNum(m) <= BitmapSize(m)
  }

  /** The bit that hash `h` selects in partition `i`. */
  function Probe(off: nat, i: nat, h: Word): nat
    requires off >= 1
  {
    8 * HEADER + i * off + h % off
  }

  lemma Partition(bits: nat, k: nat, i: nat)
    requires k > 0 && i < k
    ensures i * (bits / k) + bits / k <= bits
  {
    var off := bits / k;
    DivMul(bits, k);
    MulMono(i + 1, k, off);
    assert (i + 1) * off == i * off + off;
  }

  lemma DivMul(a: nat, b: nat)
    requires b > 0
    ensures b * (a / b) <= a
  {
    assert a == b * (a / b) + a % b;
  }

  lemma {:induction false} MulMono(a: nat, b: nat, c: nat)
    requires a <= b
    ensures a * c <= b * c
    decreases c
  {
    if c > 0 {
      MulMono(a, b, c - 1);
      assert a * c == a * (c - 1) + a && b * c == b * (c - 1) + b;
    }
  }

  /** Every probed bit lies past the header and inside the map. */
  lemma ProbeInside(m: Map, i: nat, h: Word)
    requires |m.mem| >= HEADER && 0 < KNum(m) <= BitmapSize(m) && i < KNum(m)
    ensures 8 * HEADER <= Probe(Offset(m), i, h) < 8 * |m.mem| && Probe(Offset(m), i, h) / 8 < |m.mem|
  {
    Partition(BitmapSize(m), KNum(m), i);
  }

  /** Different partitions never share a bit. */
  lemma ProbesDisjoint(off: nat, i: nat, j: nat, h: Word, h': Word)
    requires off >= 1 && i < j
    ensures Probe(off, i, h) < Probe(off, j, h')
  {
    MulMono(i + 1, j, off);
    assert (i + 1) * off == i * off + off;
  }

  predicate Holds(m: Map, hashes: seq<Word>)
    requires Filter(m) && |hashes| == KNum(m)
  {
    forall i :: 0 <= i < |hashes| ==> HasProbe(m, i, hashes[i])
  }

  predicate HasProbe(m: Map, i: nat, h: Word)
    requires Filter(m) && i < KNum(m)
  {
    ProbeInside(m, i, h);
    Bit(m.mem, Probe(Offset(m), i, h))
  }

  method InternalContains(m: Map, hashes: seq<Word>) returns (r: bool)
    requires Filter(m) && |hashes| == KNum(m)
    ensures r <==> Holds(m, hashes)
  {
    var off := Offset(m);
    var i := 0;
    while i < KNum(m)
      invariant 0 <= i <= KNum(m)
      invariant forall j :: 0 <= j < i ==> HasProbe(m, j, hashes[j])
    {
      ProbeInside(m, i, hashes[i]);
      var bit := 8 * HEADER + i * off + hashes[i] % off;
      if !Bit(m.mem, bit) {
        assert !HasProbe(m, i, hashes[i]);
        return false;
      }
      i := i + 1;
    }
    return true;
  }

  /** `r` is the same filter with at least the bits of `m`. */
  ghost predicate Grown(m: Map, r: Map) {
    && |r.mem| == |m.mem| && r.mode == m.mode && |m.mem| >= HEADER
    && (forall i :: 0 <= i < 8 ==> r.mem[i] == m.mem[i])
    && (forall b: nat :: b / 8 < |m.mem| && 8 * HEADER <= b && Bit(m.mem, b) ==> Bit(r.mem, b))
  }

  /** The header, except for the count, is as it was. */
  ghost predicate SameHeader(m: Map, r: Map) {
    |r.mem| == |m.mem| && forall i :: 0 <= i < HEADER && i < |m.mem| && !(8 <= i < 16) ==> r.mem[i] == m.mem[i]
  }

  /** Bit `b` is one that the first `n` hashes select. */
  predicate Probed(off: nat, hashes: seq<Word>, n: nat, b: nat)
    requires off >= 1 && n <= |hashes|
  {
    exists i :: 0 <= i < n && b == Probe(off, i, hashes[i])
  }

  /** Past the header exactly the bits of `m` and those that the first `n` hashes select are set. */
  ghost predicate BitsAdded(m: Map, r: Map, hashes: seq<Word>, n: nat)
    requires Filter(m) && n <= |hashes|
  {
    && SameHeader(m, r)
    && forall b: nat :: b / 8 < |m.mem| && 8 * HEADER <= b ==>
         (Bit(r.mem, b) <==> Bit(m.mem, b) || Probed(Offset(m), hashes, n, b))
  }

  lemma GrownHolds(m: Map, r: Map, hashes: seq<Word>)
    requires Filter(m) && Tracked(r) && Grown(m, r) && |hashes| == KNum(m)
    ensures Filter(r) && KNum(r) == KNum(m) && Offset(r) == Offset(m)
    ensures Holds(m, hashes) ==> Holds(r, hashes)
  {
    assert U32(r.mem, 0) == U32(m.mem, 0) && U32(r.mem, 4) == U32(m.mem, 4);
    if Holds(m, hashes) {
      forall i | 0 <= i < |hashes|
        ensures HasProbe(r, i, hashes[i])
      {
        ProbeInside(m, i, hashes[i]);
        assert HasProbe(m, i, hashes[i]);
      }
    }
  }

  lemma GrownOn(m: Map, r: Map, t: Map)
    requires Grown(m, r) && Grown(r, t)
    ensures Grown(m, t)
  {
  }

  /** Setting a probed bit. */
  lemma SetProbe(m: Map, i: nat, h: Word)
    requires Filter(m) && i < KNum(m) && Probe(Offset(m), i, h) / 8 < |m.mem|
    ensures var r := BitSet(m, Probe(Offset(m), i, h));
            && Tracked(r) && Grown(m, r) && Filter(r) && KNum(r) == KNum(m) && Offset(r) == Offset(m)
            && HasProbe(r, i, h) && Count(r) == Count(m) && SameHeader(m, r)
            && forall c: nat :: c / 8 < |m.mem| ==> (Bit(r.mem, c) <==> c == Probe(Offset(m), i, h) || Bit(m.mem, c))
  {
    var b := Probe(Offset(m), i, h);
    ProbeInside(m, i, h);
    BitSetTracked(m, b);
    var r := BitSet(m, b);
    forall c: nat | c / 8 < |m.mem|
      ensures Bit(r.mem, c) <==> c == b || Bit(m.mem, c)
    {
      WithBitBits(m.mem, b, c);
    }
    assert forall j :: 0 <= j < HEADER ==> r.mem[j] == m.mem[j];
    assert U32(r.mem, 0) == U32(m.mem, 0) && U32(r.mem, 4) == U32(m.mem, 4);
    assert U32(r.mem, 8) == U32(m.mem, 8) && U32(r.mem, 12) == U32(m.mem, 12);
  }

  /** The count is a 64-bit word. */
  function NextCount(n: nat): (r: nat)
    ensures r < WORD && (n < WORD - 1 ==> r == n + 1)
  {
    (n + 1) % WORD
  }

  /** Only the count differs. */
  lemma CountedUp(m: Map, r: Map, n: nat)
    requires Filter(m) && Tracked(r) && |r.mem| == |m.mem| && r.mode == m.mode && U64(r.mem, 8) == n
    requires forall i :: 0 <= i < |m.mem| && !(8 <= i < 16) ==> r.mem[i] == m.mem[i]
    ensures Filter(r) && Grown(m, r) && KNum(r) == KNum(m) && Offset(r) == Offset(m) && Count(r) == n
  {
    assert U32(r.mem, 0) == U32(m.mem, 0) && U32(r.mem, 4) == U32(m.mem, 4);
  }

  /** Writes a header field. */
  method WriteU32(m: Map, at: nat, n: nat) returns (r: Map)
    requires Tracked(m) && at + 4 <= |m.mem| && at + 4 <= PAGE && n < 0x1_0000_0000
    ensures |r.mem| == |m.mem| && r.mode == m.mode && Tracked(r) && U32(r.mem, at) == n
    ensures forall i :: 0 <= i < |m.mem| && !(at <= i < at + 4) ==> r.mem[i] == m.mem[i]
  {
    PutU32Tracked(m, at, n);
    PutU32Frame(m, at, n);
    PutU32Back(m, at, n);
    r := PutU32(m, at, n);
  }

  method WriteU64(m: Map, at: nat, n: nat) returns (r: Map)
    requires Tracked(m) && at + 8 <= |m.mem| && at + 8 <= PAGE && n < WORD
    ensures |r.mem| == |m.mem| && r.mode == m.mode && Tracked(r) && U64(r.mem, at) == n
    ensures forall i :: 0 <= i < |m.mem| && !(at <= i < at + 8) ==> r.mem[i] == m.mem[i]
  {
    PutU64Back(m, at, n);
    r := PutU64(m, at, n);
  }

  /** The first `i` probes of the key are set and nothing else of the filter is disturbed. */
  ghost predicate SetSoFar(m: Map, r: Map, hashes: seq<Word>, i: nat)
    requires Filter(m) && |hashes| == KNum(m) && i <= |hashes|
  {
    && Filter(r) && Grown(m, r) && KNum(r) == KNum(m) && Offset(r) == Offset(m) && Count(r) == Count(m)
    && BitsAdded(m, r, hashes, i)
    && forall j :: 0 <= j < i ==> HasProbe(r, j, hashes[j])
  }

  lemma SetOneMore(m: Map, r: Map, hashes: seq<Word>, i: nat)
    requires Filter(m) && |hashes| == KNum(m) && i < |hashes| && SetSoFar(m, r, hashes, i)
    ensures var b := Probe(Offset(m), i, hashes[i]);
            b / 8 < |r.mem| && SetSoFar(m, BitSet(r, b), hashes, i + 1)
  {
    ProbeInside(r, i, hashes[i]);
    SetProbe(r, i, hashes[i]);
    var next := BitSet(r, Probe(Offset(r), i, hashes[i]));
    forall j | 0 <= j < i ensures HasProbe(next, j, hashes[j]) { ProbeKept(r, next, j, hashes[j]); }
    GrownOn(m, r, next);
    OneMoreBit(m, r, next, hashes, i);
  }

  lemma OneMoreBit(m: Map, r: Map, next: Map, hashes: seq<Word>, i: nat)
    requires Filter(m) && i < |hashes| && BitsAdded(m, r, hashes, i) && SameHeader(r, next)
    requires forall c: nat :: c / 8 < |r.mem| ==> (Bit(next.mem, c) <==> c == Probe(Offset(m), i, hashes[i]) || Bit(r.mem, c))
    ensures BitsAdded(m, next, hashes, i + 1)
  {
    var off := Offset(m);
    forall b: nat | b / 8 < |m.mem| && 8 * HEADER <= b
      ensures Bit(next.mem, b) <==> Bit(m.mem, b) || Probed(off, hashes, i + 1, b)
    {
      assert Probed(off, hashes, i + 1, b) <==> Probed(off, hashes, i, b) || b == Probe(off, i, hashes[i]);
    }
  }

  method SetAll(m: Map, hashes: seq<Word>) returns (r: Map)
    requires Filter(m) && |hashes| == KNum(m)
    ensures SetSoFar(m, r, hashes, |hashes|)
  {
    r := m;
    var off := Offset(m);
    var i := 0;
    while i < |hashes|
      invariant 0 <= i <= |hashes| && SetSoFar(m, r, hashes, i)
    {
      SetOneMore(m, r, hashes, i);
      r := BitSet(r, Probe(off, i, hashes[i]));
      i := i + 1;
    }
  }

  /** Adds a key by its hashes: 0 if all its bits are set already, otherwise 1. */
  method Add(m: Map, hashes: seq<Word>) returns (res: int, r: Map)
    requires Filter(m) && |hashes| == KNum(m)
    ensures Filter(r) && Grown(m, r) && KNum(r) == KNum(m) && Offset(r) == Offset(m) && Holds(r, hashes)
    ensures res == if Holds(m, hashes) then 0 else 1
    ensures res == 0 ==> r == m
    ensures BitsAdded(m, r, hashes, |hashes|)
    ensures Count(r) == if res == 0 then Count(m) else NextCount(Count(m))
  {
    var present := InternalContains(m, hashes);
    if present {
      NothingNew(m, hashes);
      return 0, m;
    }
    var t := SetAll(m, hashes);
    r := CountOne(t, hashes);
    GrownOn(m, t, r);
    CountedBits(m, t, r, hashes);
    return 1, r;
  }

  /** The count lies in the header. */
  lemma CountedBits(m: Map, t: Map, r: Map, hashes: seq<Word>)
    requires Filter(m) && BitsAdded(m, t, hashes, |hashes|) && |r.mem| == |t.mem|
    requires forall i :: 0 <= i < |t.mem| && !(8 <= i < 16) ==> r.mem[i] == t.mem[i]
    ensures BitsAdded(m, r, hashes, |hashes|)
  {
    forall b: nat | b / 8 < |m.mem| && 8 * HEADER <= b
      ensures Bit(r.mem, b) <==> Bit(t.mem, b)
    {
      assert r.mem[b / 8] == t.mem[b / 8];
    }
  }

  lemma NothingNew(m: Map, hashes: seq<Word>)
    requires Filter(m) && |hashes| == KNum(m) && Holds(m, hashes)
    ensures BitsAdded(m, m, hashes, |hashes|)
  {
    forall b: nat | b / 8 < |m.mem| && Probed(Offset(m), hashes, |hashes|, b)
      ensures Bit(m.mem, b)
    {
      var i :| 0 <= i < |hashes| && b == Probe(Offset(m), i, hashes[i]);
      assert HasProbe(m, i, hashes[i]);
    }
  }

  method CountOne(m: Map, ghost hashes: seq<Word>) returns (r: Map)
    requires Filter(m) && |hashes| == KNum(m) && Holds(m, hashes)
    ensures Filter(r) && Grown(m, r) && KNum(r) == KNum(m) && Offset(r) == Offset(m) && Holds(r, hashes)
    ensures Count(r) == NextCount(Count(m)) && |r.mem| == |m.mem|
    ensures forall i :: 0 <= i < |m.mem| && !(8 <= i < 16) ==> r.mem[i] == m.mem[i]
  {
    r := WriteU64(m, 8, NextCount(Count(m)));
    CountedUp(m, r, NextCount(Count(m)));
    GrownHolds(m, r, hashes);
  }

  lemma ProbeKept(m: Map, r: Map, i: nat, h: Word)
    requires Filter(m) && Filter(r) && Grown(m, r) && KNum(r) == KNum(m) && Offset(r) == Offset(m) && i < KNum(m)
    requires HasProbe(m, i, h)
    ensures HasProbe(r, i, h)
  {
    ProbeInside(m, i, h);
  }

  // ----- what a filter remembers

  /** A bit of partition `i` is set exactly if the `i`-th hash of one of the keys selects it. */
  ghost predicate Records(h: Hasher, m: Map, keys: set<Key>) {
    && Filter(m)
    && forall i: nat, x: Word {:trigger Selected(h, keys, i, Offset(m), x)} :: i < KNum(m) ==>
         (HasProbe(m, i, x) <==> Selected(h, keys, i, Offset(m), x))
  }

  /** Some key has an `i`-th hash that selects the same bit of the partition as `x`. */
  ghost predicate Selected(h: Hasher, keys: set<Key>, i: nat, off: nat, x: Word)
    requires off >= 1
  {
    exists k :: k in keys && HashOf(h, k, i) % off == x % off
  }

  /** In every partition the key falls together with one of the keys, with or without being it. */
  ghost predicate Collides(h: Hasher, keys: set<Key>, kNum: nat, off: nat, key: Key)
    requires off >= 1
  {
    forall i: nat :: i < kNum ==> Selected(h, keys, i, off, HashOf(h, key, i))
  }

  /** A filter that records its keys finds a key exactly if it collides with them. */
  lemma FoundIffCollides(h: Hasher, m: Map, keys: set<Key>, key: Key, hashes: seq<Word>)
    requires Records(h, m, keys) && |hashes| == KNum(m) && forall i :: 0 <= i < |hashes| ==> hashes[i] == HashOf(h, key, i)
    ensures Holds(m, hashes) <==> Collides(h, keys, KNum(m), Offset(m), key)
  {
    forall i: nat | i < |hashes|
      ensures HasProbe(m, i, hashes[i]) <==> Selected(h, keys, i, Offset(m), HashOf(h, key, i))
    {
      assert hashes[i] == HashOf(h, key, i);
    }
  }

  lemma SameProbe(off: nat, i: nat, j: nat, x: Word, y: Word)
    requires off >= 1
    ensures Probe(off, i, x) == Probe(off, j, y) <==> i == j && x % off == y % off
  {
    if i < j {
      ProbesDisjoint(off, i, j, x, y);
    } else if j < i {
      ProbesDisjoint(off, j, i, y, x);
    }
  }

  /** Adding a key sets, in each partition, the one bit that its hash selects. */
  lemma ProbeAdded(m: Map, r: Map, hashes: seq<Word>, i: nat, x: Word)
    requires Filter(m) && Filter(r) && KNum(r) == KNum(m) == |hashes| && Offset(r) == Offset(m) && i < KNum(m)
    requires BitsAdded(m, r, hashes, |hashes|)
    ensures HasProbe(r, i, x) <==> HasProbe(m, i, x) || hashes[i] % Offset(m) == x % Offset(m)
  {
    var off := Offset(m);
    var b := Probe(off, i, x);
    ProbeInside(m, i, x);
    if Probed(off, hashes, |hashes|, b) {
      var j :| 0 <= j < |hashes| && b == Probe(off, j, hashes[j]);
      SameProbe(off, i, j, x, hashes[j]);
    }
    SameProbe(off, i, i, x, hashes[i]);
  }

  /** A filter records what was added to it, whether or not the key was new. */
  lemma AddRecords(h: Hasher, m: Map, r: Map, keys: set<Key>, key: Key, hashes: seq<Word>)
    requires Records(h, m, keys) && Filter(r) && KNum(r) == KNum(m) == |hashes| && Offset(r) == Offset(m)
    requires BitsAdded(m, r, hashes, |hashes|) && forall i :: 0 <= i < |hashes| ==> hashes[i] == HashOf(h, key, i)
    ensures Records(h, r, keys + {key})
  {
    forall i: nat, x: Word | i < KNum(r)
      ensures HasProbe(r, i, x) <==> Selected(h, keys + {key}, i, Offset(r), x)
    {
      ProbeAdded(m, r, hashes, i, x);
      assert HashOf(h, key, i) == hashes[i];
      OneMoreSelects(h, keys, key, i, Offset(m), x);
    }
  }

  lemma OneMoreSelects(h: Hasher, keys: set<Key>, key: Key, i: nat, off: nat, x: Word)
    requires off >= 1
    ensures Selected(h, keys + {key}, i, off, x) <==> Selected(h, keys, i, off, x) || HashOf(h, key, i) % off == x % off
  {
    if Selected(h, keys, i, off, x) {
      var k :| k in keys && HashOf(h, k, i) % off == x % off;
      assert k in keys + {key};
    }
    assert key in keys + {key};
  }

  lemma BlankRecords(h: Hasher, m: Map)
    requires Filter(m) && forall i :: HEADER <= i < |m.mem| ==> m.mem[i] == 0
    ensures Records(h, m, {})
  {
    forall i: nat, x: Word | i < KNum(m)
      ensures !HasProbe(m, i, x)
    {
      ProbeInside(m, i, x);
    }
  }

  /** The partitions take up the whole bitmap, but for fewer bits than there are partitions. */
  lemma PartitionsFill(m: Map)
    requires Filter(m)
    ensures KNum(m) * Offset(m) <= BitmapSize(m) < KNum(m) * Offset(m) + KNum(m)
  {
    ShareFills(BitmapSize(m), KNum(m));
  }

  lemma ShareFills(bits: nat, k: nat)
    requires k > 0
    ensures k * Share(bits, k) <= bits < k * Share(bits, k) + k
  {
    assert bits == k * (bits / k) + bits % k;
  }

  /** As long as no product reaches the prime, the hashes from the fifth on advance by a fixed step. */
  lemma HashesAdvance(h: Hasher, key: Key, i: nat)
    requires i >= 4 && (i + 1) * BaseHash(h, key, 3) < PRIME
    ensures HashOf(h, key, i + 1) == (HashOf(h, key, i) + BaseHash(h, key, 3)) % WORD
  {
    var b := BaseHash(h, key, 3);
    OneStepOn(i, b);
    NoWrap(BaseHash(h, key, 1), i * b, b);
  }

  lemma OneStepOn(i: nat, b: nat)
    ensures (i + 1) * b == i * b + b && i * b >= 0
  {
  }

  lemma NoWrap(a: Word, p: nat, b: nat)
    requires p + b < PRIME
    ensures (a + (p + b) % WORD % PRIME) % WORD == ((a + p % WORD % PRIME) % WORD + b) % WORD
  {
    assert p % WORD % PRIME == p && (p + b) % WORD % PRIME == p + b;
  }

  // ----- a new filter

  function Zeroes(n: nat): (r: Bytes)
    ensures |r| == n && NoBits(r)
  {
    seq(n, _ => 0)
  }

  function Blank(mode: Mode, size: nat): (m: Map)
    ensures Tracked(m) && |m.mem| == size && m.mode == mode && NoBits(m.mem)
  {
    match mode
    case Anonymous => Map(mode, Zeroes(size), [], [])
    case Shared => Map(mode, Zeroes(size), [], Zeroes(size))
    case Persistent => Map(mode, Zeroes(size), Zeroes(DirtyLen(size)), Zeroes(size))
  }

  /** A filter in a new bitmap: the header is written and flushed at once. It holds no key and counts
      none, and its header is in the file. */
  method NewFilter(mode: Mode, size: nat, kNum: nat) returns (m: Map)
    requires HEADER <= size && 4 <= kNum < 0x1_0000_0000 && kNum <= (size - HEADER) * 8
    ensures Filter(m) && KNum(m) == kNum && Count(m) == 0 && |m.mem| == size && m.mode == mode
    ensures mode != Anonymous ==> m.file == m.mem
    ensures NoKeys(m) && forall h: Hasher :: Records(h, m, {})
  {
    var m0 := Blank(mode, size);
    var m1 := WriteU32(m0, 0, MAGIC);
    var m2 := WriteU32(m1, 4, kNum);
    var m3 := WriteU64(m2, 8, 0);
    HeaderWritten(m0, m1, m2, m3, kNum);
    m := Flushed(m3);
    BlankHoldsNothing(m);
    forall h: Hasher ensures Records(h, m, {}) { BlankRecords(h, m); }
  }

  ghost predicate NoKeys(m: Map)
    requires Filter(m)
  {
    forall hashes: seq<Word> :: |hashes| == KNum(m) ==> !Holds(m, hashes)
  }

  lemma BlankHoldsNothing(m: Map)
    requires Filter(m) && forall i :: HEADER <= i < |m.mem| ==> m.mem[i] == 0
    ensures NoKeys(m)
  {
    forall hashes: seq<Word> | |hashes| == KNum(m)
      ensures !Holds(m, hashes)
    {
      ProbeInside(m, 0, hashes[0]);
      assert !HasProbe(m, 0, hashes[0]);
    }
  }

  lemma HeaderWritten(m0: Map, m1: Map, m2: Map, m3: Map, kNum: nat)
    requires |m0.mem| == |m1.mem| == |m2.mem| == |m3.mem| >= HEADER && NoBits(m0.mem) && Tracked(m3)
    requires m0.mode == m1.mode == m2.mode == m3.mode && 4 <= kNum <= (|m0.mem| - HEADER) * 8
    requires U32(m1.mem, 0) == MAGIC && U32(m2.mem, 4) == kNum && U64(m3.mem, 8) == 0
    requires forall i :: 4 <= i < |m0.mem| ==> m1.mem[i] == m0.mem[i]
    requires forall i :: 0 <= i < |m0.mem| && !(4 <= i < 8) ==> m2.mem[i] == m1.mem[i]
    requires forall i :: 0 <= i < |m0.mem| && !(8 <= i < 16) ==> m3.mem[i] == m2.mem[i]
    ensures var m := Flushed(m3);
            && Filter(m) && KNum(m) == kNum && Count(m) == 0 && |m.mem| == |m0.mem| && m.mode == m0.mode
            && (m.mode != Anonymous ==> m.file == m.mem)
            && forall i :: HEADER <= i < |m.mem| ==> m.mem[i] == 0
  {
    assert U32(m3.mem, 0) == U32(m2.mem, 0) == U32(m1.mem, 0);
    assert U32(m3.mem, 4) == U32(m2.mem, 4);
    if m3.mode != Anonymous {
      FlushSaves(m3);
    }
  }
}
