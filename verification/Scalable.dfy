/**
 Scalable Bloom filters: a list of filters, newest and largest first. A key is looked up in all of
 them and added to the first, in front of which a larger one is put when it is full.
 */
module Scalable {
  import opened Bitmap
  import opened BloomFilter

  // ----- sizes

  function Pow(s: nat, n: nat): nat {
    if n == 0 then 1 else s * Pow(s, n - 1)
  }

  /** The capacity of the filter that is created after `j` others. */
  function Capacity(initial: nat, scale: nat, j: nat): nat {
    initial * Pow(scale, j)
  }

  /** What the first `n` filters hold together. */
  function CapacitySum(initial: nat, scale: nat, n: nat): nat {
    if n == 0 then 0 else CapacitySum(initial, scale, n - 1) + Capacity(initial, scale, n - 1)
  }

  lemma {:induction false} SumGrows(initial: nat, scale: nat, n: nat, m: nat)
    requires n <= m
    ensures CapacitySum(initial, scale, n) <= CapacitySum(initial, scale, m)
    decreases m
  {
    if n < m {
      SumGrows(initial, scale, n, m - 1);
    }
  }

  /** The bytes and the number of hash functions that the sizing formulas give a new filter. */
  datatype Sizing = Sizing(bytes: nat, kNum: nat)

  predicate Usable(z: Sizing) {
    HEADER <= z.bytes && 4 <= z.kNum < 0x1_0000_0000 && z.kNum <= (z.bytes - HEADER) * 8
  }

  // ----- keys

  function KeyHashes(h: Hasher, key: Key, k: nat): (r: seq<Word>)
    ensures |r| == k && forall i :: 0 <= i < k ==> r[i] == HashOf(h, key, i)
  {
    seq(k, i requires 0 <= i < k => HashOf(h, key, i))
  }

  predicate HasKey(h: Hasher, m: Map, key: Key) {
    Filter(m) && Holds(m, KeyHashes(h, key, KNum(m)))
  }

  predicate Present(h: Hasher, filters: seq<Map>, key: Key) {
    exists i :: 0 <= i < |filters| && HasKey(h, filters[i], key)
  }

  function CountOf(m: Map): nat {
    if |m.mem| >= HEADER then Count(m) else 0
  }

  function Total(filters: seq<Map>): nat {
    if filters == [] then 0 else CountOf(filters[0]) + Total(filters[1..])
  }

  function TotalBytes(filters: seq<Map>): nat {
    if filters == [] then 0 else |filters[0].mem| + TotalBytes(filters[1..])
  }

  function SumOf(xs: seq<nat>): nat {
    if xs == [] then 0 else xs[0] + SumOf(xs[1..])
  }

  lemma TotalReplaced(filters: seq<Map>, m: Map)
    requires filters != []
    ensures Total(filters[0 := m]) == Total(filters) - CountOf(filters[0]) + CountOf(m)
  {
    assert filters[0 := m][1..] == filters[1..];
  }

  lemma TotalPushed(filters: seq<Map>, m: Map)
    ensures Total([m] + filters) == CountOf(m) + Total(filters)
  {
    assert ([m] + filters)[1..] == filters;
  }

  lemma PresentReplaced(h: Hasher, filters: seq<Map>, m: Map, key: Key)
    requires Present(h, filters, key) && filters != [] && Filter(filters[0]) && Tracked(m) && Grown(filters[0], m)
    ensures Present(h, filters[0 := m], key)
  {
    var i :| 0 <= i < |filters| && HasKey(h, filters[i], key);
    if i == 0 {
      GrownHolds(filters[0], m, KeyHashes(h, key, KNum(filters[0])));
      assert HasKey(h, filters[0 := m][0], key);
    } else {
      assert HasKey(h, filters[0 := m][i], key);
    }
  }

  lemma PresentPushed(h: Hasher, filters: seq<Map>, m: Map, key: Key)
    requires Present(h, filters, key)
    ensures Present(h, [m] + filters, key)
  {
    var i :| 0 <= i < |filters| && HasKey(h, filters[i], key);
    assert HasKey(h, ([m] + filters)[i + 1], key);
  }

  lemma FirstLacks(h: Hasher, filters: seq<Map>, key: Key)
    requires filters != [] && !Present(h, filters, key)
    ensures !HasKey(h, filters[0], key)
  {
  }

  // ----- one filter, by key

  method BfContains(h: Hasher, m: Map, key: Key) returns (r: bool)
    requires Filter(m)
    ensures r <==> HasKey(h, m, key)
  {
    var hashes := ComputeHashes(h, key, KNum(m));
    assert hashes == KeyHashes(h, key, KNum(m));
    r := InternalContains(m, hashes);
  }

  method BfAdd(h: Hasher, m: Map, key: Key, ghost part: set<Key>) returns (res: int, r: Map)
    requires PartOk(h, m, part)
    ensures Filter(r) && Grown(m, r) && HasKey(h, r, key)
    ensures res == if HasKey(h, m, key) then 0 else 1
    ensures CountOf(r) == if res == 0 then CountOf(m) else NextCount(CountOf(m))
    ensures res == 1 && CountOf(r) == CountOf(m) + 1 ==> PartOk(h, r, part + {key})
  {
    var hashes := ComputeHashes(h, key, KNum(m));
    assert hashes == KeyHashes(h, key, KNum(m));
    res, r := Add(m, hashes);
    AddRecords(h, m, r, part, key, hashes);
    if res == 1 && CountOf(r) == CountOf(m) + 1 {
      NotTakenIn(h, m, part, key);
      PartGrows(h, m, part, r, key);
    }
  }

  /** The filter holds the key or other keys that cover all its bits. */
  ghost predicate Covered(h: Hasher, m: Map, part: set<Key>, key: Key) {
    Filter(m) && Collides(h, part, KNum(m), Offset(m), key)
  }

  lemma HasKeyIffCovered(h: Hasher, m: Map, part: set<Key>, key: Key)
    requires Records(h, m, part)
    ensures HasKey(h, m, key) <==> Covered(h, m, part, key)
    ensures key in part ==> HasKey(h, m, key)
  {
    FoundIffCollides(h, m, part, key, KeyHashes(h, key, KNum(m)));
    if key in part {
      forall i: nat | i < KNum(m) ensures Selected(h, part, i, Offset(m), HashOf(h, key, i)) { }
    }
  }

  /** Every filter records the keys of its part and counts them. */
  ghost predicate PartsOk(h: Hasher, filters: seq<Map>, parts: seq<set<Key>>) {
    |parts| == |filters| && forall i {:trigger PartOk(h, filters[i], parts[i])} :: 0 <= i < |filters| ==> PartOk(h, filters[i], parts[i])
  }

  ghost predicate PartOk(h: Hasher, m: Map, part: set<Key>) {
    Records(h, m, part) && CountOf(m) == |part|
  }

  /** Some filter covers the key. */
  ghost predicate CoveredBy(h: Hasher, filters: seq<Map>, parts: seq<set<Key>>, key: Key)
    requires |parts| == |filters|
  {
    exists i :: 0 <= i < |filters| && Covered(h, filters[i], parts[i], key)
  }

  lemma PresentIffCovered(h: Hasher, filters: seq<Map>, parts: seq<set<Key>>, key: Key)
    requires PartsOk(h, filters, parts)
    ensures Present(h, filters, key) <==> CoveredBy(h, filters, parts, key)
  {
    forall i | 0 <= i < |filters|
      ensures HasKey(h, filters[i], key) <==> Covered(h, filters[i], parts[i], key)
    {
      assert PartOk(h, filters[i], parts[i]);
      HasKeyIffCovered(h, filters[i], parts[i], key);
    }
  }

  lemma PartsPushed(h: Hasher, filters: seq<Map>, parts: seq<set<Key>>, m: Map)
    requires PartsOk(h, filters, parts) && PartOk(h, m, {})
    ensures PartsOk(h, [m] + filters, [{}] + parts)
  {
    var fs, ps := [m] + filters, [{}] + parts;
    forall i | 0 <= i < |fs| ensures PartOk(h, fs[i], ps[i]) { assert i > 0 ==> PartOk(h, filters[i - 1], parts[i - 1]); }
  }

  lemma PartsReplaced(h: Hasher, filters: seq<Map>, parts: seq<set<Key>>, m: Map, part: set<Key>)
    requires PartsOk(h, filters, parts) && filters != [] && PartOk(h, m, part)
    ensures PartsOk(h, filters[0 := m], parts[0 := part])
  {
    var fs, ps := filters[0 := m], parts[0 := part];
    forall i | 0 <= i < |fs| ensures PartOk(h, fs[i], ps[i]) { assert i > 0 ==> PartOk(h, filters[i], parts[i]); }
  }

  lemma PartGrows(h: Hasher, m: Map, part: set<Key>, m': Map, key: Key)
    requires CountOf(m) == |part| && Records(h, m', part + {key}) && key !in part && CountOf(m') == CountOf(m) + 1
    ensures PartOk(h, m', part + {key})
  {
  }

  lemma NotTakenIn(h: Hasher, m: Map, part: set<Key>, key: Key)
    requires Records(h, m, part) && !HasKey(h, m, key)
    ensures key !in part
  {
    HasKeyIffCovered(h, m, part, key);
  }

  lemma NewHasNoKey(h: Hasher, m: Map, key: Key)
    requires Filter(m) && NoKeys(m)
    ensures !HasKey(h, m, key)
  {
  }

  // ----- what holds of the list

  /** The filters are sound, their capacities grow by the scale, and all but the newest are exactly
      full. */
  ghost predicate Base(filters: seq<Map>, capacities: seq<nat>, mode: Mode, initial: nat, scale: nat) {
    && |filters| == |capacities| > 0 && initial > 0 && scale > 0
    && AllFilters(filters, mode) && CapacitiesOk(capacities, initial, scale) && FullBelow(filters, capacities)
  }

  predicate AllFilters(filters: seq<Map>, mode: Mode) {
    forall i {:trigger FilterIn(filters[i], mode)} :: 0 <= i < |filters| ==> FilterIn(filters[i], mode)
  }

  predicate FilterIn(m: Map, mode: Mode) {
    Filter(m) && m.mode == mode
  }

  predicate CapacitiesOk(capacities: seq<nat>, initial: nat, scale: nat) {
    forall i {:trigger CapacityAt(capacities, i, initial, scale)} :: 0 <= i < |capacities| ==> CapacityAt(capacities, i, initial, scale)
  }

  predicate CapacityAt(capacities: seq<nat>, i: nat, initial: nat, scale: nat)
    requires i < |capacities|
  {
    capacities[i] == Capacity(initial, scale, |capacities| - 1 - i) < WORD
  }

  predicate FullBelow(filters: seq<Map>, capacities: seq<nat>)
    requires |filters| == |capacities|
  {
    forall i {:trigger FullAt(filters[i], capacities[i])} :: 0 < i < |filters| ==> FullAt(filters[i], capacities[i])
  }

  predicate FullAt(m: Map, capacity: nat) {
    CountOf(m) == capacity
  }

  /** The newest is within its capacity and, unless it is the only one, not empty. */
  ghost predicate FiltersOk(filters: seq<Map>, capacities: seq<nat>, mode: Mode, initial: nat, scale: nat) {
    && Base(filters, capacities, mode, initial, scale)
    && CountOf(filters[0]) <= capacities[0] && (|filters| > 1 ==> CountOf(filters[0]) > 0)
  }

  /** A filter that is not marked is saved. */
  ghost predicate MarksOk(filters: seq<Map>, dirty: seq<bool>, mode: Mode) {
    |dirty| == |filters| && (mode != Anonymous ==> forall i :: 0 <= i < |filters| && !dirty[i] ==> Saved(filters[i]))
  }

  predicate Saved(m: Map) {
    m.file == m.mem
  }

  ghost predicate KeysPresent(h: Hasher, filters: seq<Map>, keys: set<Key>) {
    forall key :: key in keys ==> Present(h, filters, key)
  }

  method SumCounts(filters: seq<Map>) returns (n: nat)
    ensures n == Total(filters)
  {
    n := 0;
    var i := 0;
    assert filters[0..] == filters;
    while i < |filters|
      invariant 0 <= i <= |filters| && n + Total(filters[i..]) == Total(filters)
    {
      assert filters[i..][1..] == filters[i + 1..];
      n := n + CountOf(filters[i]);
      i := i + 1;
    }
  }

  method SumBytes(filters: seq<Map>) returns (n: nat)
    ensures n == TotalBytes(filters)
  {
    n := 0;
    var i := 0;
    assert filters[0..] == filters;
    while i < |filters|
      invariant 0 <= i <= |filters| && n + TotalBytes(filters[i..]) == TotalBytes(filters)
    {
      assert filters[i..][1..] == filters[i + 1..];
      n := n + |filters[i].mem|;
      i := i + 1;
    }
  }

  method SumList(xs: seq<nat>) returns (n: nat)
    ensures n == SumOf(xs)
  {
    n := 0;
    var i := 0;
    assert xs[0..] == xs;
    while i < |xs|
      invariant 0 <= i <= |xs| && n + SumOf(xs[i..]) == SumOf(xs)
    {
      assert xs[i..][1..] == xs[i + 1..];
      n := n + xs[i];
      i := i + 1;
    }
  }

  lemma PushMarks(filters: seq<Map>, dirty: seq<bool>, mode: Mode, m: Map)
    requires MarksOk(filters, dirty, mode) && (mode != Anonymous ==> Saved(m))
    ensures MarksOk([m] + filters, [false] + dirty, mode)
  {
  }

  /** A filter without keys and with the next capacity stands in front. */
  ghost predicate Pushed(fs: seq<Map>, cs: seq<nat>, fs': seq<Map>, cs': seq<nat>, mode: Mode, initial: nat, scale: nat) {
    && |fs'| == |fs| + 1 && fs' == [fs'[0]] + fs && cs' == [Capacity(initial, scale, |fs|)] + cs
    && Capacity(initial, scale, |fs|) < WORD
    && Filter(fs'[0]) && fs'[0].mode == mode && CountOf(fs'[0]) == 0 && NoKeys(fs'[0])
  }

  predicate SizedBy(m: Map, z: Sizing) {
    Filter(m) && |m.mem| == z.bytes && KNum(m) == z.kNum
  }

  /** The newest has room. */
  ghost predicate Ready(filters: seq<Map>, capacities: seq<nat>, mode: Mode, initial: nat, scale: nat) {
    && Base(filters, capacities, mode, initial, scale)
    && CountOf(filters[0]) < capacities[0]
  }

  /** The key went to the newest filter, or to a new one if that was full; the others are untouched. */
  ghost predicate TookIn(fs: seq<Map>, cs: seq<nat>, ps: seq<set<Key>>, fs': seq<Map>, cs': seq<nat>, ps': seq<set<Key>>,
                         initial: nat, scale: nat, key: Key)
    requires |fs| == |cs| == |ps| > 0
  {
    && |fs'| > 0
    && if CountOf(fs[0]) >= cs[0] then
         fs'[1..] == fs && cs' == [Capacity(initial, scale, |fs|)] + cs && ps' == NextParts(ps, true, key)
       else
         fs'[1..] == fs[1..] && cs' == cs && ps' == NextParts(ps, false, key)
  }

  /** A full filter leaves the key to a new one in front of it. */
  function NextParts(parts: seq<set<Key>>, full: bool, key: Key): seq<set<Key>> {
    if full || parts == [] then [{key}] + parts else parts[0 := parts[0] + {key}]
  }

  lemma TookInFirst(fs: seq<Map>, cs: seq<nat>, ps: seq<set<Key>>, ps1: seq<set<Key>>, fs': seq<Map>, cs': seq<nat>,
                    ps': seq<set<Key>>, initial: nat, scale: nat, key: Key)
    requires |fs| == |cs| == |ps| > 0 && |fs'| > 0 && |ps1| > 0 && ps' == ps1[0 := ps1[0] + {key}]
    requires CountOf(fs[0]) >= cs[0] ==>
               fs'[1..] == fs && cs' == [Capacity(initial, scale, |fs|)] + cs && ps1 == [{}] + ps
    requires CountOf(fs[0]) < cs[0] ==> fs'[1..] == fs[1..] && cs' == cs && ps1 == ps
    ensures TookIn(fs, cs, ps, fs', cs', ps', initial, scale, key)
  {
    if CountOf(fs[0]) >= cs[0] {
      assert {} + {key} == {key};
    }
  }

  lemma {:induction false} CapacityPositive(initial: nat, scale: nat, j: nat)
    requires initial > 0 && scale > 0
    ensures Capacity(initial, scale, j) > 0
  {
    PowPositive(scale, j);
  }

  lemma {:induction false} PowPositive(scale: nat, j: nat)
    requires scale > 0
    ensures Pow(scale, j) > 0
  {
    if j > 0 {
      PowPositive(scale, j - 1);
    }
  }

  lemma AllFiltersPushed(fs: seq<Map>, mode: Mode, m: Map)
    requires AllFilters(fs, mode) && FilterIn(m, mode)
    ensures AllFilters([m] + fs, mode)
  {
    var fs' := [m] + fs;
    forall i | 0 <= i < |fs'| ensures FilterIn(fs'[i], mode) { assert i > 0 ==> FilterIn(fs[i - 1], mode); }
  }

  lemma CapacitiesPushed(cs: seq<nat>, initial: nat, scale: nat, c: nat)
    requires CapacitiesOk(cs, initial, scale) && c == Capacity(initial, scale, |cs|) < WORD
    ensures CapacitiesOk([c] + cs, initial, scale)
  {
    var cs' := [c] + cs;
    forall i | 0 <= i < |cs'| ensures CapacityAt(cs', i, initial, scale) { assert i > 0 ==> CapacityAt(cs, i - 1, initial, scale); }
  }

  lemma FullPushed(fs: seq<Map>, cs: seq<nat>, m: Map, c: nat)
    requires |fs| == |cs| > 0 && FullBelow(fs, cs) && CountOf(fs[0]) == cs[0]
    ensures FullBelow([m] + fs, [c] + cs)
  {
    var fs', cs' := [m] + fs, [c] + cs;
    forall i | 0 < i < |fs'| ensures FullAt(fs'[i], cs'[i]) { assert i > 1 ==> FullAt(fs[i - 1], cs[i - 1]); }
  }

  lemma BasePushed(fs: seq<Map>, cs: seq<nat>, mode: Mode, initial: nat, scale: nat, m: Map, c: nat)
    requires Base(fs, cs, mode, initial, scale) && CountOf(fs[0]) == cs[0]
    requires Filter(m) && m.mode == mode && c == Capacity(initial, scale, |fs|) < WORD
    ensures Base([m] + fs, [c] + cs, mode, initial, scale)
  {
    AllFiltersPushed(fs, mode, m);
    CapacitiesPushed(cs, initial, scale, c);
    FullPushed(fs, cs, m, c);
  }

  lemma PushedReady(fs: seq<Map>, cs: seq<nat>, fs': seq<Map>, cs': seq<nat>, mode: Mode, initial: nat, scale: nat,
                    h: Hasher, keys: set<Key>, key: Key)
    requires FiltersOk(fs, cs, mode, initial, scale) && CountOf(fs[0]) >= cs[0] && KeysPresent(h, fs, keys)
    requires Pushed(fs, cs, fs', cs', mode, initial, scale)
    ensures Ready(fs', cs', mode, initial, scale) && KeysPresent(h, fs', keys) && !HasKey(h, fs'[0], key)
    ensures Total(fs') == Total(fs)
  {
    CapacityPositive(initial, scale, |fs|);
    BasePushed(fs, cs, mode, initial, scale, fs'[0], cs'[0]);
    TotalPushed(fs, fs'[0]);
    NewHasNoKey(h, fs'[0], key);
    forall k | k in keys ensures Present(h, fs', k) { PresentPushed(h, fs, fs'[0], k); }
  }

  lemma BaseReplaced(fs: seq<Map>, cs: seq<nat>, mode: Mode, initial: nat, scale: nat, m: Map)
    requires Base(fs, cs, mode, initial, scale) && Filter(m) && m.mode == mode
    ensures Base(fs[0 := m], cs, mode, initial, scale)
  {
    var fs' := fs[0 := m];
    forall i | 0 <= i < |fs'| ensures FilterIn(fs'[i], mode) { assert i > 0 ==> FilterIn(fs[i], mode); }
    forall i | 0 < i < |fs'| ensures FullAt(fs'[i], cs[i]) { assert FullAt(fs[i], cs[i]); }
  }

  lemma AddedOk(fs: seq<Map>, cs: seq<nat>, mode: Mode, initial: nat, scale: nat, m: Map)
    requires Ready(fs, cs, mode, initial, scale) && Filter(m) && m.mode == mode && CountOf(m) == NextCount(CountOf(fs[0]))
    ensures FiltersOk(fs[0 := m], cs, mode, initial, scale) && CountOf(m) == CountOf(fs[0]) + 1
  {
    BaseReplaced(fs, cs, mode, initial, scale, m);
    assert CapacityAt(cs, 0, initial, scale);
  }

  lemma AddedMarks(fs: seq<Map>, dirty: seq<bool>, mode: Mode, m: Map)
    requires fs != [] && MarksOk(fs, dirty, mode)
    ensures MarksOk(fs[0 := m], dirty[0 := true], mode)
  {
  }

  lemma AddedKeys(h: Hasher, fs: seq<Map>, keys: set<Key>, m: Map, key: Key)
    requires fs != [] && Filter(fs[0]) && KeysPresent(h, fs, keys) && Tracked(m) && Grown(fs[0], m) && HasKey(h, m, key)
    ensures KeysPresent(h, fs[0 := m], keys + {key})
  {
    forall k | k in keys + {key}
      ensures Present(h, fs[0 := m], k)
    {
      if k == key {
        assert HasKey(h, fs[0 := m][0], key);
      } else {
        PresentReplaced(h, fs, m, k);
      }
    }
  }

  lemma AddedAll(fs: seq<Map>, cs: seq<nat>, dirty: seq<bool>, mode: Mode, initial: nat, scale: nat,
                 h: Hasher, keys: set<Key>, m: Map, key: Key)
    requires Ready(fs, cs, mode, initial, scale) && MarksOk(fs, dirty, mode) && KeysPresent(h, fs, keys)
    requires Filter(m) && Grown(fs[0], m) && HasKey(h, m, key) && CountOf(m) == NextCount(CountOf(fs[0]))
    ensures FiltersOk(fs[0 := m], cs, mode, initial, scale) && MarksOk(fs[0 := m], dirty[0 := true], mode)
    ensures KeysPresent(h, fs[0 := m], keys + {key}) && Total(fs[0 := m]) == Total(fs) + 1 && CountOf(m) == CountOf(fs[0]) + 1
  {
    assert FilterIn(fs[0], mode);
    AddedOk(fs, cs, mode, initial, scale, m);
    AddedKeys(h, fs, keys, m, key);
    AddedMarks(fs, dirty, mode, m);
    TotalReplaced(fs, m);
  }

  // ----- flushing and loading

  /** The same contents in memory; files and page marks may differ. */
  ghost predicate SameMem(fs: seq<Map>, fs': seq<Map>) {
    |fs| == |fs'| && forall i :: 0 <= i < |fs| ==> fs'[i].mem == fs[i].mem && fs'[i].mode == fs[i].mode && Tracked(fs'[i])
  }

  lemma SameMemItself(fs: seq<Map>, mode: Mode)
    requires AllFilters(fs, mode)
    ensures SameMem(fs, fs)
  {
    forall i | 0 <= i < |fs| ensures Tracked(fs[i]) { assert FilterIn(fs[i], mode); }
  }

  lemma SameMemFilter(m: Map, m': Map)
    requires Filter(m) && m'.mem == m.mem && Tracked(m')
    ensures Filter(m') && CountOf(m') == CountOf(m) && KNum(m') == KNum(m) && Offset(m') == Offset(m)
  {
  }

  lemma SameMemHas(h: Hasher, m: Map, m': Map, key: Key)
    requires m'.mem == m.mem && m'.mode == m.mode && Tracked(m') && HasKey(h, m, key)
    ensures HasKey(h, m', key)
  {
    SameMemFilter(m, m');
    GrownHolds(m, m', KeyHashes(h, key, KNum(m)));
  }

  lemma SameMemRecords(h: Hasher, m: Map, m': Map, part: set<Key>)
    requires m'.mem == m.mem && Tracked(m') && Records(h, m, part)
    ensures Records(h, m', part)
  {
    SameMemFilter(m, m');
    forall i: nat, x: Word | i < KNum(m') ensures HasProbe(m', i, x) <==> Selected(h, part, i, Offset(m'), x) {
      assert HasProbe(m', i, x) <==> HasProbe(m, i, x);
    }
  }

  lemma SameMemParts(h: Hasher, fs: seq<Map>, fs': seq<Map>, parts: seq<set<Key>>)
    requires SameMem(fs, fs') && PartsOk(h, fs, parts)
    ensures PartsOk(h, fs', parts)
  {
    forall i | 0 <= i < |fs'|
      ensures PartOk(h, fs'[i], parts[i])
    {
      assert PartOk(h, fs[i], parts[i]);
      SameMemRecords(h, fs[i], fs'[i], parts[i]);
    }
  }

  lemma SameMemCovers(h: Hasher, fs: seq<Map>, fs': seq<Map>, parts: seq<set<Key>>, key: Key)
    requires SameMem(fs, fs') && PartsOk(h, fs, parts)
    ensures CoveredBy(h, fs', parts, key) <==> CoveredBy(h, fs, parts, key)
  {
    forall i | 0 <= i < |fs|
      ensures Covered(h, fs'[i], parts[i], key) <==> Covered(h, fs[i], parts[i], key)
    {
      assert PartOk(h, fs[i], parts[i]);
      SameMemCovered(h, fs[i], fs'[i], parts[i], key);
    }
  }

  lemma SameMemCovered(h: Hasher, m: Map, m': Map, part: set<Key>, key: Key)
    requires Filter(m) && m'.mem == m.mem && Tracked(m')
    ensures Covered(h, m', part, key) <==> Covered(h, m, part, key)
  {
    SameMemFilter(m, m');
    var k, off := KNum(m), Offset(m);
    assert Covered(h, m', part, key) == Collides(h, part, k, off, key);
    assert Covered(h, m, part, key) == Collides(h, part, k, off, key);
  }

  lemma SameMemPresent(h: Hasher, fs: seq<Map>, fs': seq<Map>, key: Key)
    requires SameMem(fs, fs') && Present(h, fs, key)
    ensures Present(h, fs', key)
  {
    var i :| 0 <= i < |fs| && HasKey(h, fs[i], key);
    SameMemHas(h, fs[i], fs'[i], key);
  }

  lemma {:induction false} SameMemTotals(fs: seq<Map>, fs': seq<Map>)
    requires SameMem(fs, fs')
    ensures Total(fs') == Total(fs) && TotalBytes(fs') == TotalBytes(fs)
    decreases |fs|
  {
    if fs != [] {
      SameMemTotals(fs[1..], fs'[1..]);
    }
  }

  lemma SameMemOk(fs: seq<Map>, fs': seq<Map>, cs: seq<nat>, mode: Mode, initial: nat, scale: nat)
    requires SameMem(fs, fs') && FiltersOk(fs, cs, mode, initial, scale)
    ensures FiltersOk(fs', cs, mode, initial, scale)
  {
    forall i | 0 <= i < |fs'|
      ensures FilterIn(fs'[i], mode) && CountOf(fs'[i]) == CountOf(fs[i])
    {
      assert FilterIn(fs[i], mode);
      SameMemFilter(fs[i], fs'[i]);
    }
    forall i | 0 < i < |fs'| ensures FullAt(fs'[i], cs[i]) { assert FullAt(fs[i], cs[i]); }
  }

  lemma SameMemKeys(h: Hasher, fs: seq<Map>, fs': seq<Map>, keys: set<Key>)
    requires SameMem(fs, fs') && KeysPresent(h, fs, keys)
    ensures KeysPresent(h, fs', keys)
  {
    forall k | k in keys ensures Present(h, fs', k) { SameMemPresent(h, fs, fs', k); }
  }

  method FlushOne(m: Map) returns (r: Map)
    requires Tracked(m)
    ensures r.mem == m.mem && r.mode == m.mode && Tracked(r) && (m.mode != Anonymous ==> Saved(r))
  {
    if m.mode != Anonymous {
      FlushSaves(m);
    }
    r := Flushed(m);
  }

  lemma FlushedOne(fs: seq<Map>, fs': seq<Map>, dirty: seq<bool>, mode: Mode, i: nat, m: Map)
    requires SameMem(fs, fs') && MarksOk(fs', dirty, mode) && i < |fs| && fs'[i].mode == mode
    requires m.mem == fs'[i].mem && m.mode == mode && Tracked(m) && (mode != Anonymous ==> Saved(m))
    ensures SameMem(fs, fs'[i := m]) && MarksOk(fs'[i := m], dirty[i := false], mode)
  {
  }

  /** Flushes the marked filters, one after the other. */
  method FlushMarked(fs: seq<Map>, dirty: seq<bool>, mode: Mode) returns (fs': seq<Map>, dirty': seq<bool>)
    requires MarksOk(fs, dirty, mode) && AllFilters(fs, mode)
    ensures SameMem(fs, fs') && MarksOk(fs', dirty', mode) && forall i :: 0 <= i < |dirty'| ==> !dirty'[i]
  {
    fs', dirty' := fs, dirty;
    var i := 0;
    SameMemItself(fs, mode);
    while i < |fs|
      invariant 0 <= i <= |fs| && SameMem(fs, fs') && MarksOk(fs', dirty', mode)
      invariant forall j :: 0 <= j < i ==> !dirty'[j]
    {
      assert FilterIn(fs[i], mode);
      if dirty'[i] {
        var m := FlushOne(fs'[i]);
        FlushedOne(fs, fs', dirty', mode, i, m);
        fs', dirty' := fs'[i := m], dirty'[i := false];
      }
      i := i + 1;
    }
  }

  /** Capacities by position, as they are worked out for filters found on disk. */
  method InitCapacities(n: nat, initial: nat, scale: nat) returns (cs: seq<nat>)
    ensures |cs| == n && forall i :: 0 <= i < n ==> cs[i] == Capacity(initial, scale, n - 1 - i)
  {
    cs := [];
    var i := 0;
    while i < n
      invariant 0 <= i <= n && |cs| == i
      invariant forall j :: 0 <= j < i ==> cs[j] == Capacity(initial, scale, n - 1 - j)
    {
      cs := cs + [Capacity(initial, scale, n - i - 1)];
      i := i + 1;
    }
  }

  lemma PresentUpTo(h: Hasher, filters: seq<Map>, i: nat, key: Key)
    requires i < |filters|
    ensures Present(h, filters[..i + 1], key) <==> Present(h, filters[..i], key) || HasKey(h, filters[i], key)
  {
    var fs, fs' := filters[..i], filters[..i + 1];
    if j :| 0 <= j < |fs| && HasKey(h, fs[j], key) {
      assert HasKey(h, fs'[j], key);
    }
    if HasKey(h, filters[i], key) {
      assert HasKey(h, fs'[i], key);
    }
    if j :| 0 <= j < |fs'| && HasKey(h, fs'[j], key) {
      assert j < i ==> HasKey(h, fs[j], key);
    }
  }

  lemma PresentPart(h: Hasher, filters: seq<Map>, i: nat, key: Key)
    requires i <= |filters| && Present(h, filters[..i], key)
    ensures Present(h, filters, key)
  {
    var j :| 0 <= j < i && HasKey(h, filters[..i][j], key);
    assert HasKey(h, filters[j], key);
  }

  /** Looks into one filter after the other. */
  method AnyHas(h: Hasher, filters: seq<Map>, mode: Mode, key: Key) returns (r: bool)
    requires AllFilters(filters, mode)
    ensures r <==> Present(h, filters, key)
  {
    var i := 0;
    while i < |filters|
      invariant 0 <= i <= |filters| && !Present(h, filters[..i], key)
    {
      assert FilterIn(filters[i], mode);
      var has := BfContains(h, filters[i], key);
      PresentUpTo(h, filters, i, key);
      if has {
        PresentPart(h, filters, i + 1, key);
        return true;
      }
      i := i + 1;
    }
    assert filters[..i] == filters;
    return false;
  }

  /** Adds an absent key to the newest filter, which has room, and marks it. */
  method AddNewest(h: Hasher, fs: seq<Map>, ghost cs: seq<nat>, dirty: seq<bool>, mode: Mode, ghost initial: nat, ghost scale: nat,
                   ghost keys: set<Key>, ghost parts: seq<set<Key>>, key: Key)
    returns (fs': seq<Map>, dirty': seq<bool>, ghost parts': seq<set<Key>>)
    requires Ready(fs, cs, mode, initial, scale) && MarksOk(fs, dirty, mode) && PartsOk(h, fs, parts)
    requires KeysPresent(h, fs, keys) && !HasKey(h, fs[0], key)
    ensures FiltersOk(fs', cs, mode, initial, scale) && MarksOk(fs', dirty', mode)
    ensures KeysPresent(h, fs', keys + {key}) && PartsOk(h, fs', parts')
    ensures |fs'| == |fs| && fs'[1..] == fs[1..] && parts' == parts[0 := parts[0] + {key}] && Total(fs') == Total(fs) + 1
  {
    assert PartOk(h, fs[0], parts[0]);
    var res, m := BfAdd(h, fs[0], key, parts[0]);
    AddedAll(fs, cs, dirty, mode, initial, scale, h, keys, m, key);
    PartsReplaced(h, fs, parts, m, parts[0] + {key});
    fs', dirty', parts' := fs[0 := m], dirty[0 := true], parts[0 := parts[0] + {key}];
  }

  class Sbf {
    const hasher: Hasher
    const mode: Mode
    const initial: nat
    const scale: nat
    const sizing: nat -> Sizing
    var filters: seq<Map>
    var dirty: seq<bool>
    var capacities: seq<nat>
    ghost var keys: set<Key>
    ghost var parts: seq<set<Key>>

    /** `keys` are those that were ever added, `parts` those that each filter took in. */
    ghost predicate Valid()
      reads this
    {
      && FiltersOk(filters, capacities, mode, initial, scale)
      && MarksOk(filters, dirty, mode)
      && KeysPresent(hasher, filters, keys)
      && PartsOk(hasher, filters, parts)
    }

    /** A bitmap for the filter after `n` others can be made. */
    predicate CanAppend(created: bool, n: nat) {
      created && Usable(sizing(n)) && Capacity(initial, scale, n) < WORD
    }

    /** A new list with one filter; it stays empty if the bitmap cannot be made. */
    constructor Fresh(hasher: Hasher, mode: Mode, initial: nat, scale: nat, sizing: nat -> Sizing, created: bool)
      requires initial > 0 && scale > 0
      ensures this.hasher == hasher && this.mode == mode && this.initial == initial && this.scale == scale
      ensures this.sizing == sizing && keys == {}
      ensures if created && Usable(sizing(0)) && initial < WORD
              then Valid() && |filters| == 1 && Total(filters) == 0 && parts == [{}] && capacities == [initial]
              else filters == []
    {
      this.hasher, this.mode, this.initial, this.scale, this.sizing := hasher, mode, initial, scale, sizing;
      filters, dirty, capacities, keys, parts := [], [], [], {}, [];
      new;
      var res := AppendFilter(created);
      assert Capacity(initial, scale, 0) == initial;
      if res == 0 {
        assert FilterIn(filters[0], mode) && CapacityAt(capacities, 0, initial, scale);
        TotalPushed([], filters[0]);
      }
    }

    /** A list of filters found on disk. */
    constructor From(hasher: Hasher, mode: Mode, initial: nat, scale: nat, sizing: nat -> Sizing, found: seq<Map>,
                     ghost caps: seq<nat>, ghost known: set<Key>, ghost parts: seq<set<Key>>)
      requires FiltersOk(found, caps, mode, initial, scale) && KeysPresent(hasher, found, known) && PartsOk(hasher, found, parts)
      requires forall i :: 0 <= i < |found| ==> Saved(found[i])
      ensures Valid() && filters == found && capacities == caps && keys == known && this.parts == parts
      ensures this.hasher == hasher && this.mode == mode && this.initial == initial && this.scale == scale
      ensures this.sizing == sizing
    {
      this.hasher, this.mode, this.initial, this.scale, this.sizing := hasher, mode, initial, scale, sizing;
      filters, dirty, keys, this.parts := found, seq(|found|, _ => false), known, parts;
      var cs := InitCapacities(|found|, initial, scale);
      forall i | 0 <= i < |cs| ensures cs[i] == caps[i] { assert CapacityAt(caps, i, initial, scale); }
      assert cs == caps;
      capacities := cs;
    }

    /** Flushes the filters that are marked; afterwards every filter is saved. */
    method Flush()
      requires Valid()
      modifies this`filters, this`dirty
      ensures Valid() && SameMem(old(filters), filters)
      ensures mode != Anonymous ==> forall i :: 0 <= i < |filters| ==> Saved(filters[i])
    {
      ghost var before := filters;
      filters, dirty := FlushMarked(filters, dirty, mode);
      SameMemOk(before, filters, capacities, mode, initial, scale);
      SameMemKeys(hasher, before, filters, keys);
      SameMemParts(hasher, before, filters, parts);
    }

    /** 1 if some filter holds the key, from the largest to the smallest: if and only if the keys that
        some filter took in cover all its bits. */
    method Contains(key: Key) returns (r: int)
      requires Valid()
      ensures r == if Present(hasher, filters, key) then 1 else 0
      ensures r == 1 <==> CoveredBy(hasher, filters, parts, key)
      ensures key in keys ==> r == 1
    {
      PresentIffCovered(hasher, filters, parts, key);
      var has := AnyHas(hasher, filters, mode, key);
      return if has then 1 else 0;
    }

    method Size() returns (n: nat)
      requires Valid()
      ensures n == Total(filters)
    {
      n := SumCounts(filters);
    }

    method TotalCapacity() returns (n: nat)
      requires Valid()
      ensures n == SumOf(capacities)
    {
      n := SumList(capacities);
    }

    method TotalByteSize() returns (n: nat)
      requires Valid()
      ensures n == TotalBytes(filters)
    {
      n := SumBytes(filters);
    }

    /** Puts a larger filter in front; fails if the bitmap cannot be made. */
    method AppendFilter(created: bool) returns (res: int)
      requires MarksOk(filters, dirty, mode) && PartsOk(hasher, filters, parts)
      modifies this`filters, this`dirty, this`capacities, this`parts
      ensures res == if CanAppend(created, |old(filters)|) then 0 else -1
      ensures res != 0 ==> filters == old(filters) && dirty == old(dirty) && capacities == old(capacities) && parts == old(parts)
      ensures res == 0 ==> Pushed(old(filters), old(capacities), filters, capacities, mode, initial, scale)
      ensures res == 0 ==> SizedBy(filters[0], sizing(|old(filters)|))
      ensures res == 0 ==> MarksOk(filters, dirty, mode) && PartsOk(hasher, filters, parts) && parts == [{}] + old(parts)
    {
      var z, capacity := sizing(|filters|), Capacity(initial, scale, |filters|);
      if !created || !Usable(z) || capacity >= WORD {
        return -1;
      }
      var m := NewFilter(mode, z.bytes, z.kNum);
      PushMarks(filters, dirty, mode, m);
      PartsPushed(hasher, filters, parts, m);
      filters, parts := [m] + filters, [{}] + parts;
      dirty := [false] + dirty;
      capacities := [capacity] + capacities;
      return 0;
    }

    /** Adds a key: 0 if it seems present already, -1 if the newest filter is full and no larger one
        can be made, otherwise 1. The key goes to the newest filter, or to a new one in front of it if
        it is full. */
    method Add(key: Key, created: bool) returns (res: int)
      requires Valid()
      modifies this
      ensures Valid() && -1 <= res <= 1
      ensures res == 0 <==> Present(hasher, old(filters), key)
      ensures res == 0 <==> CoveredBy(hasher, old(filters), old(parts), key)
      ensures res == -1 <==> !Present(hasher, old(filters), key) && CountOf(old(filters)[0]) >= old(capacities)[0] &&
                             !CanAppend(created, |old(filters)|)
      ensures res != 1 ==> filters == old(filters) && capacities == old(capacities) && dirty == old(dirty) && parts == old(parts)
      ensures keys == if res >= 0 then old(keys) + {key} else old(keys)
      ensures res == 1 ==> TookIn(old(filters), old(capacities), old(parts), filters, capacities, parts, initial, scale, key)
      ensures Total(filters) == Total(old(filters)) + if res == 1 then 1 else 0
    {
      var has := Contains(key);
      if has == 1 {
        keys := keys + {key};
        return 0;
      }
      FirstLacks(hasher, filters, key);
      res := AddAbsent(key, created);
    }

    method AddAbsent(key: Key, created: bool) returns (res: int)
      requires Valid() && !HasKey(hasher, filters[0], key)
      modifies this
      ensures Valid() && res == if CountOf(old(filters)[0]) < old(capacities)[0] || CanAppend(created, |old(filters)|) then 1 else -1
      ensures res != 1 ==> filters == old(filters) && capacities == old(capacities) && dirty == old(dirty) && parts == old(parts)
      ensures keys == if res >= 0 then old(keys) + {key} else old(keys)
      ensures res == 1 ==> TookIn(old(filters), old(capacities), old(parts), filters, capacities, parts, initial, scale, key)
      ensures Total(filters) == Total(old(filters)) + if res == 1 then 1 else 0
    {
      ghost var fs, cs, ps := filters, capacities, parts;
      if CountOf(filters[0]) >= capacities[0] {
        res := MakeRoom(key, created);
        if res != 0 {
          return -1;
        }
      }
      ghost var ps1 := parts;
      res := AddToFirst(key);
      TookInFirst(fs, cs, ps, ps1, filters, capacities, parts, initial, scale, key);
    }

    /** Puts a larger filter in front of the full one. */
    method MakeRoom(key: Key, created: bool) returns (res: int)
      requires Valid() && CountOf(filters[0]) >= capacities[0]
      modifies this`filters, this`dirty, this`capacities, this`parts
      ensures res == if CanAppend(created, |old(filters)|) then 0 else -1
      ensures res != 0 ==> filters == old(filters) && dirty == old(dirty) && capacities == old(capacities) && parts == old(parts)
      ensures res == 0 ==> Ready(filters, capacities, mode, initial, scale) && !HasKey(hasher, filters[0], key)
      ensures res == 0 ==> MarksOk(filters, dirty, mode) && PartsOk(hasher, filters, parts) && KeysPresent(hasher, filters, keys)
      ensures res == 0 ==> filters[1..] == old(filters) && Total(filters) == Total(old(filters)) && parts == [{}] + old(parts)
      ensures res == 0 ==> capacities == [Capacity(initial, scale, |old(filters)|)] + old(capacities)
    {
      ghost var fs, cs := filters, capacities;
      res := AppendFilter(created);
      if res == 0 {
        PushedReady(fs, cs, filters, capacities, mode, initial, scale, hasher, keys, key);
      }
    }

    method AddToFirst(key: Key) returns (res: int)
      requires Ready(filters, capacities, mode, initial, scale) && MarksOk(filters, dirty, mode) && PartsOk(hasher, filters, parts)
      requires KeysPresent(hasher, filters, keys) && !HasKey(hasher, filters[0], key)
      modifies this`filters, this`dirty, this`keys, this`parts
      ensures Valid() && res == 1 && keys == old(keys) + {key}
      ensures |filters| == |old(filters)| && filters[1..] == old(filters)[1..]
      ensures parts == old(parts)[0 := old(parts)[0] + {key}]
      ensures Total(filters) == Total(old(filters)) + 1
    {
      filters, dirty, parts := AddNewest(hasher, filters, capacities, dirty, mode, initial, scale, keys, parts, key);
      keys := keys + {key};
      return 1;
    }
  }
}
