/**
 A named filter of the server: a scalable filter that is in memory or proxied, the data files of
 its directory, and the figures that are reported while it is proxied.
 */
module FilterStore {
  import opened Bitmap
  import opened BloomFilter
  import opened Scalable
  import opened FileNames

  // ----- files

  /** The directory of a filter: the filter created after `j` others has file `j`. */
  ghost predicate Stored(d: map<string, Bytes>, fs: seq<Map>) {
    && (forall n :: n in d <==> n in Names(|fs|))
    && forall j :: 0 <= j < |fs| ==> DataName(j) in d && d[DataName(j)] == fs[|fs| - 1 - j].file
  }

  /** A bitmap as it comes from its file. */
  function Load(mode: Mode, contents: Bytes): (m: Map)
    ensures Tracked(m) && m.mem == m.file == contents && m.mode == mode
  {
    Map(mode, contents, if mode == Persistent then BloomFilter.Zeroes(DirtyLen(|contents|)) else [], contents)
  }

  lemma NameInjective(i: nat, j: nat)
    requires i < 1000 && j < 1000 && DataName(i) == DataName(j)
    ensures i == j
  {
    NamesOrdered(i, j);
    NamesOrdered(j, i);
    NotLessItself(DataName(i));
  }

  /** Each filter leaves its contents in its own file. */
  method WriteFiles(fs: seq<Map>) returns (d: map<string, Bytes>)
    requires |fs| <= 1000
    ensures Stored(d, fs)
  {
    d := map[];
    var j := 0;
    while j < |fs|
      invariant 0 <= j <= |fs|
      invariant forall n :: n in d <==> n in Names(j)
      invariant forall i :: 0 <= i < j ==> DataName(i) in d && d[DataName(i)] == fs[|fs| - 1 - i].file
    {
      forall i | 0 <= i < j ensures DataName(i) != DataName(j) {
        if DataName(i) == DataName(j) {
          NameInjective(i, j);
        }
      }
      ghost var before := d;
      d := d[DataName(j) := fs[|fs| - 1 - j].file];
      assert Names(j + 1) == Names(j) + [DataName(j)];
      j := j + 1;
    }
  }

  /** Loads the files of a sorted listing, the last one first. */
  method LoadFiles(mode: Mode, d: map<string, Bytes>, listing: seq<string>) returns (fs: seq<Map>)
    requires forall n :: n in listing ==> n in d
    ensures |fs| == |listing|
    ensures forall i :: 0 <= i < |listing| ==> listing[i] in d && fs[|fs| - i - 1] == Load(mode, d[listing[i]])
  {
    fs := [];
    var i := 0;
    while i < |listing|
      invariant 0 <= i <= |listing| && |fs| == i
      invariant forall j :: 0 <= j < i ==> listing[j] in d && fs[i - j - 1] == Load(mode, d[listing[j]])
    {
      assert listing[i] in listing;
      fs := [Load(mode, d[listing[i]])] + fs;
      i := i + 1;
    }
  }

  /** Closing and faulting back restores every filter in its place, with its bits and its count. */
  lemma RoundTrip(mode: Mode, d: map<string, Bytes>, fs: seq<Map>, listing: seq<string>, fs': seq<Map>)
    requires Stored(d, fs) && |fs| <= 1000 && (forall i :: 0 <= i < |fs| ==> Saved(fs[i]) && fs[i].mode == mode)
    requires Sorted(listing) && forall n :: n in listing <==> n in d
    requires |fs'| == |listing|
    requires forall i :: 0 <= i < |listing| ==> listing[i] in d && fs'[|fs'| - i - 1] == Load(mode, d[listing[i]])
    ensures SameMem(fs, fs') && forall i :: 0 <= i < |fs'| ==> Saved(fs'[i])
  {
    ListingInOrder(listing, |fs|);
    forall i | 0 <= i < |fs|
      ensures fs'[i] == Load(mode, fs[i].mem)
    {
      LoadedAt(mode, d, fs, listing, fs', i, |fs| - 1 - i);
    }
  }

  lemma LoadedAt(mode: Mode, d: map<string, Bytes>, fs: seq<Map>, listing: seq<string>, fs': seq<Map>, i: nat, j: nat)
    requires |listing| == |fs| == |fs'| && i + j + 1 == |fs| && listing[j] == DataName(j) && listing[j] in d
    requires d[DataName(j)] == fs[|fs| - 1 - j].file && Saved(fs[i])
    requires fs'[|fs'| - j - 1] == Load(mode, d[listing[j]])
    ensures fs'[i] == Load(mode, fs[i].mem)
  {
  }

  // ----- the filter

  /** Everything is saved and the figures on record are the live ones. */
  ghost predicate UpToDate(fs: seq<Map>, cs: seq<nat>, size: nat, capacity: nat, bytes: nat) {
    && size == Total(fs) && capacity == SumOf(cs) && bytes == TotalBytes(fs)
    && forall i :: 0 <= i < |fs| ==> Saved(fs[i])
  }

  lemma NoListing(listing: seq<string>, d: map<string, Bytes>, fs: seq<Map>)
    requires Stored(d, fs) && forall n :: n in listing <==> n in d
    ensures listing == [] <==> fs == []
  {
    if fs != [] {
      assert Names(|fs|)[0] in Names(|fs|);
    }
    if listing != [] {
      assert listing[0] in Names(|fs|);
    }
  }

  lemma Restored(h: Hasher, mode: Mode, initial: nat, scale: nat, d: map<string, Bytes>, held: seq<Map>, caps: seq<nat>,
                 keys: set<Key>, parts: seq<set<Key>>, listing: seq<string>, found: seq<Map>)
    requires Stored(d, held) && |held| <= 1000 && FiltersOk(held, caps, mode, initial, scale) && KeysPresent(h, held, keys)
    requires PartsOk(h, held, parts)
    requires forall i :: 0 <= i < |held| ==> Saved(held[i])
    requires Sorted(listing) && forall n :: n in listing <==> n in d
    requires |found| == |listing|
    requires forall i :: 0 <= i < |listing| ==> listing[i] in d && found[|found| - i - 1] == Load(mode, d[listing[i]])
    ensures SameMem(held, found) && FiltersOk(found, caps, mode, initial, scale) && KeysPresent(h, found, keys)
    ensures PartsOk(h, found, parts) && Total(found) == Total(held) && TotalBytes(found) == TotalBytes(held)
    ensures forall i :: 0 <= i < |found| ==> Saved(found[i])
  {
    forall i | 0 <= i < |held| ensures held[i].mode == mode { assert FilterIn(held[i], mode); }
    RoundTrip(mode, d, held, listing, found);
    SameMemParts(h, held, found, parts);
    SameMemOk(held, found, caps, mode, initial, scale);
    SameMemKeys(h, held, found, keys);
    SameMemTotals(held, found);
  }

  lemma SameMemTwice(a: seq<Map>, b: seq<Map>, c: seq<Map>)
    requires SameMem(a, b) && SameMem(b, c)
    ensures SameMem(a, c)
  {
  }

  /** A filter without keys covers none. */
  lemma NothingCovered(h: Hasher, fs: seq<Map>, parts: seq<set<Key>>, key: Key)
    requires |fs| == 1 && parts == [{}]
    ensures !CoveredBy(h, fs, parts, key)
  {
    if Filter(fs[0]) {
      assert !Selected(h, {}, 0, Offset(fs[0]), HashOf(h, key, 0));
    }
  }

  lemma FirstPart(key: Key)
    ensures NextParts([{}], false, key) == NextParts([], false, key)
  {
    var none: set<Key> := {};
    assert none + {key} == {key};
    assert NextParts([none], false, key) == [{key}];
    assert NextParts([], false, key) == [{key}];
  }

  class Store {
    const hasher: Hasher
    const mode: Mode
    const initial: nat
    const scale: nat
    const sizing: nat -> Sizing
    var sbf: Sbf?
    var size: nat
    var capacity: nat
    var bytes: nat
    var files: map<string, Bytes>
    ghost var keys: set<Key>
    ghost var held: seq<Map>
    ghost var caps: seq<nat>
    ghost var heldParts: seq<set<Key>>

    /** In memory: if the size on record is the live one, everything is up to date. */
    ghost predicate Live(s: Sbf)
      reads this, s
    {
      && s.Valid() && s.hasher == hasher && s.mode == mode && s.initial == initial && s.scale == scale
      && s.sizing == sizing && s.keys == keys && size <= Total(s.filters)
      && (size == Total(s.filters) && bytes != 0 ==> UpToDate(s.filters, s.capacities, size, capacity, bytes))
    }

    /** Proxied: the files hold the filters, and the figures are theirs. */
    ghost predicate Proxied()
      reads this
    {
      && |held| <= 1000 && Stored(files, held)
      && (held == [] ==> keys == {} && heldParts == [] && size == capacity == bytes == 0)
      && (held != [] ==>
            && FiltersOk(held, caps, mode, initial, scale) && KeysPresent(hasher, held, keys)
            && PartsOk(hasher, held, heldParts) && UpToDate(held, caps, size, capacity, bytes))
    }

    ghost predicate Valid()
      reads this, sbf
    {
      mode != Anonymous && initial > 0 && scale > 0 && if sbf != null then Live(sbf) else Proxied()
    }

    /** How many keys the filter counts, in memory or on record. */
    ghost function Count(): nat
      reads this, sbf
    {
      if sbf != null then Total(sbf.filters) else size
    }

    /** The filters, their capacities and the keys that each took in, in memory or in the files. */
    ghost function Filters(): seq<Map>
      reads this, sbf
    {
      if sbf != null then sbf.filters else held
    }

    ghost function Caps(): seq<nat>
      reads this, sbf
    {
      if sbf != null then sbf.capacities else caps
    }

    ghost function Parts(): seq<set<Key>>
      reads this, sbf
    {
      if sbf != null then sbf.parts else heldParts
    }

    /** The keys that some filter took in cover all bits of the key. */
    ghost predicate Covers(key: Key)
      reads this, sbf
      requires Valid()
    {
      CoveredBy(hasher, Filters(), Parts(), key)
    }

    /** A bitmap for the filter after `n` others can be made. */
    predicate CanAppend(created: bool, n: nat) {
      created && Usable(sizing(n)) && Capacity(initial, scale, n) < WORD
    }

    /** The newest filter takes no more keys. */
    ghost predicate Full()
      reads this, sbf
      requires Valid() && Filters() != []
    {
      CountOf(Filters()[0]) >= Caps()[0]
    }

    constructor (hasher: Hasher, mode: Mode, initial: nat, scale: nat, sizing: nat -> Sizing)
      requires mode != Anonymous && initial > 0 && scale > 0
      ensures Valid() && sbf == null && keys == {} && Count() == 0
    {
      this.hasher, this.mode, this.initial, this.scale, this.sizing := hasher, mode, initial, scale, sizing;
      sbf, size, capacity, bytes, files := null, 0, 0, 0, map[];
      keys, held, caps, heldParts := {}, [], [], [];
    }

    /** Saves everything, unless the size on record says that nothing has changed. */
    method Flush()
      requires Valid()
      modifies this`size, this`capacity, this`bytes, sbf
      ensures Valid() && sbf == old(sbf)
      ensures sbf != null ==> UpToDate(sbf.filters, sbf.capacities, size, capacity, bytes)
      ensures sbf != null ==> SameMem(old(sbf.filters), sbf.filters) && sbf.capacities == old(sbf.capacities)
      ensures sbf != null ==> sbf.parts == old(sbf.parts)
    {
      if sbf == null {
        return;
      }
      SameMemItself(sbf.filters, mode);
      var n := sbf.Size();
      if n == size && bytes != 0 {
        return;
      }
      size := n;
      capacity := sbf.TotalCapacity();
      bytes := sbf.TotalByteSize();
      ghost var before := sbf.filters;
      sbf.Flush();
      SameMemTotals(before, sbf.filters);
    }

    /** Saves everything and drops the filter from memory. */
    method Close()
      requires Valid() && (sbf != null ==> |sbf.filters| <= 1000)
      modifies this, sbf
      ensures Valid() && sbf == null && keys == old(keys) && Count() == old(Count()) && Parts() == old(Parts())
      ensures old(sbf) != null ==> SameMem(old(sbf.filters), held) && caps == old(sbf.capacities)
      ensures old(sbf) == null ==> held == old(held) && caps == old(caps)
    {
      if sbf == null {
        return;
      }
      ghost var before := sbf.filters;
      SaveAll();
      SameMemTotals(before, sbf.filters);
      PutAway();
    }

    /** Closing the scalable filter flushes it once more. */
    method SaveAll()
      requires Valid() && sbf != null
      modifies this`size, this`capacity, this`bytes, sbf
      ensures Valid() && sbf == old(sbf) && UpToDate(sbf.filters, sbf.capacities, size, capacity, bytes)
      ensures SameMem(old(sbf.filters), sbf.filters) && sbf.capacities == old(sbf.capacities) && sbf.parts == old(sbf.parts)
    {
      ghost var before := sbf.filters;
      Flush();
      ghost var after := sbf.filters;
      sbf.Flush();
      SameMemTotals(after, sbf.filters);
      SameMemTwice(before, after, sbf.filters);
    }

    method PutAway()
      requires Valid() && sbf != null && |sbf.filters| <= 1000
      requires UpToDate(sbf.filters, sbf.capacities, size, capacity, bytes)
      modifies this`sbf, this`files, this`held, this`caps, this`heldParts
      ensures Valid() && sbf == null && held == old(sbf.filters) && caps == old(sbf.capacities) && heldParts == old(sbf.parts)
    {
      files := WriteFiles(sbf.filters);
      held, caps, heldParts := sbf.filters, sbf.capacities, sbf.parts;
      sbf := null;
    }

    /** Brings the filter back from the files of its directory, as they are listed; without files a
        new one is made, which can fail. */
    method Fault(listing: seq<string>, created: bool) returns (res: int)
      requires Valid() && sbf == null && Sorted(listing) && forall n :: n in listing <==> n in files
      modifies this`sbf
      ensures Valid() && (res == 0 <==> sbf != null) && (sbf != null ==> fresh(sbf))
      ensures res == if held != [] || CanAppend(created, 0) then 0 else -1
      ensures held != [] ==> SameMem(held, sbf.filters) && sbf.capacities == caps && sbf.parts == heldParts
      ensures held == [] && res == 0 ==> Brandnew(sbf)
      ensures Count() == old(Count())
    {
      NoListing(listing, files, held);
      if listing == [] {
        res := FaultNew(created);
      } else {
        FaultFound(listing);
        SameMemTotals(held, sbf.filters);
        res := 0;
      }
    }

    /** One filter without keys. */
    ghost predicate Brandnew(s: Sbf)
      reads this, s
    {
      |s.filters| == 1 && CountOf(s.filters[0]) == Total(s.filters) == 0 && s.parts == [{}] && s.capacities == [initial]
    }

    method FaultNew(created: bool) returns (res: int)
      requires Valid() && sbf == null && held == []
      modifies this`sbf
      ensures Valid() && (res == 0 <==> sbf != null) && (sbf != null ==> fresh(sbf) && Brandnew(sbf))
      ensures res == if CanAppend(created, 0) then 0 else -1
    {
      assert Capacity(initial, scale, 0) == initial;
      var made := new Sbf.Fresh(hasher, mode, initial, scale, sizing, created);
      if made.filters == [] {
        return -1;
      }
      sbf := made;
      return 0;
    }

    method FaultFound(listing: seq<string>)
      requires Valid() && sbf == null && held != [] && Sorted(listing) && forall n :: n in listing <==> n in files
      modifies this`sbf
      ensures Valid() && sbf != null && fresh(sbf) && SameMem(held, sbf.filters) && sbf.capacities == caps && sbf.parts == heldParts
    {
      var found := LoadFiles(mode, files, listing);
      Restored(hasher, mode, initial, scale, files, held, caps, keys, heldParts, listing, found);
      sbf := new Sbf.From(hasher, mode, initial, scale, sizing, found, caps, keys, heldParts);
    }

    /** Makes sure that the filter is in memory. */
    method Ensure(listing: seq<string>, created: bool, ghost key: Key) returns (res: int)
      requires Valid() && (sbf == null ==> Sorted(listing) && forall n :: n in listing <==> n in files)
      modifies this`sbf
      ensures Valid() && (sbf == old(sbf) || fresh(sbf)) && (res == 0 <==> sbf != null)
      ensures res == if old(Filters()) != [] || CanAppend(created, 0) then 0 else -1
      ensures res == 0 ==> (Covers(key) <==> old(Covers(key))) && Count() == old(Count())
      ensures res == 0 && old(Filters()) != [] ==>
                && |sbf.filters| == |old(Filters())| && sbf.capacities == old(Caps()) && sbf.parts == old(Parts())
                && CountOf(sbf.filters[0]) == CountOf(old(Filters())[0])
      ensures res == 0 && old(Filters()) == [] ==> Brandnew(sbf)
    {
      if sbf != null {
        return 0;
      }
      res := Fault(listing, created);
      if res == 0 {
        if held != [] {
          SameMemCovers(hasher, held, sbf.filters, heldParts, key);
        } else {
          NothingCovered(hasher, sbf.filters, sbf.parts, key);
        }
      }
    }

    /** The figures are those of the filter, whether it is in memory or proxied. */
    method Figures() returns (n: nat, c: nat, b: nat)
      requires Valid()
      ensures sbf != null ==> n == Total(sbf.filters) && c == SumOf(sbf.capacities) && b == TotalBytes(sbf.filters)
      ensures sbf == null && held != [] ==> n == Total(held) && c == SumOf(caps) && b == TotalBytes(held)
      ensures sbf == null && held == [] ==> n == c == b == 0
    {
      if sbf != null {
        n := sbf.Size();
        c := sbf.TotalCapacity();
        b := sbf.TotalByteSize();
      } else {
        n, c, b := size, capacity, bytes;
      }
    }

    /** A key once added is found ever after, through growth, flushes, closing and faulting; another key
        is found if and only if the keys that some filter took in cover all its bits. */
    method Contains(key: Key, listing: seq<string>, created: bool) returns (r: int)
      requires Valid() && (sbf == null ==> Sorted(listing) && forall n :: n in listing <==> n in files)
      modifies this`sbf
      ensures Valid() && (sbf == old(sbf) || fresh(sbf))
      ensures r == if old(Filters()) == [] && !CanAppend(created, 0) then -1 else if old(Covers(key)) then 1 else 0
      ensures key in keys ==> r == 1
      ensures Count() == old(Count())
    {
      var res := Ensure(listing, created, key);
      if res != 0 {
        return -1;
      }
      r := sbf.Contains(key);
    }

    /** Adds a key: 0 if it is covered already, -1 if it would need a filter that cannot be made,
        otherwise 1, and then the count grows by one and the newest filter has taken the key in. */
    method Add(key: Key, listing: seq<string>, created: bool) returns (r: int)
      requires Valid() && (sbf == null ==> Sorted(listing) && forall n :: n in listing <==> n in files)
      modifies this`sbf, this`keys, sbf
      ensures Valid() && -1 <= r <= 1
      ensures r == 0 <==> old(Covers(key))
      ensures r == -1 <==> if old(Filters()) == [] then !CanAppend(created, 0)
                           else !old(Covers(key)) && old(Full()) && !CanAppend(created, |old(Filters())|)
      ensures keys == if r >= 0 then old(keys) + {key} else old(keys)
      ensures r == 0 ==> Parts() == old(Parts())
      ensures r == 1 ==> Parts() == NextParts(old(Parts()), old(Filters() != [] && Full()), key)
      ensures Count() == old(Count()) + if r == 1 then 1 else 0
    {
      var res := Ensure(listing, created, key);
      if res != 0 {
        return -1;
      }
      FirstPart(key);
      r := AddLive(key, created);
    }

    method AddLive(key: Key, created: bool) returns (r: int)
      requires Valid() && sbf != null
      modifies this`keys, sbf
      ensures Valid() && sbf == old(sbf) && -1 <= r <= 1
      ensures r == 0 <==> old(Covers(key))
      ensures r == -1 <==> !old(Covers(key)) && old(Full()) && !CanAppend(created, |old(sbf.filters)|)
      ensures keys == if r >= 0 then old(keys) + {key} else old(keys)
      ensures r != 1 ==> sbf.parts == old(sbf.parts)
      ensures r == 1 ==> sbf.parts == NextParts(old(sbf.parts), old(Full()), key)
      ensures Total(sbf.filters) == Total(old(sbf.filters)) + if r == 1 then 1 else 0
    {
      r := sbf.Add(key, created);
      if r >= 0 {
        keys := keys + {key};
      }
    }
  }
}
