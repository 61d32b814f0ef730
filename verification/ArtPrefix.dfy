/** Iterating over the keys with a given prefix. */
module ArtPrefix {
  import opened Basics
  import opened ArtKids
  import opened Art
  import opened ArtIter
  import opened ArtMap

  /** How far the prefix follows the path of a node; past the end of the prefix, not at all. */
  function Followed(n: Node, prefix: Key, depth: nat): nat
    requires n.Inner? && Solid(n)
  {
    if depth <= |prefix| then PrefixMismatch(n, prefix, depth) else 0
  }

  function IterPrefix(n: Node, prefix: Key, depth: nat, junk: nat -> Byte): seq<Entry>
    requires Solid(n)
    decreases n
  {
    match n
    case Leaf(k, v) => if prefix <= k then [Entry(k, v)] else []
    case Inner(len, _, kids) =>
      if depth == |prefix| then
        if prefix <= Minimum(n).key then Entries(n) else []
      else if len != 0 && Followed(n, prefix, depth) == 0 then []
      else if len != 0 && depth + Followed(n, prefix, depth) == |prefix| then Entries(n)
      else
        match Kid(kids, ByteAt(prefix, depth + len, junk))
        case Empty => []
        case Full(kid) => IterPrefix(kid, prefix, depth + len + 1, junk)
  }

  // ----- completeness

  /** A prefix that ends within the path of a node is followed to its end. */
  lemma FollowedToEnd(n: Node, path: Key, prefix: Key)
    requires n.Inner? && Wf(n, path) && path <= prefix && prefix <= Stem(n, |path|)
    ensures Followed(n, prefix, |path|) == |prefix| - |path|
  {
    StemFacts(n, path);
    EndsWithin(Stem(n, |path|), Minimum(n).key, n.partial[..StoredLen(n)], prefix, |path|, n.partialLen);
  }

  lemma EndsWithin(stem: Key, least: Key, stored: seq<Byte>, prefix: Key, depth: nat, len: nat)
    requires depth <= |prefix| && prefix <= stem && stem <= least && |stem| == depth + len
    requires |stored| == MinOf(MAX_PREFIX_LEN, len)
    requires forall i :: 0 <= i < |stored| ==> stored[i] == stem[depth + i]
    ensures Mismatch(stored, least, prefix, depth, len) == |prefix| - depth
  {
    var idx := CommonLen(stored, prefix[depth..]);
    assert idx == MinOf(|stored|, |prefix| - depth);
    CommonEnd(least[depth + idx..], prefix[depth + idx..]);
  }

  lemma CommonEnd(a: Key, b: Key)
    requires b <= a
    ensures CommonLen(a, b) == |b|
  {
  }

  /** A prefix that goes on past the node either follows the whole path or ends exactly where the
      comparison with the smallest leaf does. */
  lemma FollowedPast(n: Node, path: Key, prefix: Key)
    requires n.Inner? && Wf(n, path) && path <= prefix && Stem(n, |path|) <= prefix
    ensures n.partialLen != 0 ==> Followed(n, prefix, |path|) > 0
  {
    StemFacts(n, path);
    GoesPast(Stem(n, |path|), Minimum(n).key, n.partial[..StoredLen(n)], prefix, |path|, n.partialLen);
  }

  lemma GoesPast(stem: Key, least: Key, stored: seq<Byte>, prefix: Key, depth: nat, len: nat)
    requires depth <= |prefix| && stem <= prefix && stem <= least && |stem| == depth + len
    requires |stored| == MinOf(MAX_PREFIX_LEN, len)
    requires forall i :: 0 <= i < |stored| ==> stored[i] == stem[depth + i]
    ensures Mismatch(stored, least, prefix, depth, len) >= |stored|
  {
    var idx := CommonLen(stored, prefix[depth..]);
    assert forall i :: 0 <= i < |stored| ==> prefix[depth..][i] == stem[depth + i];
    assert idx == |stored|;
  }

  lemma PrefixOfBoth(a: Key, b: Key, c: Key)
    requires a <= c && b <= c
    ensures if |a| <= |b| then a <= b else b <= a
  {
  }

  lemma IterUnfolds(n: Node, prefix: Key, depth: nat, junk: nat -> Byte, at: nat, kid: Node, below: nat)
    requires n.Inner? && Solid(n) && at == depth + n.partialLen < |prefix| && below == at + 1
    requires n.partialLen != 0 ==> Followed(n, prefix, depth) > 0
    requires Kid(n.kids, prefix[at]) == Full(kid) && Solid(kid)
    ensures var r := IterPrefix(n, prefix, depth, junk); r == Entries(n) || r == IterPrefix(kid, prefix, below, junk)
  {
  }

  lemma VisitsAll(n: Node, path: Key, prefix: Key, junk: nat -> Byte)
    requires n.Inner? && Wf(n, path) && path <= prefix && prefix <= Stem(n, |path|)
    ensures IterPrefix(n, prefix, |path|, junk) == Entries(n)
  {
    StemFacts(n, path);
    FollowedToEnd(n, path, prefix);
  }

  /** A key whose prefix goes on past the node lies below the child that the prefix leads to. */
  lemma Onward(n: Node, depth: nat, at: nat, below: nat, prefix: Key, key: Key)
    requires n.Inner? && Solid(n) && prefix <= key && Get(n, key, depth).Some?
    requires at == depth + n.partialLen < |prefix| && below == at + 1
    ensures var s := Kid(n.kids, prefix[at]);
            s.Full? && Get(s.node, key, below) == Get(n, key, depth)
  {
  }

  /** Prefix iteration misses no stored key with the prefix. */
  lemma {:induction false} PrefixComplete(n: Node, path: Key, prefix: Key, junk: nat -> Byte, e: Entry)
    requires Wf(n, path) && path <= prefix && prefix <= e.key && Get(n, e.key, |path|) == Some(e.value)
    ensures e in IterPrefix(n, prefix, |path|, junk)
    decreases n
  {
    EntriesExact(n, path, e);
    if n.Inner? {
      var stem := Stem(n, |path|);
      StoredIsUnder(n, path, e.key);
      PrefixOfBoth(prefix, stem, e.key);
      if |prefix| <= |stem| {
        VisitsAll(n, path, prefix, junk);
      } else {
        CompleteBelow(n, path, stem, prefix, junk, e, prefix[|stem|], stem + [prefix[|stem|]]);
      }
    }
  }

  lemma {:induction false} CompleteBelow(n: Node, path: Key, stem: Key, prefix: Key, junk: nat -> Byte, e: Entry, c: Byte,
                                         kidPath: Key)
    requires n.Inner? && Wf(n, path) && prefix <= e.key && Get(n, e.key, |path|) == Some(e.value)
    requires stem == Stem(n, |path|) && |stem| < |prefix| && stem <= prefix && path <= prefix && e in Entries(n)
    requires c == prefix[|stem|] && kidPath == stem + [c]
    ensures e in IterPrefix(n, prefix, |path|, junk)
    decreases n, 0
  {
    Onward(n, |path|, |stem|, |kidPath|, prefix, e.key);
    var kid := Kid(n.kids, c).node;
    KidWf(n, path, c, kid);
    PrefixComplete(kid, kidPath, prefix, junk, e);
    FollowedPast(n, path, prefix);
    IterUnfolds(n, prefix, |path|, junk, |stem|, kid, |kidPath|);
  }

  /** Stored entries only, none of them twice. */
  ghost predicate SoundAt(es: seq<Entry>, n: Node, depth: nat)
    requires Solid(n)
  {
    Chain(es, false) && forall e :: e in es ==> Get(n, e.key, depth) == Some(e.value)
  }

  lemma EntriesSound(n: Node, path: Key)
    requires Wf(n, path)
    ensures SoundAt(Entries(n), n, |path|)
  {
    forall e | e in Entries(n) ensures Get(n, e.key, |path|) == Some(e.value) { EntriesExact(n, path, e); }
    EntriesChain(n, path, false);
  }

  lemma SoundAbove(es: seq<Entry>, n: Node, depth: nat, stem: Key, c: Byte, kid: Node, kidPath: Key)
    requires n.Inner? && Solid(n) && |stem| == depth + n.partialLen && Kid(n.kids, c) == Full(kid)
    requires kidPath == stem + [c] && Wf(kid, kidPath) && SoundAt(es, kid, |kidPath|)
    ensures SoundAt(es, n, depth)
  {
    forall e | e in es ensures Get(n, e.key, depth) == Some(e.value) { StoredThrough(n, depth, stem, c, kid, e); }
  }

  lemma IterCases(n: Node, prefix: Key, depth: nat, junk: nat -> Byte, s: Slot, below: nat)
    requires n.Inner? && Solid(n) && s == Kid(n.kids, ByteAt(prefix, depth + n.partialLen, junk))
    requires below == depth + n.partialLen + 1
    ensures var r := IterPrefix(n, prefix, depth, junk);
            r == [] || r == Entries(n) || (s.Full? && Solid(s.node) && r == IterPrefix(s.node, prefix, below, junk))
  {
  }

  /** Prefix iteration visits only stored entries, none of them twice. */
  lemma {:induction false} PrefixSound(n: Node, path: Key, prefix: Key, junk: nat -> Byte)
    requires Wf(n, path)
    ensures SoundAt(IterPrefix(n, prefix, |path|, junk), n, |path|)
    decreases n
  {
    EntriesSound(n, path);
    if n.Inner? {
      var stem := Stem(n, |path|);
      var c := ByteAt(prefix, |stem|, junk);
      var kidPath := stem + [c];
      IterCases(n, prefix, |path|, junk, Kid(n.kids, c), |kidPath|);
      if Kid(n.kids, c).Full? {
        SoundBelow(n, path, prefix, junk, stem, c, Kid(n.kids, c).node, kidPath);
      }
    }
  }

  lemma {:induction false} SoundBelow(n: Node, path: Key, prefix: Key, junk: nat -> Byte, stem: Key, c: Byte, kid: Node,
                                      kidPath: Key)
    requires n.Inner? && Wf(n, path) && stem == Stem(n, |path|) && Kid(n.kids, c) == Full(kid) && kidPath == stem + [c]
    ensures Solid(kid) && SoundAt(IterPrefix(kid, prefix, |kidPath|, junk), n, |path|)
    decreases n, 0
  {
    KidWf(n, path, c, kid);
    PrefixSound(kid, kidPath, prefix, junk);
    SoundAbove(IterPrefix(kid, prefix, |kidPath|, junk), n, |path|, stem, c, kid, kidPath);
  }

  // ----- exactly when only keys with the prefix are visited

  /** Where the walk stops inside the path of a node because the comparison reached the end of the
      prefix, the prefix lies on that path; everywhere else it stops the leaf is checked. */
  predicate StopsClean(n: Node, prefix: Key, depth: nat, junk: nat -> Byte)
    requires Solid(n)
    decreases n
  {
    match n
    case Leaf(_, _) => true
    case Inner(len, _, kids) =>
      if depth == |prefix| || (len != 0 && Followed(n, prefix, depth) == 0) then true
      else if len != 0 && depth + Followed(n, prefix, depth) == |prefix| then
        depth + len <= |Minimum(n).key| && prefix <= Stem(n, depth)
      else
        match Kid(kids, ByteAt(prefix, depth + len, junk))
        case Empty => true
        case Full(kid) => StopsClean(kid, prefix, depth + len + 1, junk)
  }

  ghost predicate AllHave(es: seq<Entry>, prefix: Key) {
    forall e :: e in es ==> prefix <= e.key
  }

  lemma TwoBytes(k: Kids) returns (c: Byte, d: Byte)
    requires KidsOk(k) && Sized(k)
    ensures c != d && Kid(k, c).Full? && Kid(k, d).Full?
  {
    if k.N4? || k.N16? {
      c, d := k.keys[0], k.keys[1];
      KidAt(k, 0);
      KidAt(k, 1);
    } else {
      c :| c in Present(k);
      assert |Present(k) - {c}| > 0;
      d :| d in Present(k) - {c};
    }
  }

  /** Some entry below the node goes through byte `c`. */
  lemma EntryThrough(n: Node, path: Key, stem: Key, c: Byte) returns (e: Entry)
    requires n.Inner? && Wf(n, path) && stem == Stem(n, |path|) && Kid(n.kids, c).Full?
    ensures e in Entries(n) && stem + [c] <= e.key
  {
    var kid := Kid(n.kids, c).node;
    KidWf(n, path, c, kid);
    MinimumIsStored(kid, stem + [c]);
    e := Entry(Minimum(kid).key, Minimum(kid).value);
    StoredThrough(n, |path|, stem, c, kid, e);
    EntriesExact(n, path, e);
  }

  lemma TooFar(prefix: Key, stem: Key, c: Byte, d: Byte, x: Key, y: Key)
    requires prefix <= x && prefix <= y && stem + [c] <= x && stem + [d] <= y && c != d
    ensures prefix <= stem
  {
    assert (stem + [c])[|stem|] == c && (stem + [d])[|stem|] == d;
    assert x[|stem|] == c && y[|stem|] == d;
    assert stem <= x;
  }

  /** All entries below an inner node have the prefix exactly if the path of the node does. */
  lemma AllHaveIff(n: Node, path: Key, prefix: Key)
    requires n.Inner? && Wf(n, path)
    ensures AllHave(Entries(n), prefix) <==> prefix <= Stem(n, |path|)
  {
    var stem := Stem(n, |path|);
    if AllHave(Entries(n), prefix) {
      var c, d := TwoBytes(n.kids);
      var x := EntryThrough(n, path, stem, c);
      var y := EntryThrough(n, path, stem, d);
      TooFar(prefix, stem, c, d, x.key, y.key);
    }
    if prefix <= stem {
      forall e | e in Entries(n)
        ensures prefix <= e.key
      {
        EntriesExact(n, path, e);
        StoredIsUnder(n, path, e.key);
      }
    }
  }

  /** At the end of the prefix the smallest leaf decides for all. */
  lemma EndOfPrefix(n: Node, path: Key, prefix: Key)
    requires n.Inner? && Wf(n, path) && |path| == |prefix| && prefix <= Minimum(n).key
    ensures AllHave(Entries(n), prefix)
  {
    StemFacts(n, path);
    PrefixOfBoth(prefix, Stem(n, |path|), Minimum(n).key);
    AllHaveIff(n, path, prefix);
  }

  /** The walk ends at the node. */
  predicate EndsHere(n: Node, prefix: Key, depth: nat)
    requires n.Inner? && Solid(n)
  {
    depth == |prefix| || (n.partialLen != 0 && Followed(n, prefix, depth) in {0, |prefix| - depth})
  }

  lemma IterEnds(n: Node, depth: nat, prefix: Key, junk: nat -> Byte)
    requires n.Inner? && Solid(n) && depth + n.partialLen <= |Minimum(n).key| && EndsHere(n, prefix, depth)
    ensures var r := IterPrefix(n, prefix, depth, junk); var clean := StopsClean(n, prefix, depth, junk);
            || (clean && r == [])
            || (clean && r == Entries(n) && depth == |prefix| && prefix <= Minimum(n).key)
            || ((clean <==> prefix <= Stem(n, depth)) && r == Entries(n))
  {
  }

  lemma IterGoesOn(n: Node, depth: nat, prefix: Key, junk: nat -> Byte, s: Slot, below: nat)
    requires n.Inner? && Solid(n) && s == Kid(n.kids, ByteAt(prefix, depth + n.partialLen, junk))
    requires below == depth + n.partialLen + 1 && (s.Full? ==> Solid(s.node)) && !EndsHere(n, prefix, depth)
    ensures IterPrefix(n, prefix, depth, junk) == if s.Full? then IterPrefix(s.node, prefix, below, junk) else []
  {
  }

  lemma CleanGoesOn(n: Node, depth: nat, prefix: Key, junk: nat -> Byte, s: Slot, below: nat)
    requires n.Inner? && Solid(n) && s == Kid(n.kids, ByteAt(prefix, depth + n.partialLen, junk))
    requires below == depth + n.partialLen + 1 && (s.Full? ==> Solid(s.node)) && !EndsHere(n, prefix, depth)
    ensures StopsClean(n, prefix, depth, junk) == if s.Full? then StopsClean(s.node, prefix, below, junk) else true
  {
  }

  /** The walk and the condition agree at a node. */
  ghost predicate CleanIff(n: Node, prefix: Key, depth: nat, junk: nat -> Byte)
    requires Solid(n)
  {
    AllHave(IterPrefix(n, prefix, depth, junk), prefix) <==> StopsClean(n, prefix, depth, junk)
  }

  lemma IffWhereItEnds(n: Node, path: Key, prefix: Key, junk: nat -> Byte)
    requires n.Inner? && Wf(n, path) && EndsHere(n, prefix, |path|)
    ensures CleanIff(n, prefix, |path|, junk)
  {
    IterEnds(n, |path|, prefix, junk);
    AllHaveIff(n, path, prefix);
    if |path| == |prefix| && prefix <= Minimum(n).key {
      EndOfPrefix(n, path, prefix);
    }
  }

  lemma IffFurtherDown(n: Node, depth: nat, prefix: Key, junk: nat -> Byte, s: Slot, below: nat)
    requires n.Inner? && Solid(n) && s == Kid(n.kids, ByteAt(prefix, depth + n.partialLen, junk)) && !EndsHere(n, prefix, depth)
    requires below == depth + n.partialLen + 1 && (s.Full? ==> Solid(s.node) && CleanIff(s.node, prefix, below, junk))
    ensures CleanIff(n, prefix, depth, junk)
  {
    IterGoesOn(n, depth, prefix, junk, s, below);
    CleanGoesOn(n, depth, prefix, junk, s, below);
  }

  /** Exactly when: prefix iteration visits only keys with the prefix if and only if it stops clean. */
  lemma {:induction false} OnlyPrefixedIff(n: Node, path: Key, prefix: Key, junk: nat -> Byte)
    requires Wf(n, path)
    ensures AllHave(IterPrefix(n, prefix, |path|, junk), prefix) <==> StopsClean(n, prefix, |path|, junk)
    decreases n
  {
    if n.Inner? {
      if EndsHere(n, prefix, |path|) {
        IffWhereItEnds(n, path, prefix, junk);
      } else {
        var stem := Stem(n, |path|);
        var c := ByteAt(prefix, |stem|, junk);
        var kidPath := stem + [c];
        if Kid(n.kids, c).Full? {
          KidWf(n, path, c, Kid(n.kids, c).node);
          OnlyPrefixedIff(Kid(n.kids, c).node, kidPath, prefix, junk);
        }
        IffFurtherDown(n, |path|, prefix, junk, Kid(n.kids, c), |kidPath|);
      }
    }
  }

  /** For whole trees: of the stored entries, none twice, and all that have the prefix; and no others
      exactly if the walk stops clean. */
  lemma PrefixIteration(t: Tree, m: map<Key, Value>, prefix: Key, junk: nat -> Byte)
    requires Represents(t, m) && t.root.Full?
    ensures var es := IterPrefix(t.root.node, prefix, 0, junk);
            && Chain(es, false)
            && (forall e :: e in es ==> e.key in m && m[e.key] == e.value)
            && (forall k :: k in m && prefix <= k ==> Entry(k, m[k]) in es)
            && (AllHave(es, prefix) <==> StopsClean(t.root.node, prefix, 0, junk))
  {
    var es := IterPrefix(t.root.node, prefix, 0, junk);
    PrefixSound(t.root.node, [], prefix, junk);
    OnlyPrefixedIff(t.root.node, [], prefix, junk);
    forall e | e in es
      ensures e.key in m && m[e.key] == e.value
    {
      assert Lookup(t.root, e.key) == MapGet(m, e.key);
    }
    forall k | k in m && prefix <= k
      ensures Entry(k, m[k]) in es
    {
      assert Lookup(t.root, k) == MapGet(m, k);
      PrefixComplete(t.root.node, [], prefix, junk, Entry(k, m[k]));
    }
  }

  // ----- keys visited without having the prefix

  const LEFT := Leaf([1, 2, 5, 3, 4, 1], 10)
  const RIGHT := Leaf([1, 2, 5, 3, 4, 2], 11)
  const OTHER := Leaf([1, 2, 6], 12)
  const LOWER := Inner(2, [3, 4, 0, 0, 0, 0, 0, 0, 0, 0], N4([1, 2], [LEFT, RIGHT]))
  const UPPER := Inner(2, [1, 2, 0, 0, 0, 0, 0, 0, 0, 0], N4([5, 6], [LOWER, OTHER]))

  lemma TwoKids(k: Kids)
    requires k.N4? && |k.keys| == |k.nodes| == 2 && k.keys[0] != k.keys[1]
    ensures KidsOk(k) && Sized(k) && Forks(k, k.keys[0], k.nodes[0], k.keys[1], k.nodes[1])
  {
    var keys := k.keys;
    assert keys[1..][0] == keys[1];
    forall c: Byte
      ensures Kid(k, c) == if c == keys[0] then Full(k.nodes[0]) else if c == keys[1] then Full(k.nodes[1]) else Empty
    {
      KidAt(k, 0);
      KidAt(k, 1);
    }
  }

  lemma ExampleWf()
    ensures Wf(LOWER, [1, 2, 5]) && Wf(UPPER, [])
  {
    TwoKids(LOWER.kids);
    InnerWf(LOWER, [1, 2, 5], [1, 2, 5, 3, 4]);
    TwoKids(UPPER.kids);
    InnerWf(UPPER, [], [1, 2]);
  }

  /** After a partial mismatch the walk goes on, and it does not look back when it stops inside a
      later path: here a key is visited that does not have the prefix. */
  lemma ExtraKeyVisited(junk: nat -> Byte)
    ensures Wf(UPPER, []) && Entry(LEFT.key, LEFT.value) in IterPrefix(UPPER, [1, 9, 5, 3], 0, junk)
    ensures !([1, 9, 5, 3] <= LEFT.key)
  {
    ExampleWf();
    var prefix: Key := [1, 9, 5, 3];
    TwoKids(UPPER.kids);
    TwoKids(LOWER.kids);
    assert UPPER.partial[..2] == [1, 2] && prefix[0..] == prefix;
    assert CommonLen([1, 2], prefix) == 1;
    assert Followed(UPPER, prefix, 0) == 1;
    assert LOWER.partial[..2] == [3, 4] && prefix[3..] == [3];
    assert CommonLen([3, 4], [3]) == 1;
    assert Followed(LOWER, prefix, 3) == 1;
    EntriesEnds(LOWER);
    assert FirstByte(LOWER.kids) == 1;
    assert Minimum(LOWER) == LEFT;
    assert IterPrefix(LOWER, prefix, 3, junk) == Entries(LOWER);
    assert Entries(LOWER)[0] == Entry(LEFT.key, LEFT.value);
    assert prefix[1] != LEFT.key[1];
  }
}
