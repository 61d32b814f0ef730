/**
 The adaptive radix tree. Inner nodes compress the path shared by everything below them; they
 know its length but store only its first ten bytes. Searching and deleting skip the rest and
 rely on the full comparison at the leaf; inserting looks the rest up in the smallest leaf.
 */
module Art {
  import opened Basics
  import opened ArtKids

  datatype Option<+T> = None | Some(value: T)

  // ----- small helpers

  predicate Agree(a: seq<Byte>, b: seq<Byte>, n: nat)
    requires n <= |a| && n <= |b|
  {
    forall i :: 0 <= i < n ==> a[i] == b[i]
  }

  /** The length of the longest common prefix. */
  function CommonLen(a: seq<Byte>, b: seq<Byte>): (n: nat)
    ensures n <= |a| && n <= |b| && Agree(a, b, n)
    ensures n < |a| && n < |b| ==> a[n] != b[n]
  {
    CommonFrom(a, b, 0)
  }

  function CommonFrom(a: seq<Byte>, b: seq<Byte>, i: nat): (n: nat)
    requires i <= |a| && i <= |b|
    ensures i <= n <= |a| && n <= |b|
    ensures forall j :: i <= j < n ==> a[j] == b[j]
    ensures n < |a| && n < |b| ==> a[n] != b[n]
    decreases |a| - i
  {
    if i == |a| || i == |b| || a[i] != b[i] then i else CommonFrom(a, b, i + 1)
  }

  /** `memcpy` into the start of a buffer. */
  function Overwrite(dst: seq<Byte>, src: seq<Byte>): (r: seq<Byte>)
    requires |src| <= |dst|
    ensures |r| == |dst| && r[..|src|] == src
  {
    src + dst[|src|..]
  }

  /** How many bytes of the compressed path a node stores. */
  function StoredLen(n: Node): (r: nat)
    requires n.Inner?
    ensures r <= 10
  {
    MinOf(MAX_PREFIX_LEN, n.partialLen)
  }

  // ----- well-formed trees

  /** Every node is in a legal layout and every inner node has at least two children. */
  predicate Solid(n: Node) {
    n.Inner? ==>
      && |n.partial| == MAX_PREFIX_LEN
      && KidsOk(n.kids) && Sized(n.kids)
      && forall c: Byte :: Kid(n.kids, c).Full? ==> Solid(Kid(n.kids, c).node)
  }

  /** The byte from `c` on that has the first child. */
  function Least(k: Kids, c: nat): (b: Byte)
    requires Shaped(k) && c <= 256 && exists d: Byte :: c <= d && Kid(k, d).Full?
    ensures c <= b && Kid(k, b).Full?
    ensures forall d: Byte :: c <= d < b ==> Kid(k, d).Empty?
    decreases k, 256 - c
  {
    if Kid(k, c).Full? then c else Least(k, c + 1)
  }

  lemma SomeKid(k: Kids)
    requires KidsOk(k) && Sized(k)
    ensures exists d: Byte :: Kid(k, d).Full?
  {
    if k.N4? || k.N16? {
      KidAt(k, 0);
    } else {
      assert Present(k) != {};
      var d :| d in Present(k);
    }
  }

  /** The byte of the first child: the first stored key, or the least byte with a child. */
  function FirstByte(k: Kids): (b: Byte)
    requires KidsOk(k) && Sized(k)
    ensures Kid(k, b).Full?
  {
    if k.N4? || k.N16? then
      KidAt(k, 0);
      k.keys[0]
    else
      SomeKid(k);
      Least(k, 0)
  }

  /** The leftmost leaf. */
  function Minimum(n: Node): (l: Node)
    requires Solid(n)
    ensures l.Leaf?
  {
    if n.Leaf? then n else Minimum(Kid(n.kids, FirstByte(n.kids)).node)
  }

  /** The path of the node, from the root through its own compressed part. */
  function Stem(n: Node, depth: nat): (s: Key)
    requires n.Inner? && Solid(n) && depth + n.partialLen <= |Minimum(n).key|
    ensures |s| == depth + n.partialLen
  {
    Minimum(n).key[..depth + n.partialLen]
  }

  /** Everything below `n` lies under `path`, and the stored bytes are those of the real path. */
  predicate Under(n: Node, path: Key)
    requires Solid(n)
  {
    match n
    case Leaf(key, _) => path <= key
    case Inner(partialLen, partial, kids) =>
      && |path| + partialLen <= |Minimum(n).key|
      && path <= Stem(n, |path|)
      && partial[..StoredLen(n)] == Stem(n, |path|)[|path|..|path| + StoredLen(n)]
      && forall c: Byte :: Kid(kids, c).Full? ==> Under(Kid(kids, c).node, Stem(n, |path|) + [c])
  }

  predicate Wf(n: Node, path: Key) {
    Solid(n) && Under(n, path)
  }

  // ----- what a tree holds

  /** The value stored for `key`: one path can lead to it, and the leaf there must hold `key`. */
  function Get(n: Node, key: Key, depth: nat): (r: Option<Value>)
    requires Solid(n)
  {
    match n
    case Leaf(k, v) => if k == key then Some(v) else None
    case Inner(partialLen, _, kids) =>
      if depth + partialLen < |key| && Kid(kids, key[depth + partialLen]).Full? then
        Get(Kid(kids, key[depth + partialLen]).node, key, depth + partialLen + 1)
      else None
  }

  lemma GetThrough(n: Node, depth: nat, at: nat, key: Key, c: Byte, kid: Node, below: nat)
    requires n.Inner? && Solid(n) && at == depth + n.partialLen && below == at + 1 && Kid(n.kids, c) == Full(kid)
    requires Solid(kid) && at < |key| && key[at] == c
    ensures Get(n, key, depth) == Get(kid, key, below)
  {
  }

  lemma {:induction false} StoredIsUnder(n: Node, path: Key, key: Key)
    requires Wf(n, path) && Get(n, key, |path|).Some?
    ensures path <= key
    ensures n.Inner? ==> Stem(n, |path|) <= key && |Stem(n, |path|)| < |key|
    decreases n
  {
    if n.Inner? {
      var c := key[|path| + n.partialLen];
      StoredIsUnder(Kid(n.kids, c).node, Stem(n, |path|) + [c], key);
    }
  }

  lemma {:induction false} MinimumIsStored(n: Node, path: Key)
    requires Wf(n, path)
    ensures path <= Minimum(n).key
    ensures Get(n, Minimum(n).key, |path|) == Some(Minimum(n).value)
    decreases n
  {
    if n.Inner? {
      var c := FirstByte(n.kids);
      MinimumIsStored(Kid(n.kids, c).node, Stem(n, |path|) + [c]);
    }
  }

  /** An inner node is determined by a path that all its children extend. */
  lemma InnerWf(n: Node, path: Key, stem: Key)
    requires n.Inner? && |n.partial| == MAX_PREFIX_LEN && KidsOk(n.kids) && Sized(n.kids)
    requires path <= stem && |stem| == |path| + n.partialLen
    requires n.partial[..StoredLen(n)] == stem[|path|..|path| + StoredLen(n)]
    requires forall c: Byte :: Kid(n.kids, c).Full? ==> Wf(Kid(n.kids, c).node, stem + [c])
    ensures Wf(n, path) && Stem(n, |path|) == stem
  {
    var c := FirstByte(n.kids);
    MinimumIsStored(Kid(n.kids, c).node, stem + [c]);
    assert stem + [c] <= Minimum(n).key;
    assert Stem(n, |path|) == stem;
  }

  // ----- searching

  /** `key[depth]`; past the end of the key whatever byte happens to be there. */
  function ByteAt(key: Key, depth: nat, junk: nat -> Byte): Byte {
    if depth < |key| then key[depth] else junk(depth)
  }

  /** How many of the stored path bytes agree with the key. */
  function CheckPrefix(n: Node, key: Key, depth: nat): (r: nat)
    requires n.Inner? && Solid(n)
  {
    if depth <= |key| then CommonLen(n.partial[..StoredLen(n)], key[depth..]) else 0
  }

  /** The test that searching and deleting make before they skip the compressed path. */
  predicate PrefixAccepted(n: Node, key: Key, depth: nat)
    requires n.Inner? && Solid(n)
  {
    n.partialLen == 0 || CheckPrefix(n, key, depth) == StoredLen(n)
  }

  function Search(n: Node, key: Key, depth: nat, junk: nat -> Byte): (r: Option<Value>)
    requires Solid(n)
    decreases n
  {
    match n
    case Leaf(k, v) => if k == key then Some(v) else None
    case Inner(partialLen, _, kids) =>
      if !PrefixAccepted(n, key, depth) then None
      else
        var c := ByteAt(key, depth + partialLen, junk);
        match Kid(kids, c)
        case Empty => None
        case Full(kid) => Search(kid, key, depth + partialLen + 1, junk)
  }

  /** A key shorter than the path is not found below it, whatever is read past its end. */
  lemma {:induction false} TooShortNotFound(n: Node, path: Key, key: Key, junk: nat -> Byte)
    requires Wf(n, path) && |key| < |path|
    ensures Search(n, key, |path|, junk) == None
    decreases n
  {
    if n.Inner? {
      var stem := Stem(n, |path|);
      var s := Kid(n.kids, ByteAt(key, |stem|, junk));
      if s.Full? {
        KidWf(n, path, ByteAt(key, |stem|, junk), s.node);
        TooShortNotFound(s.node, stem + [ByteAt(key, |stem|, junk)], key, junk);
      }
      SearchUnfolds(n, key, |path|, junk, |stem| + 1);
    }
  }

  lemma KidWf(n: Node, path: Key, c: Byte, kid: Node)
    requires n.Inner? && Wf(n, path) && Kid(n.kids, c) == Full(kid)
    ensures Wf(kid, Stem(n, |path|) + [c])
  {
  }

  lemma SearchUnfolds(n: Node, key: Key, depth: nat, junk: nat -> Byte, below: nat)
    requires n.Inner? && Solid(n) && below == depth + n.partialLen + 1
    ensures var s := Kid(n.kids, ByteAt(key, depth + n.partialLen, junk));
            Search(n, key, depth, junk) ==
              if PrefixAccepted(n, key, depth) && s.Full? then Search(s.node, key, below, junk) else None
  {
  }

  lemma SameAnswer(n: Node, key: Key, depth: nat, junk: nat -> Byte, at: nat, below: nat, s: Slot)
    requires n.Inner? && Solid(n) && at == depth + n.partialLen && below == at + 1
    requires s == Kid(n.kids, ByteAt(key, at, junk)) && (s.Full? ==> Solid(s.node))
    requires Get(n, key, depth).Some? ==> PrefixAccepted(n, key, depth)
    requires s.Full? ==> Search(s.node, key, below, junk) == if at < |key| then Get(s.node, key, below) else None
    ensures Search(n, key, depth, junk) == Get(n, key, depth)
  {
    SearchUnfolds(n, key, depth, junk, below);
  }

  lemma StoredAccepted(n: Node, path: Key, key: Key)
    requires n.Inner? && Wf(n, path) && Get(n, key, |path|).Some?
    ensures PrefixAccepted(n, key, |path|)
  {
    StoredIsUnder(n, path, key);
    AcceptedOnPath(n, path, key);
  }

  /** Skipping path bytes on the way down never changes the answer, and neither does a byte read
      past the end of the key. */
  lemma {:induction false} SearchIsGet(n: Node, path: Key, key: Key, junk: nat -> Byte)
    requires Wf(n, path)
    ensures Search(n, key, |path|, junk) == Get(n, key, |path|)
    decreases n
  {
    if n.Inner? {
      var stem := Stem(n, |path|);
      var c := ByteAt(key, |stem|, junk);
      var kidPath := stem + [c];
      if Get(n, key, |path|).Some? {
        StoredAccepted(n, path, key);
      }
      if Kid(n.kids, c).Full? {
        SearchBelow(n, path, key, junk, stem, c, Kid(n.kids, c).node, kidPath);
      }
      SameAnswer(n, key, |path|, junk, |stem|, |kidPath|, Kid(n.kids, c));
    }
  }

  lemma {:induction false} SearchBelow(n: Node, path: Key, key: Key, junk: nat -> Byte, stem: Key, c: Byte, kid: Node,
                                       kidPath: Key)
    requires n.Inner? && Wf(n, path) && stem == Stem(n, |path|) && Kid(n.kids, c) == Full(kid) && kidPath == stem + [c]
    ensures Solid(kid)
    ensures Search(kid, key, |kidPath|, junk) == if |stem| < |key| then Get(kid, key, |kidPath|) else None
    decreases n, 0
  {
    KidWf(n, path, c, kid);
    if |stem| < |key| {
      SearchIsGet(kid, kidPath, key, junk);
    } else {
      TooShortNotFound(kid, kidPath, key, junk);
    }
  }

  lemma AcceptedOnPath(n: Node, path: Key, key: Key)
    requires n.Inner? && Wf(n, path) && Stem(n, |path|) <= key
    ensures PrefixAccepted(n, key, |path|)
  {
    var stem := Stem(n, |path|);
    var stored := n.partial[..StoredLen(n)];
    assert key[|path|..][..|stored|] == stem[|path|..|path| + |stored|] == stored;
  }

  // ----- inserting

  const ZEROES: seq<Byte> := [0, 0, 0, 0, 0, 0, 0, 0, 0, 0]

  /** The first `len` bytes of a path, as far as a node stores them. */
  function Stored(bytes: seq<Byte>, len: nat): (r: seq<Byte>)
    requires MinOf(MAX_PREFIX_LEN, len) <= |bytes|
    ensures |r| == MinOf(MAX_PREFIX_LEN, len)
  {
    bytes[..MinOf(MAX_PREFIX_LEN, len)]
  }

  /** Compares the key with the stored path bytes first, and where these run out before the path
      does, with the smallest leaf, possibly past the end of the path. */
  function Mismatch(stored: seq<Byte>, least: Key, key: Key, depth: nat, len: nat): (r: nat)
    requires depth <= |key|
  {
    var idx := CommonLen(stored, key[depth..]);
    if idx < MinOf(|stored|, |key| - depth) then idx
    else if len > MAX_PREFIX_LEN && depth + idx <= |least| then
      idx + CommonLen(least[depth + idx..], key[depth + idx..])
    else idx
  }

  /** Where the key leaves the compressed path of the node. */
  function PrefixMismatch(n: Node, key: Key, depth: nat): (r: nat)
    requires n.Inner? && Solid(n) && depth <= |key|
  {
    Mismatch(n.partial[..StoredLen(n)], Minimum(n).key, key, depth, n.partialLen)
  }

  /** No other key stored below `n` is a prefix of `key` or has it as a prefix. */
  ghost predicate Separate(n: Node, key: Key, depth: nat)
    requires Solid(n)
  {
    forall k: Key :: Get(n, k, depth).Some? && k != key ==> !(k <= key) && !(key <= k)
  }

  /** Two keys agree up to `d` and differ there. */
  predicate DivergeAt(a: Key, b: Key, d: nat) {
    d < |a| && d < |b| && Agree(a, b, d) && a[d] != b[d]
  }

  lemma DivergeThere(a: Key, b: Key, i: nat)
    requires i <= |a| && i <= |b| && Agree(a, b, i) && !(a <= b) && !(b <= a)
    ensures DivergeAt(a, b, i + CommonLen(a[i..], b[i..]))
  {
    var n := CommonLen(a[i..], b[i..]);
    forall j | 0 <= j < i + n
      ensures a[j] == b[j]
    {
      if i <= j {
        assert a[i..][j - i] == b[i..][j - i];
      }
    }
  }

  lemma MismatchStored(stem: Key, stored: seq<Byte>, key: Key, rest: Key, depth: nat, idx: nat)
    requires depth + |stored| <= |stem| && depth <= |key| && Agree(stem, key, depth) && rest == key[depth..]
    requires forall i :: 0 <= i < |stored| ==> stored[i] == stem[depth + i]
    requires idx <= |stored| && idx <= |rest| && Agree(stored, rest, idx)
    ensures Agree(stem, key, depth + idx)
  {
    forall j | 0 <= j < depth + idx
      ensures stem[j] == key[j]
    {
      if depth <= j {
        assert stored[j - depth] == rest[j - depth];
      }
    }
  }

  lemma StemFacts(n: Node, path: Key)
    requires n.Inner? && Wf(n, path)
    ensures var stem, m := Stem(n, |path|), Minimum(n).key;
            && |stem| < |m| && stem <= m && path <= stem
            && Get(n, m, |path|).Some?
            && forall i :: 0 <= i < StoredLen(n) ==> n.partial[i] == stem[|path| + i]
  {
    var stem, m := Stem(n, |path|), Minimum(n).key;
    MinimumIsStored(n, path);
    StoredIsUnder(n, path, m);
    var stored := n.partial[..StoredLen(n)];
    assert forall i :: 0 <= i < StoredLen(n) ==> stored[i] == stem[|path|..|path| + StoredLen(n)][i];
  }

  /** The mismatch is the point where the key leaves the node's path; if it never leaves it the
      result says so, however far the comparison went. */
  lemma MismatchExact(n: Node, key: Key, depth: nat)
    requires n.Inner? && depth <= |key| && Wf(n, key[..depth]) && Separate(n, key, depth)
    ensures var d := PrefixMismatch(n, key, depth);
            if Stem(n, depth) <= key then d >= n.partialLen && |Stem(n, depth)| < |key|
            else d < n.partialLen && DivergeAt(Stem(n, depth), key, depth + d)
  {
    StemFacts(n, key[..depth]);
    MismatchCases(Stem(n, depth), Minimum(n).key, n.partial[..StoredLen(n)], key, depth, n.partialLen);
  }

  lemma MismatchCases(stem: Key, least: Key, stored: seq<Byte>, key: Key, depth: nat, len: nat)
    requires depth + len == |stem| < |least| && stem <= least && depth <= |key| && key[..depth] <= stem
    requires |stored| == MinOf(MAX_PREFIX_LEN, len)
    requires forall i :: 0 <= i < |stored| ==> stored[i] == stem[depth + i]
    requires least == key || (!(least <= key) && !(key <= least))
    ensures var d := Mismatch(stored, least, key, depth, len);
            if stem <= key then d >= len && |stem| < |key|
            else d < len && DivergeAt(stem, key, depth + d)
  {
    var idx := CommonLen(stored, key[depth..]);
    assert Agree(stem, key, depth) by {
      assert forall i :: 0 <= i < depth ==> key[..depth][i] == stem[i];
    }
    MismatchStored(stem, stored, key, key[depth..], depth, idx);
    if idx < MinOf(|stored|, |key| - depth) {
      assert stored[idx] != key[depth..][idx];
    } else if least != key {
      DivergeThere(least, key, depth + idx);
    }
  }

  /** A new Node4 given two children. */
  function ForkOf(c1: Byte, n1: Node, c2: Byte, n2: Node): Kids {
    AddSorted(N4([c1], [n1]), c2, n2)
  }

  function Fork(partialLen: nat, path: seq<Byte>, c1: Byte, n1: Node, c2: Byte, n2: Node): Node
    requires MinOf(MAX_PREFIX_LEN, partialLen) <= |path|
  {
    Inner(partialLen, Overwrite(ZEROES, Stored(path, partialLen)), ForkOf(c1, n1, c2, n2))
  }

  lemma ForkKids(c1: Byte, n1: Node, c2: Byte, n2: Node)
    requires c1 != c2
    ensures ForkOf(c1, n1, c2, n2) == AddChild4(AddChild4(N4([], []), c1, n1), c2, n2)
    ensures KidsOk(ForkOf(c1, n1, c2, n2)) && Sized(ForkOf(c1, n1, c2, n2)) && Forks(ForkOf(c1, n1, c2, n2), c1, n1, c2, n2)
  {
    var k1 := N4([c1], [n1]);
    assert k1 == AddChild4(N4([], []), c1, n1);
    KidAt(k1, 0);
    ListAddOk([c1], [n1], c2, n2, Position4([c1], c2));
  }

  lemma ForkStored(from: nat, stem: Key, tail: seq<Byte>, kids: Kids)
    requires from <= |stem| && MinOf(MAX_PREFIX_LEN, |stem| - from) <= |tail|
    requires forall i :: 0 <= i < MinOf(MAX_PREFIX_LEN, |stem| - from) ==> tail[i] == stem[from + i]
    ensures var f := Inner(|stem| - from, Overwrite(ZEROES, Stored(tail, |stem| - from)), kids);
            |f.partial| == MAX_PREFIX_LEN && f.partial[..StoredLen(f)] == stem[from..from + StoredLen(f)]
  {
    var s := Stored(tail, |stem| - from);
    assert Overwrite(ZEROES, s)[..|s|] == s;
    assert s == stem[from..from + |s|];
  }

  /** A fork of two well-formed subtrees whose paths share `stem` and differ in the next byte. */
  lemma ForkWf(path: Key, stem: Key, len: nat, tail: seq<Byte>, c1: Byte, n1: Node, c2: Byte, n2: Node)
    requires path <= stem && c1 != c2 && len == |stem| - |path| && MinOf(MAX_PREFIX_LEN, len) <= |tail|
    requires forall i :: 0 <= i < MinOf(MAX_PREFIX_LEN, len) ==> tail[i] == stem[|path| + i]
    requires Wf(n1, stem + [c1]) && Wf(n2, stem + [c2])
    ensures var f := Fork(len, tail, c1, n1, c2, n2);
            Wf(f, path) && Stem(f, |path|) == stem && Forks(f.kids, c1, n1, c2, n2)
  {
    ForkKids(c1, n1, c2, n2);
    ForkStored(|path|, stem, tail, ForkOf(c1, n1, c2, n2));
    InnerWf(Fork(len, tail, c1, n1, c2, n2), path, stem);
  }

  lemma StoredByte(n: Node, stem: Key, c: Byte, key: Key)
    requires Wf(n, stem + [c])
    ensures Get(n, key, |stem| + 1).Some? ==> |stem| < |key| && key[|stem|] == c
  {
    if Get(n, key, |stem| + 1).Some? {
      StoredIsUnder(n, stem + [c], key);
      assert (stem + [c])[|stem|] == c;
    }
  }

  predicate Forks(k: Kids, c1: Byte, n1: Node, c2: Byte, n2: Node)
    requires Shaped(k)
  {
    forall c: Byte :: Kid(k, c) == if c == c1 then Full(n1) else if c == c2 then Full(n2) else Empty
  }

  /** What a fork holds: what the two subtrees hold, and nothing else. */
  lemma ForkGet(f: Node, d: nat, depth: nat, c1: Byte, n1: Node, c2: Byte, n2: Node, key: Key)
    requires f.Inner? && Solid(f) && Solid(n1) && Solid(n2) && c1 != c2 && Forks(f.kids, c1, n1, c2, n2)
    requires d == depth + f.partialLen
    requires Get(n1, key, d + 1).Some? ==> d < |key| && key[d] == c1
    requires Get(n2, key, d + 1).Some? ==> d < |key| && key[d] == c2
    ensures Get(f, key, depth) == if Get(n1, key, d + 1).Some? then Get(n1, key, d + 1) else Get(n2, key, d + 1)
  {
  }

  datatype Inserted = Inserted(node: Node, replaced: Option<Value>)

  /** A leaf that does not hold the key becomes a fork of the old leaf and a new one. */
  function SplitLeaf(l: Node, key: Key, value: Value, depth: nat): Node
    requires l.Leaf? && depth <= |key| && depth <= |l.key|
    requires depth + CommonLen(l.key[depth..], key[depth..]) < MinOf(|l.key|, |key|)
  {
    var longest := CommonLen(l.key[depth..], key[depth..]);
    Fork(longest, key[depth..], l.key[depth + longest], l, key[depth + longest], Leaf(key, value))
  }

  /** The tree behind `r` holds `value` for `key` and otherwise what `n` holds. */
  ghost predicate Updated(n: Node, r: Node, depth: nat, key: Key, value: Value)
    requires Solid(n) && Solid(r)
  {
    forall k: Key :: Get(r, k, depth) == if k == key then Some(value) else Get(n, k, depth)
  }

  /** Two nodes at two depths hold the same. */
  ghost predicate SameContent(n: Node, depth: nat, n': Node, depth': nat)
    requires Solid(n) && Solid(n')
  {
    forall k: Key :: Get(n, k, depth) == Get(n', k, depth')
  }

  lemma ForkUpdates(n: Node, f: Node, depth: nat, stem: Key, c1: Byte, n1: Node, key: Key, value: Value)
    requires Solid(n) && f.Inner? && Solid(f) && |stem| == depth + f.partialLen < |key|
    requires Wf(n1, stem + [c1]) && key[|stem|] != c1
    requires Forks(f.kids, c1, n1, key[|stem|], Leaf(key, value))
    requires SameContent(n, depth, n1, |stem| + 1)
    ensures Updated(n, f, depth, key, value)
  {
    forall k: Key
      ensures Get(f, k, depth) == if k == key then Some(value) else Get(n1, k, |stem| + 1)
    {
      StoredByte(n1, stem, c1, k);
      ForkGet(f, |stem|, depth, c1, n1, key[|stem|], Leaf(key, value), k);
    }
  }

  lemma LeafDiverges(l: Node, key: Key, depth: nat)
    requires l.Leaf? && depth <= |key| && Wf(l, key[..depth]) && Separate(l, key, depth) && l.key != key
    ensures depth <= |l.key| && DivergeAt(l.key, key, depth + CommonLen(l.key[depth..], key[depth..]))
  {
    assert Get(l, l.key, depth).Some?;
    assert Agree(l.key, key, depth) by { assert forall i :: 0 <= i < depth ==> key[..depth][i] == l.key[i]; }
    DivergeThere(l.key, key, depth);
  }

  lemma LeafParts(l: Node, key: Key, value: Value, at: nat)
    requires l.Leaf? && DivergeAt(l.key, key, at)
    ensures Wf(l, key[..at] + [l.key[at]]) && Wf(Leaf(key, value), key[..at] + [key[at]])
  {
  }

  lemma LeafUpdates(l: Node, f: Node, key: Key, value: Value, depth: nat, at: nat)
    requires l.Leaf? && f.Inner? && Solid(f) && DivergeAt(l.key, key, at) && at == depth + f.partialLen
    requires Forks(f.kids, l.key[at], l, key[at], Leaf(key, value))
    ensures Updated(l, f, depth, key, value)
  {
    LeafParts(l, key, value, at);
    assert SameContent(l, depth, l, at + 1);
    ForkUpdates(l, f, depth, key[..at], l.key[at], l, key, value);
  }

  lemma SplitLeafOk(l: Node, key: Key, value: Value, depth: nat)
    requires l.Leaf? && depth <= |key| && Wf(l, key[..depth]) && Separate(l, key, depth) && l.key != key
    ensures depth <= |l.key| && depth + CommonLen(l.key[depth..], key[depth..]) < MinOf(|l.key|, |key|)
    ensures Wf(SplitLeaf(l, key, value, depth), key[..depth])
    ensures Updated(l, SplitLeaf(l, key, value, depth), depth, key, value)
  {
    LeafDiverges(l, key, depth);
    var at := depth + CommonLen(l.key[depth..], key[depth..]);
    LeafParts(l, key, value, at);
    ForkWf(key[..depth], key[..at], at - depth, key[depth..], l.key[at], l, key[at], Leaf(key, value));
    LeafUpdates(l, SplitLeaf(l, key, value, depth), key, value, depth, at);
  }

  /** The node with the first `diff + 1` bytes of its path cut off; where not all of the path is
      stored, the bytes come from the smallest leaf. */
  function Shortened(n: Node, depth: nat, diff: nat): Node
    requires n.Inner? && Solid(n) && diff < n.partialLen && depth + n.partialLen <= |Minimum(n).key|
  {
    var len := n.partialLen - (diff + 1);
    var bytes := if n.partialLen <= MAX_PREFIX_LEN then n.partial[diff + 1..] else Minimum(n).key[depth + diff + 1..];
    Inner(len, Overwrite(n.partial, Stored(bytes, len)), n.kids)
  }

  /** The byte at which the path of the node is cut. */
  function CutByte(n: Node, depth: nat, diff: nat): Byte
    requires n.Inner? && Solid(n) && diff < n.partialLen && depth + n.partialLen <= |Minimum(n).key|
  {
    if n.partialLen <= MAX_PREFIX_LEN then n.partial[diff] else Minimum(n).key[depth + diff]
  }

  lemma CutByteOk(n: Node, path: Key, diff: nat)
    requires n.Inner? && Wf(n, path) && diff < n.partialLen
    ensures CutByte(n, |path|, diff) == Stem(n, |path|)[|path| + diff]
  {
    StemFacts(n, path);
  }

  lemma ShortenedWf(n: Node, path: Key, diff: nat)
    requires n.Inner? && Wf(n, path) && diff < n.partialLen
    ensures Wf(Shortened(n, |path|, diff), Stem(n, |path|)[..|path| + diff + 1])
  {
    StemFacts(n, path);
    ShortenedStored(n, path, Stem(n, |path|), diff);
    InnerWf(Shortened(n, |path|, diff), Stem(n, |path|)[..|path| + diff + 1], Stem(n, |path|));
  }

  lemma ShortenedStored(n: Node, path: Key, stem: Key, diff: nat)
    requires n.Inner? && Solid(n) && diff < n.partialLen && |path| + n.partialLen <= |Minimum(n).key|
    requires |stem| == |path| + n.partialLen && stem <= Minimum(n).key
    requires forall i :: 0 <= i < StoredLen(n) ==> n.partial[i] == stem[|path| + i]
    ensures var n' := Shortened(n, |path|, diff); var from := |path| + diff + 1;
            |n'.partial| == MAX_PREFIX_LEN && n'.partial[..StoredLen(n')] == stem[from..from + StoredLen(n')]
  {
    var n' := Shortened(n, |path|, diff);
    var from := |path| + diff + 1;
    var bytes := if n.partialLen <= MAX_PREFIX_LEN then n.partial[diff + 1..] else Minimum(n).key[from..];
    assert n'.partial[..StoredLen(n')] == Stored(bytes, n'.partialLen);
    forall i | 0 <= i < StoredLen(n')
      ensures bytes[i] == stem[from + i]
    {
    }
  }

  /** A path that the key leaves becomes a fork of the shortened node and a new leaf. */
  function SplitInner(n: Node, key: Key, value: Value, depth: nat, diff: nat): Node
    requires n.Inner? && Solid(n) && diff < n.partialLen && depth + n.partialLen <= |Minimum(n).key|
    requires depth + diff < |key|
  {
    Fork(diff, n.partial, CutByte(n, depth, diff), Shortened(n, depth, diff), key[depth + diff], Leaf(key, value))
  }

  lemma ShortenedHolds(n: Node, depth: nat, diff: nat)
    requires n.Inner? && Solid(n) && diff < n.partialLen && depth + n.partialLen <= |Minimum(n).key|
    requires Solid(Shortened(n, depth, diff))
    ensures SameContent(n, depth, Shortened(n, depth, diff), depth + diff + 1)
  {
  }

  lemma SplitPaths(stem: Key, key: Key, value: Value, at: nat)
    requires DivergeAt(stem, key, at)
    ensures stem[..at + 1] == key[..at] + [stem[at]]
    ensures Wf(Leaf(key, value), key[..at] + [key[at]])
  {
  }

  lemma SplitBytes(stem: Key, key: Key, partial: seq<Byte>, depth: nat, diff: nat)
    requires DivergeAt(stem, key, depth + diff) && |partial| == MAX_PREFIX_LEN
    requires forall i :: 0 <= i < MinOf(MAX_PREFIX_LEN, diff) ==> partial[i] == stem[depth + i]
    ensures key[..depth] <= key[..depth + diff]
    ensures forall i :: 0 <= i < MinOf(MAX_PREFIX_LEN, diff) ==> partial[i] == key[..depth + diff][depth + i]
  {
  }

  lemma ForkShortened(stem: Key, n': Node, partial: seq<Byte>, key: Key, value: Value, depth: nat, diff: nat)
    requires DivergeAt(stem, key, depth + diff) && |partial| == MAX_PREFIX_LEN
    requires forall i :: 0 <= i < MinOf(MAX_PREFIX_LEN, diff) ==> partial[i] == stem[depth + i]
    requires Wf(n', stem[..depth + diff + 1])
    ensures var f := Fork(diff, partial, stem[depth + diff], n', key[depth + diff], Leaf(key, value));
            Wf(f, key[..depth]) && Forks(f.kids, stem[depth + diff], n', key[depth + diff], Leaf(key, value))
  {
    var at := depth + diff;
    SplitPaths(stem, key, value, at);
    SplitBytes(stem, key, partial, depth, diff);
    ForkWf(key[..depth], key[..at], diff, partial, stem[at], n', key[at], Leaf(key, value));
  }

  /** What splitting needs to know of the node. */
  predicate Splits(n: Node, depth: nat, diff: nat, stem: Key)
    requires n.Inner? && Solid(n) && diff < n.partialLen && depth + n.partialLen <= |Minimum(n).key|
  {
    && |stem| == depth + n.partialLen
    && CutByte(n, depth, diff) == stem[depth + diff]
    && (forall i :: 0 <= i < MinOf(MAX_PREFIX_LEN, diff) ==> n.partial[i] == stem[depth + i])
    && Wf(Shortened(n, depth, diff), stem[..depth + diff + 1])
  }

  lemma NodeSplits(n: Node, path: Key, diff: nat)
    requires n.Inner? && Wf(n, path) && diff < n.partialLen
    ensures Splits(n, |path|, diff, Stem(n, |path|))
  {
    StemFacts(n, path);
    CutByteOk(n, path, diff);
    ShortenedWf(n, path, diff);
  }

  lemma SplitInnerOk(n: Node, key: Key, value: Value, depth: nat, diff: nat, stem: Key)
    requires n.Inner? && Solid(n) && diff < n.partialLen && depth + n.partialLen <= |Minimum(n).key|
    requires DivergeAt(stem, key, depth + diff) && Splits(n, depth, diff, stem)
    ensures Wf(SplitInner(n, key, value, depth, diff), key[..depth])
    ensures Updated(n, SplitInner(n, key, value, depth, diff), depth, key, value)
  {
    var n' := Shortened(n, depth, diff);
    ForkShortened(stem, n', n.partial, key, value, depth, diff);
    ShortenedHolds(n, depth, diff);
    SplitPaths(stem, key, value, depth + diff);
    ForkUpdates(n, SplitInner(n, key, value, depth, diff), depth, key[..depth + diff], stem[depth + diff], n', key, value);
  }

  lemma KidSeparate(n: Node, key: Key, depth: nat, at: nat, c: Byte, kid: Node, below: nat)
    requires n.Inner? && Solid(n) && Separate(n, key, depth) && at == depth + n.partialLen && below == at + 1
    requires Kid(n.kids, c) == Full(kid) && Solid(kid)
    requires forall k: Key :: Get(kid, k, below).Some? ==> at < |k| && k[at] == c
    ensures Separate(kid, key, below)
  {
    forall k: Key | Get(kid, k, below).Some? && k != key
      ensures !(k <= key) && !(key <= k)
    {
      assert Get(n, k, depth).Some?;
    }
  }

  /** On the path of the key, the child for its next byte is well-formed and separate again. */
  lemma KidReady(n: Node, key: Key, depth: nat, at: nat, kid: Node, below: nat)
    requires n.Inner? && depth <= |key| && Wf(n, key[..depth]) && Separate(n, key, depth)
    requires Stem(n, depth) <= key && at == depth + n.partialLen < |key| && below == at + 1
    requires Kid(n.kids, key[at]) == Full(kid)
    ensures Wf(kid, key[..below]) && Separate(kid, key, below)
  {
    var stem := Stem(n, depth);
    assert stem + [key[at]] == key[..below];
    forall k: Key
      ensures Get(kid, k, below).Some? ==> at < |k| && k[at] == key[at]
    {
      StoredByte(kid, stem, key[at], k);
    }
    KidSeparate(n, key, depth, at, key[at], kid, below);
  }

  function Insert(n: Node, key: Key, value: Value, depth: nat): Inserted
    requires depth <= |key| && Wf(n, key[..depth]) && Separate(n, key, depth)
    decreases n, 1
  {
    match n
    case Leaf(k, v) =>
      if k == key then Inserted(Leaf(k, value), Some(v))
      else
        SplitLeafOk(n, key, value, depth);
        Inserted(SplitLeaf(n, key, value, depth), None)
    case Inner(len, _, kids) =>
      MismatchExact(n, key, depth);
      var diff := PrefixMismatch(n, key, depth);
      if len != 0 && diff < len then
        Inserted(SplitInner(n, key, value, depth, diff), None)
      else InsertBelow(n, key, value, depth)
  }

  /** The key stays on the node's path and goes on below it. */
  ghost predicate Continues(n: Node, key: Key, depth: nat) {
    && n.Inner? && depth <= |key| && Wf(n, key[..depth]) && Separate(n, key, depth)
    && Stem(n, depth) <= key && depth + n.partialLen < |key|
  }

  /** What inserting into the child for `c` makes of the node. */
  function WithKid(n: Node, c: Byte, r: Inserted): Inserted
    requires n.Inner? && Shaped(n.kids) && Kid(n.kids, c).Full?
  {
    Inserted(n.(kids := SetChild(n.kids, c, r.node)), r.replaced)
  }

  function InsertBelow(n: Node, key: Key, value: Value, depth: nat): Inserted
    requires Continues(n, key, depth)
    decreases n, 0
  {
    var at := depth + n.partialLen;
    match Kid(n.kids, key[at])
    case Full(kid) =>
      KidReady(n, key, depth, at, kid, at + 1);
      WithKid(n, key[at], Insert(kid, key, value, at + 1))
    case Empty =>
      Inserted(n.(kids := AddChild(n.kids, key[at], Leaf(key, value))), None)
  }

  /** Giving one child of an inner node a new subtree keeps the node well-formed. */
  lemma NewKidWf(n: Node, path: Key, kids: Kids, c: Byte, kid: Node)
    requires n.Inner? && Wf(n, path) && KidsOk(kids) && Sized(kids) && Changed(n.kids, kids, c, Full(kid))
    requires Wf(kid, Stem(n, |path|) + [c])
    ensures Wf(n.(kids := kids), path)
  {
    InnerWf(n.(kids := kids), path, Stem(n, |path|));
  }

  /** A key that passes through another child, or through none, sees no difference. */
  lemma ChangedElsewhere(n: Node, n': Node, depth: nat, at: nat, c: Byte, s: Slot, k: Key)
    requires n.Inner? && Solid(n) && n'.Inner? && Solid(n') && n'.partialLen == n.partialLen && at == depth + n.partialLen
    requires Changed(n.kids, n'.kids, c, s) && !(at < |k| && k[at] == c)
    ensures Get(n', k, depth) == Get(n, k, depth)
  {
  }

  lemma ChangedHere(n: Node, n': Node, depth: nat, at: nat, c: Byte, s: Slot, k: Key, below: nat)
    requires n.Inner? && Solid(n) && n'.Inner? && Solid(n') && n'.partialLen == n.partialLen && at == depth + n.partialLen
    requires Changed(n.kids, n'.kids, c, s) && at < |k| && k[at] == c && below == at + 1
    requires s.Full? ==> Solid(s.node)
    ensures Get(n, k, depth) == if Kid(n.kids, c).Full? then Get(Kid(n.kids, c).node, k, below) else None
    ensures Get(n', k, depth) == if s.Full? then Get(s.node, k, below) else None
  {
  }

  /** If the new subtree is an update of what was there, so is the whole. */
  lemma NewKidUpdates(n: Node, n': Node, depth: nat, at: nat, below: nat, c: Byte, kid: Node, key: Key, value: Value)
    requires n.Inner? && Solid(n) && n'.Inner? && Solid(n') && n'.partialLen == n.partialLen && Solid(kid)
    requires at == depth + n.partialLen < |key| && key[at] == c && below == at + 1
    requires Changed(n.kids, n'.kids, c, Full(kid))
    requires if Kid(n.kids, c).Full? then Updated(Kid(n.kids, c).node, kid, below, key, value) else kid == Leaf(key, value)
    ensures Updated(n, n', depth, key, value)
  {
    forall k: Key
      ensures Get(n', k, depth) == if k == key then Some(value) else Get(n, k, depth)
    {
      if at < |k| && k[at] == c {
        ChangedHere(n, n', depth, at, c, Full(kid), k, below);
      } else {
        ChangedElsewhere(n, n', depth, at, c, Full(kid), k);
      }
    }
  }

  lemma PutKidOk(n: Node, key: Key, value: Value, depth: nat, kids: Kids, kid: Node, at: nat, below: nat)
    requires n.Inner? && depth <= |key| && Wf(n, key[..depth]) && Stem(n, depth) <= key
    requires at == depth + n.partialLen < |key| && below == at + 1
    requires KidsOk(kids) && Sized(kids) && Changed(n.kids, kids, key[at], Full(kid)) && Wf(kid, key[..below])
    requires if Kid(n.kids, key[at]).Full? then Updated(Kid(n.kids, key[at]).node, kid, below, key, value)
             else kid == Leaf(key, value)
    ensures Wf(n.(kids := kids), key[..depth]) && Updated(n, n.(kids := kids), depth, key, value)
  {
    assert Stem(n, depth) + [key[at]] == key[..below];
    NewKidWf(n, key[..depth], kids, key[at], kid);
    NewKidUpdates(n, n.(kids := kids), depth, at, below, key[at], kid, key, value);
  }

  /** The tree is well-formed, holds the value and otherwise what it held before, and the answer is
      what the key held before. */
  ghost predicate InsertedOk(n: Node, key: Key, value: Value, depth: nat, r: Inserted)
    requires depth <= |key| && Solid(n)
  {
    Wf(r.node, key[..depth]) && Updated(n, r.node, depth, key, value) && r.replaced == Get(n, key, depth)
  }

  /** Inserting keeps the tree well-formed, stores the value, changes no other key and returns what
      the key held before. */
  lemma {:induction false} InsertOk(n: Node, key: Key, value: Value, depth: nat)
    requires depth <= |key| && Wf(n, key[..depth]) && Separate(n, key, depth)
    ensures InsertedOk(n, key, value, depth, Insert(n, key, value, depth))
    decreases n, 1
  {
    match n {
      case Leaf(k, v) =>
        if k != key {
          SplitLeafOk(n, key, value, depth);
        }
      case Inner(len, _, kids) =>
        MismatchExact(n, key, depth);
        var diff := PrefixMismatch(n, key, depth);
        if len != 0 && diff < len {
          NodeSplits(n, key[..depth], diff);
          SplitInnerOk(n, key, value, depth, diff, Stem(n, depth));
          LeftPathNotStored(n, key, depth);
        } else {
          InsertBelowOk(n, key, value, depth);
        }
    }
  }

  lemma LeftPathNotStored(n: Node, key: Key, depth: nat)
    requires n.Inner? && depth <= |key| && Wf(n, key[..depth]) && !(Stem(n, depth) <= key)
    ensures Get(n, key, depth) == None
  {
    if Get(n, key, depth).Some? {
      StoredIsUnder(n, key[..depth], key);
    }
  }

  lemma InsertAddsLeaf(n: Node, key: Key, value: Value, depth: nat)
    requires Continues(n, key, depth) && Kid(n.kids, key[depth + n.partialLen]).Empty?
    ensures InsertBelow(n, key, value, depth) ==
              Inserted(n.(kids := AddChild(n.kids, key[depth + n.partialLen], Leaf(key, value))), None)
  {
  }

  lemma InsertRecurses(n: Node, key: Key, value: Value, depth: nat, at: nat, kid: Node, below: nat, r: Inserted)
    requires Continues(n, key, depth) && at == depth + n.partialLen && below == at + 1 && Kid(n.kids, key[at]) == Full(kid)
    requires Wf(kid, key[..below]) && Separate(kid, key, below) && r == Insert(kid, key, value, below)
    ensures InsertBelow(n, key, value, depth) == WithKid(n, key[at], r)
  {
    var r' := InsertBelow(n, key, value, depth);
    assert r' == WithKid(n, key[at], Insert(kid, key, value, below));
  }

  lemma {:induction false} InsertBelowOk(n: Node, key: Key, value: Value, depth: nat)
    requires Continues(n, key, depth)
    ensures InsertedOk(n, key, value, depth, InsertBelow(n, key, value, depth))
    decreases n, 0
  {
    var at := depth + n.partialLen;
    var below := at + 1;
    match Kid(n.kids, key[at])
    case Full(kid) =>
      KidReady(n, key, depth, at, kid, below);
      InsertOk(kid, key, value, below);
      InsertRecurses(n, key, value, depth, at, kid, below, Insert(kid, key, value, below));
      PutBelow(n, key, value, depth, at, kid, below, Insert(kid, key, value, below));
    case Empty =>
      InsertAddsLeaf(n, key, value, depth);
      PutLeaf(n, key, value, depth, at, below);
  }

  lemma PutBelow(n: Node, key: Key, value: Value, depth: nat, at: nat, kid: Node, below: nat, r: Inserted)
    requires n.Inner? && depth <= |key| && Wf(n, key[..depth]) && Stem(n, depth) <= key
    requires at == depth + n.partialLen < |key| && below == at + 1 && Kid(n.kids, key[at]) == Full(kid) && Solid(kid)
    requires InsertedOk(kid, key, value, below, r)
    ensures InsertedOk(n, key, value, depth, WithKid(n, key[at], r))
  {
    GetThrough(n, depth, at, key, key[at], kid, below);
    PutKid(n, key, value, depth, at, kid, below, r.node);
  }

  lemma PutKid(n: Node, key: Key, value: Value, depth: nat, at: nat, kid: Node, below: nat, put: Node)
    requires n.Inner? && depth <= |key| && Wf(n, key[..depth]) && Stem(n, depth) <= key
    requires at == depth + n.partialLen < |key| && below == at + 1 && Kid(n.kids, key[at]) == Full(kid) && Solid(kid)
    requires Wf(put, key[..below]) && Updated(kid, put, below, key, value)
    ensures var n' := n.(kids := SetChild(n.kids, key[at], put)); Wf(n', key[..depth]) && Updated(n, n', depth, key, value)
  {
    SetChildOk(n.kids, key[at], put);
    PutKidOk(n, key, value, depth, SetChild(n.kids, key[at], put), put, at, below);
  }

  lemma PutLeaf(n: Node, key: Key, value: Value, depth: nat, at: nat, below: nat)
    requires n.Inner? && depth <= |key| && Wf(n, key[..depth]) && Stem(n, depth) <= key
    requires at == depth + n.partialLen < |key| && below == at + 1 && Kid(n.kids, key[at]).Empty?
    ensures InsertedOk(n, key, value, depth, Inserted(n.(kids := AddChild(n.kids, key[at], Leaf(key, value))), None))
  {
    AddChildOk(n.kids, key[at], Leaf(key, value));
    PutKidOk(n, key, value, depth, AddChild(n.kids, key[at], Leaf(key, value)), Leaf(key, value), at, below);
  }
}
