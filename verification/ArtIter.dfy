/** Walking the adaptive radix tree: what is visited, how often and in which order. */
module ArtIter {
  import opened Basics
  import opened ArtKids
  import opened Art

  datatype Entry = Entry(key: Key, value: Value)

  /** The order in which a node visits its children: that of the stored list in the small layouts,
      increasing bytes in the large ones. */
  function Order(k: Kids): (r: seq<Byte>)
    requires Shaped(k)
    ensures forall i :: 0 <= i < |r| ==> Kid(k, r[i]).Full?
    ensures Distinct(r)
  {
    if k.N4? || k.N16? then
      assert forall i :: 0 <= i < |k.keys| ==> Kid(k, k.keys[i]).Full? by {
        forall i | 0 <= i < |k.keys| ensures Kid(k, k.keys[i]).Full? { KidAt(k, i); }
      }
      k.keys
    else Ascending(k, 0)
  }

  lemma OrderHas(k: Kids, c: Byte)
    requires Shaped(k) && Kid(k, c).Full?
    ensures c in Order(k)
  {
    if !(k.N4? || k.N16?) {
      AscendingHas(k, 0, c);
    }
  }

  ghost predicate SolidKids(k: Kids) {
    Shaped(k) && forall c: Byte :: Kid(k, c).Full? ==> Solid(Kid(k, c).node)
  }

  /** What iteration visits below a node, in order. */
  function Entries(n: Node): (r: seq<Entry>)
    requires Solid(n)
    decreases n, 0
  {
    match n
    case Leaf(k, v) => [Entry(k, v)]
    case Inner(_, _, kids) => Along(kids, Order(kids))
  }

  function Along(k: Kids, cs: seq<Byte>): (r: seq<Entry>)
    requires SolidKids(k) && forall i :: 0 <= i < |cs| ==> Kid(k, cs[i]).Full?
    decreases k, |cs|
  {
    if cs == [] then [] else Entries(Kid(k, cs[0]).node) + Along(k, cs[1..])
  }

  lemma {:induction false} AlongHas(k: Kids, cs: seq<Byte>, e: Entry)
    requires SolidKids(k) && forall i :: 0 <= i < |cs| ==> Kid(k, cs[i]).Full?
    ensures e in Along(k, cs) <==> exists i :: 0 <= i < |cs| && e in Entries(Kid(k, cs[i]).node)
    decreases |cs|
  {
    if cs != [] {
      AlongHas(k, cs[1..], e);
      if e in Along(k, cs) && e !in Entries(Kid(k, cs[0]).node) {
        var i :| 0 <= i < |cs[1..]| && e in Entries(Kid(k, cs[1..][i]).node);
        assert e in Entries(Kid(k, cs[i + 1]).node);
      }
      if i :| 0 <= i < |cs| && e in Entries(Kid(k, cs[i]).node) {
        if i != 0 {
          assert e in Entries(Kid(k, cs[1..][i - 1]).node);
        }
      }
    }
  }

  /** An inner node visits what its children visit. */
  lemma InnerHas(n: Node, e: Entry)
    requires n.Inner? && Solid(n)
    ensures e in Entries(n) <==> exists c: Byte :: Kid(n.kids, c).Full? && e in Entries(Kid(n.kids, c).node)
  {
    var cs := Order(n.kids);
    AlongHas(n.kids, cs, e);
    if c: Byte :| Kid(n.kids, c).Full? && e in Entries(Kid(n.kids, c).node) {
      OrderHas(n.kids, c);
      var i :| 0 <= i < |cs| && cs[i] == c;
    }
  }

  lemma {:induction false} EntriesStored(n: Node, path: Key, e: Entry)
    requires Wf(n, path) && e in Entries(n)
    ensures Get(n, e.key, |path|) == Some(e.value)
    decreases n
  {
    if n.Inner? {
      InnerHas(n, e);
      var c: Byte :| Kid(n.kids, c).Full? && e in Entries(Kid(n.kids, c).node);
      var kid, stem := Kid(n.kids, c).node, Stem(n, |path|);
      KidWf(n, path, c, kid);
      EntriesStored(kid, stem + [c], e);
      StoredThrough(n, |path|, stem, c, kid, e);
    }
  }

  lemma StoredThrough(n: Node, depth: nat, stem: Key, c: Byte, kid: Node, e: Entry)
    requires n.Inner? && Solid(n) && |stem| == depth + n.partialLen && Kid(n.kids, c) == Full(kid) && Wf(kid, stem + [c])
    requires Get(kid, e.key, |stem + [c]|) == Some(e.value)
    ensures Get(n, e.key, depth) == Some(e.value)
  {
    StoredByte(kid, stem, c, e.key);
    GetThrough(n, depth, |stem|, e.key, c, kid, |stem| + 1);
  }

  lemma {:induction false} StoredVisited(n: Node, depth: nat, e: Entry)
    requires Solid(n) && Get(n, e.key, depth) == Some(e.value)
    ensures e in Entries(n)
    decreases n
  {
    if n.Inner? {
      var at := depth + n.partialLen;
      var kid := Kid(n.kids, e.key[at]).node;
      GetThrough(n, depth, at, e.key, e.key[at], kid, at + 1);
      StoredVisited(kid, at + 1, e);
      InnerHas(n, e);
    }
  }

  /** Iteration visits an entry exactly if the tree holds it. */
  lemma EntriesExact(n: Node, path: Key, e: Entry)
    requires Wf(n, path)
    ensures e in Entries(n) <==> Get(n, e.key, |path|) == Some(e.value)
  {
    if e in Entries(n) {
      EntriesStored(n, path, e);
    }
    if Get(n, e.key, |path|) == Some(e.value) {
      StoredVisited(n, |path|, e);
    }
  }

  // ----- order

  /** Byte order of keys. */
  predicate Less(a: Key, b: Key) {
    var n := CommonLen(a, b);
    n < |b| && (n == |a| || a[n] < b[n])
  }

  /** The relation between a key and every key visited after it. */
  predicate Before(a: Key, b: Key, ordered: bool) {
    if ordered then Less(a, b) else a != b
  }

  ghost predicate Chain(es: seq<Entry>, ordered: bool) {
    forall i, j :: 0 <= i < j < |es| ==> Before(es[i].key, es[j].key, ordered)
  }

  lemma ChainJoin(a: seq<Entry>, b: seq<Entry>, ordered: bool)
    requires Chain(a, ordered) && Chain(b, ordered)
    requires forall x, y :: x in a && y in b ==> Before(x.key, y.key, ordered)
    ensures Chain(a + b, ordered)
  {
  }

  predicate Ascend(cs: seq<Byte>) {
    forall i, j :: 0 <= i < j < |cs| ==> cs[i] < cs[j]
  }

  /** The small layouts keep their keys in increasing order. */
  predicate SortedKids(k: Kids) {
    k.N4? || k.N16? ==> Ascend(k.keys)
  }

  lemma SortedOrder(k: Kids)
    requires Shaped(k) && SortedKids(k)
    ensures Ascend(Order(k))
  {
  }

  /** Every node visits its children in increasing order. */
  predicate Ordered(n: Node)
    requires Solid(n)
  {
    n.Inner? ==> SortedKids(n.kids) && forall c: Byte :: Kid(n.kids, c).Full? ==> Ordered(Kid(n.kids, c).node)
  }

  lemma DifferAfter(stem: Key, c: Byte, d: Byte, x: Key, y: Key)
    requires stem + [c] <= x && stem + [d] <= y && c != d
    ensures x != y && (c < d ==> Less(x, y))
  {
    var n := CommonLen(x, y);
    assert (stem + [c])[|stem|] == c && (stem + [d])[|stem|] == d;
    assert forall i :: 0 <= i < |stem| ==> (stem + [c])[i] == (stem + [d])[i];
    assert n == |stem|;
  }

  /** Everything visited below child `c` has the path of the child. */
  lemma EntriesUnder(n: Node, path: Key, e: Entry)
    requires Wf(n, path) && e in Entries(n)
    ensures path <= e.key
  {
    EntriesExact(n, path, e);
    StoredIsUnder(n, path, e.key);
  }

  ghost predicate KidsUnder(k: Kids, stem: Key) {
    SolidKids(k) && forall c: Byte :: Kid(k, c).Full? ==> Wf(Kid(k, c).node, stem + [c])
  }

  lemma AlongAfter(k: Kids, stem: Key, c: Byte, cs: seq<Byte>, x: Entry, y: Entry)
    requires KidsUnder(k, stem) && Kid(k, c).Full? && forall i :: 0 <= i < |cs| ==> Kid(k, cs[i]).Full? && c != cs[i]
    requires x in Entries(Kid(k, c).node) && y in Along(k, cs)
    ensures x.key != y.key
    ensures (forall i :: 0 <= i < |cs| ==> c < cs[i]) ==> Less(x.key, y.key)
  {
    AlongHas(k, cs, y);
    var i :| 0 <= i < |cs| && y in Entries(Kid(k, cs[i]).node);
    EntriesUnder(Kid(k, c).node, stem + [c], x);
    EntriesUnder(Kid(k, cs[i]).node, stem + [cs[i]], y);
    DifferAfter(stem, c, cs[i], x.key, y.key);
  }

  lemma {:induction false} AlongChain(k: Kids, stem: Key, cs: seq<Byte>, ordered: bool)
    requires KidsUnder(k, stem) && Distinct(cs) && (ordered ==> Ascend(cs))
    requires forall i :: 0 <= i < |cs| ==> Kid(k, cs[i]).Full? && Chain(Entries(Kid(k, cs[i]).node), ordered)
    ensures Chain(Along(k, cs), ordered)
    decreases |cs|
  {
    if cs != [] {
      var c, rest := cs[0], cs[1..];
      AlongChain(k, stem, rest, ordered);
      forall x, y | x in Entries(Kid(k, c).node) && y in Along(k, rest)
        ensures Before(x.key, y.key, ordered)
      {
        AlongAfter(k, stem, c, rest, x, y);
      }
      ChainJoin(Entries(Kid(k, c).node), Along(k, rest), ordered);
    }
  }

  /** No key is visited twice; where every node keeps its children in increasing order, the keys
      come in increasing order. */
  lemma {:induction false} EntriesChain(n: Node, path: Key, ordered: bool)
    requires Wf(n, path) && (ordered ==> Ordered(n))
    ensures Chain(Entries(n), ordered)
    decreases n
  {
    if n.Inner? {
      var cs := Order(n.kids);
      forall i | 0 <= i < |cs|
        ensures Chain(Entries(Kid(n.kids, cs[i]).node), ordered)
      {
        EntriesChain(Kid(n.kids, cs[i]).node, Stem(n, |path|) + [cs[i]], ordered);
      }
      if ordered {
        SortedOrder(n.kids);
      }
      AlongChain(n.kids, Stem(n, |path|), cs, ordered);
    }
  }

  // ----- the ends

  lemma {:induction false} LeastIsFirst(k: Kids, c: nat)
    requires Shaped(k) && c <= 256 && exists d: Byte :: c <= d && Kid(k, d).Full?
    ensures |Ascending(k, c)| > 0 && Ascending(k, c)[0] == Least(k, c)
    decreases 256 - c
  {
    if Kid(k, c).Empty? {
      LeastIsFirst(k, c + 1);
    }
  }

  /** The byte up to `c` that has the last child. */
  function Greatest(k: Kids, c: Byte): (b: Byte)
    requires Shaped(k) && exists d: Byte :: d <= c && Kid(k, d).Full?
    ensures b <= c && Kid(k, b).Full?
    ensures forall d: Byte :: b < d <= c ==> Kid(k, d).Empty?
    decreases k, c
  {
    if Kid(k, c).Full? then c else Greatest(k, c - 1)
  }

  function LastByte(k: Kids): (b: Byte)
    requires KidsOk(k) && Sized(k)
    ensures Kid(k, b).Full?
  {
    if k.N4? || k.N16? then
      KidAt(k, |k.keys| - 1);
      k.keys[|k.keys| - 1]
    else
      SomeKid(k);
      Greatest(k, 255)
  }

  /** The rightmost leaf. */
  function Maximum(n: Node): (l: Node)
    requires Solid(n)
    ensures l.Leaf?
  {
    if n.Leaf? then n else Maximum(Kid(n.kids, LastByte(n.kids)).node)
  }

  lemma GreatestIsLast(k: Kids, cs: seq<Byte>, b: Byte)
    requires Shaped(k) && b in cs && forall d: Byte :: b < d ==> Kid(k, d).Empty?
    requires forall i :: 0 <= i < |cs| ==> Kid(k, cs[i]).Full?
    requires forall i, j :: 0 <= i < j < |cs| ==> cs[i] < cs[j]
    ensures |cs| > 0 && cs[|cs| - 1] == b
  {
    var i :| 0 <= i < |cs| && cs[i] == b;
    var last := Kid(k, cs[|cs| - 1]);
  }

  lemma EndBytes(k: Kids)
    requires KidsOk(k) && Sized(k)
    ensures var cs := Order(k); |cs| > 0 && cs[0] == FirstByte(k) && cs[|cs| - 1] == LastByte(k)
  {
    if !(k.N4? || k.N16?) {
      SomeKid(k);
      LargeEnds(k);
    }
  }

  lemma LargeEnds(k: Kids)
    requires Shaped(k) && exists d: Byte :: Kid(k, d).Full?
    ensures var cs := Ascending(k, 0); |cs| > 0 && cs[0] == Least(k, 0) && cs[|cs| - 1] == Greatest(k, 255)
  {
    LeastIsFirst(k, 0);
    AscendingHas(k, 0, Greatest(k, 255));
    GreatestIsLast(k, Ascending(k, 0), Greatest(k, 255));
  }

  /** A list that ends where its last part ends. */
  ghost predicate EndsWith(es: seq<Entry>, last: Entry) {
    |es| > 0 && es[|es| - 1] == last
  }

  lemma {:induction false} AlongLast(k: Kids, cs: seq<Byte>, c: Byte, last: Entry)
    requires SolidKids(k) && |cs| > 0 && forall i :: 0 <= i < |cs| ==> Kid(k, cs[i]).Full?
    requires c == cs[|cs| - 1] && EndsWith(Entries(Kid(k, c).node), last)
    ensures EndsWith(Along(k, cs), last)
    decreases |cs|
  {
    var first, rest := Entries(Kid(k, cs[0]).node), cs[1..];
    if |rest| > 0 {
      AlongLast(k, rest, c, last);
    }
    assert Along(k, cs) == first + Along(k, rest);
  }

  predicate EndsOk(es: seq<Entry>, first: Node, last: Node) {
    |es| > 0 && first.Leaf? && last.Leaf? &&
    es[0] == Entry(first.key, first.value) && es[|es| - 1] == Entry(last.key, last.value)
  }

  lemma InnerEnds(k: Kids, cs: seq<Byte>, first: Node, last: Node)
    requires SolidKids(k) && |cs| > 0 && forall i :: 0 <= i < |cs| ==> Kid(k, cs[i]).Full?
    requires first.Leaf? && last.Leaf?
    requires var a := Entries(Kid(k, cs[0]).node); |a| > 0 && a[0] == Entry(first.key, first.value)
    requires EndsWith(Entries(Kid(k, cs[|cs| - 1]).node), Entry(last.key, last.value))
    ensures EndsOk(Along(k, cs), first, last)
  {
    AlongLast(k, cs, cs[|cs| - 1], Entry(last.key, last.value));
    assert Along(k, cs) == Entries(Kid(k, cs[0]).node) + Along(k, cs[1..]);
  }

  /** `minimum` is visited first and `maximum` last. */
  lemma {:induction false} EntriesEnds(n: Node)
    requires Solid(n)
    ensures EndsOk(Entries(n), Minimum(n), Maximum(n))
    decreases n
  {
    if n.Inner? {
      forall c: Byte | Kid(n.kids, c).Full?
        ensures EndsOk(Entries(Kid(n.kids, c).node), Minimum(Kid(n.kids, c).node), Maximum(Kid(n.kids, c).node))
      {
        EntriesEnds(Kid(n.kids, c).node);
      }
      EndBytes(n.kids);
      InnerEnds(n.kids, Order(n.kids), Minimum(n), Maximum(n));
    }
  }

  // ----- exactly when the order is that of the keys

  lemma ChainSplit(a: seq<Entry>, b: seq<Entry>, ordered: bool)
    requires Chain(a + b, ordered)
    ensures Chain(a, ordered) && Chain(b, ordered)
    ensures forall i, j :: 0 <= i < |a| && 0 <= j < |b| ==> Before(a[i].key, b[j].key, ordered)
  {
    var all := a + b;
    forall i, j | 0 <= i < j < |a| ensures Before(a[i].key, a[j].key, ordered) { assert all[i] == a[i] && all[j] == a[j]; }
    forall i, j | 0 <= i < j < |b|
      ensures Before(b[i].key, b[j].key, ordered)
    {
      assert all[|a| + i] == b[i] && all[|a| + j] == b[j];
    }
    forall i, j | 0 <= i < |a| && 0 <= j < |b|
      ensures Before(a[i].key, b[j].key, ordered)
    {
      assert all[i] == a[i] && all[|a| + j] == b[j];
    }
  }

  lemma LessAsymmetric(a: Key, b: Key)
    requires Less(a, b)
    ensures !Less(b, a)
  {
    assert CommonLen(a, b) == CommonLen(b, a);
  }

  /** A key below `c` that comes before one below `d`. */
  lemma SmallerByte(stem: Key, c: Byte, d: Byte, x: Key, y: Key)
    requires stem + [c] <= x && stem + [d] <= y && c != d && Less(x, y)
    ensures c < d
  {
    LessAsymmetric(x, y);
    DifferAfter(stem, d, c, y, x);
  }

  lemma {:induction false} AlongSorted(k: Kids, stem: Key, cs: seq<Byte>)
    requires KidsUnder(k, stem) && Distinct(cs) && forall i :: 0 <= i < |cs| ==> Kid(k, cs[i]).Full?
    requires Chain(Along(k, cs), true)
    ensures Ascend(cs) && forall i :: 0 <= i < |cs| ==> Chain(Entries(Kid(k, cs[i]).node), true)
    decreases |cs|
  {
    if cs != [] {
      var c, rest := cs[0], cs[1..];
      var first, others := Entries(Kid(k, c).node), Along(k, rest);
      ChainSplit(first, others, true);
      AlongSorted(k, stem, rest);
      forall j | 0 < j < |cs|
        ensures c < cs[j]
      {
        FirstBefore(k, stem, c, rest, j - 1);
      }
      assert forall i :: 0 < i < |cs| ==> cs[i] == rest[i - 1];
    }
  }

  lemma FirstBefore(k: Kids, stem: Key, c: Byte, rest: seq<Byte>, j: nat)
    requires KidsUnder(k, stem) && Kid(k, c).Full? && j < |rest| && forall i :: 0 <= i < |rest| ==> Kid(k, rest[i]).Full? && rest[i] != c
    requires var a, b := Entries(Kid(k, c).node), Along(k, rest);
             forall i, m :: 0 <= i < |a| && 0 <= m < |b| ==> Before(a[i].key, b[m].key, true)
    ensures c < rest[j]
  {
    var a, b := Entries(Kid(k, c).node), Along(k, rest);
    EntriesEnds(Kid(k, c).node);
    EntriesEnds(Kid(k, rest[j]).node);
    var y := Entries(Kid(k, rest[j]).node)[0];
    AlongHas(k, rest, y);
    var m :| 0 <= m < |b| && b[m] == y;
    EntriesUnder(Kid(k, c).node, stem + [c], a[0]);
    EntriesUnder(Kid(k, rest[j]).node, stem + [rest[j]], y);
    SmallerByte(stem, c, rest[j], a[0].key, y.key);
  }

  /** Iteration comes in increasing byte order if and only if every small node is sorted. */
  lemma {:induction false} SortedIffOrdered(n: Node, path: Key)
    requires Wf(n, path)
    ensures Chain(Entries(n), true) <==> Ordered(n)
    decreases n
  {
    if Ordered(n) {
      EntriesChain(n, path, true);
    }
    if n.Inner? && Chain(Entries(n), true) {
      var stem, cs := Stem(n, |path|), Order(n.kids);
      AlongSorted(n.kids, stem, cs);
      forall c: Byte | Kid(n.kids, c).Full?
        ensures Ordered(Kid(n.kids, c).node)
      {
        OrderHas(n.kids, c);
        var i :| 0 <= i < |cs| && cs[i] == c;
        SortedIffOrdered(Kid(n.kids, c).node, stem + [c]);
      }
    }
  }
}
