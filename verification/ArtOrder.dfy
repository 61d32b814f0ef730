/**
 When iteration of the adaptive radix tree is in byte order. The vector comparison that places a
 new child in a Node16 reads bytes as signed, so bytes on both sides of 128 can come out of order;
 bytes below 128 never do.
 */
module ArtOrder {
  import opened Basics
  import opened ArtKids
  import opened Art
  import opened ArtDelete
  import opened ArtIter
  import opened ArtMap

  // ----- one insertion into a Node16

  predicate RightPlace(keys: seq<Byte>, i: nat, c: Byte)
    requires i <= |keys|
  {
    (forall j :: 0 <= j < i ==> keys[j] < c) && forall j :: i <= j < |keys| ==> c < keys[j]
  }

  lemma InsertAscends(keys: seq<Byte>, i: nat, c: Byte)
    requires i <= |keys| && Ascend(keys)
    ensures Ascend(InsertAt(keys, i, c)) <==> RightPlace(keys, i, c)
  {
    var r := InsertAt(keys, i, c);
    if Ascend(r) {
      assert r[i] == c;
      forall j | 0 <= j < |keys|
        ensures if j < i then keys[j] < c else c < keys[j]
      {
        assert if j < i then r[j] == keys[j] else r[j + 1] == keys[j];
      }
    }
  }

  /** A Node16 with room stays sorted exactly if the new byte does not cross the sign boundary: a
      high byte needs all keys high, a low one needs all keys low or a larger low key. */
  lemma Node16StaysSorted(keys: seq<Byte>, nodes: seq<Node>, c: Byte, n: Node)
    requires |keys| == |nodes| < 16 && Ascend(keys) && c !in keys && Shaped(N16(keys, nodes))
    ensures var k := AddChild16(N16(keys, nodes), c, n);
            k.N16? && (Ascend(k.keys) <==>
              if c >= 128 then forall j :: 0 <= j < |keys| ==> keys[j] >= 128
              else (forall j :: 0 <= j < |keys| ==> keys[j] < 128) || exists j :: 0 <= j < |keys| && c < keys[j] < 128)
  {
    var i := Position16(keys, c);
    InsertAscends(keys, i, c);
    if j :| 0 <= j < |keys| && c < keys[j] < 128 {
      assert i <= j;
    }
  }

  /** Five children whose bytes straddle the boundary come out of order. */
  lemma HighByteBreaksOrder(nodes: seq<Node>, n: Node)
    requires |nodes| == 4 && Shaped(N4([1, 2, 3, 4], nodes))
    ensures var k := AddChild4(N4([1, 2, 3, 4], nodes), 200, n);
            k.N16? && k.keys == [200, 1, 2, 3, 4] && !Ascend(k.keys)
  {
    var keys: seq<Byte> := [1, 2, 3, 4];
    assert Position16(keys, 200) == 0;
    var k := AddChild4(N4(keys, nodes), 200, n);
    assert k.keys[0] > k.keys[1];
  }

  // ----- trees of low keys

  predicate Low(key: Key) {
    forall i :: 0 <= i < |key| ==> key[i] < 128
  }

  predicate LowKids(k: Kids)
    requires Shaped(k)
  {
    (forall c: Byte :: Kid(k, c).Full? ==> c < 128) && SortedKids(k)
  }

  /** All keys are low and every node keeps its children in increasing order. */
  predicate LowTree(n: Node)
    requires Solid(n)
  {
    match n
    case Leaf(key, _) => Low(key)
    case Inner(_, _, kids) =>
      LowKids(kids) && forall c: Byte :: Kid(kids, c).Full? ==> LowTree(Kid(kids, c).node)
  }

  lemma {:induction false} LowTreeOrdered(n: Node)
    requires Solid(n) && LowTree(n)
    ensures Ordered(n)
    decreases n
  {
    if n.Inner? {
      forall c: Byte | Kid(n.kids, c).Full?
        ensures Ordered(Kid(n.kids, c).node)
      {
        LowTreeOrdered(Kid(n.kids, c).node);
      }
    }
  }

  lemma {:induction false} MinimumLow(n: Node)
    requires Solid(n) && LowTree(n)
    ensures Low(Minimum(n).key)
    decreases n
  {
    if n.Inner? {
      MinimumLow(Kid(n.kids, FirstByte(n.kids)).node);
    }
  }

  lemma ListedLow(k: Kids)
    requires Shaped(k) && (k.N4? || k.N16?) && LowKids(k)
    ensures Ascend(k.keys) && forall i :: 0 <= i < |k.keys| ==> k.keys[i] < 128
  {
    forall i | 0 <= i < |k.keys| ensures k.keys[i] < 128 { KidAt(k, i); }
  }

  lemma AddLow16(keys: seq<Byte>, nodes: seq<Node>, c: Byte, n: Node)
    requires Shaped(N16(keys, nodes)) && c !in keys && c < 128 && Ascend(keys)
    requires forall i :: 0 <= i < |keys| ==> keys[i] < 128
    ensures SortedKids(AddChild16(N16(keys, nodes), c, n))
  {
    if |keys| < 16 {
      Node16StaysSorted(keys, nodes, c, n);
    }
  }

  lemma AddLow4(keys: seq<Byte>, nodes: seq<Node>, c: Byte, n: Node)
    requires Shaped(N4(keys, nodes)) && c !in keys && c < 128 && Ascend(keys)
    requires forall i :: 0 <= i < |keys| ==> keys[i] < 128
    ensures SortedKids(AddChild4(N4(keys, nodes), c, n))
  {
    if |keys| < 4 {
      InsertAscends(keys, Position4(keys, c), c);
    } else {
      AddLow16(keys, nodes, c, n);
    }
  }

  lemma NotListed(k: Kids, c: Byte)
    requires Shaped(k) && (k.N4? || k.N16?) && Kid(k, c).Empty?
    ensures c !in k.keys
  {
  }

  lemma AddListed(k: Kids, c: Byte, n: Node)
    requires KidsOk(k) && Kid(k, c).Empty? && LowKids(k) && c < 128
    ensures SortedKids(AddChild(k, c, n))
  {
    if k.N4? || k.N16? {
      ListedLow(k);
      NotListed(k, c);
      if k.N4? {
        AddLow4(k.keys, k.nodes, c, n);
      } else {
        AddLow16(k.keys, k.nodes, c, n);
      }
    }
  }

  lemma AddLow(k: Kids, c: Byte, n: Node)
    requires KidsOk(k) && Kid(k, c).Empty? && LowKids(k) && c < 128
    ensures KidsOk(AddChild(k, c, n)) && LowKids(AddChild(k, c, n))
  {
    AddListed(k, c, n);
    AddChildOk(k, c, n);
  }

  lemma SetLow(k: Kids, c: Byte, n: Node)
    requires KidsOk(k) && Kid(k, c).Full? && LowKids(k)
    ensures KidsOk(SetChild(k, c, n)) && LowKids(SetChild(k, c, n))
  {
    SetChildOk(k, c, n);
  }

  lemma RemoveAscends(keys: seq<Byte>, i: nat)
    requires i < |keys| && Ascend(keys)
    ensures Ascend(RemoveAt(keys, i))
  {
  }

  lemma RemoveLow(k: Kids, c: Byte)
    requires KidsOk(k) && Kid(k, c).Full? && LowKids(k) && Sized(k)
    ensures KidsOk(RemoveChild(k, c)) && LowKids(RemoveChild(k, c))
  {
    RemoveChildOk(k, c);
    if k.N4? || k.N16? {
      ListedLow(k);
      RemoveAscends(k.keys, IndexOf(k.keys, c));
    }
  }

  lemma ChangedLow(n: Node, kids: Kids, c: Byte, s: Slot)
    requires n.Inner? && Solid(n) && LowTree(n) && KidsOk(kids) && LowKids(kids) && Changed(n.kids, kids, c, s)
    requires Solid(n.(kids := kids)) && (s.Full? ==> Solid(s.node) && LowTree(s.node))
    ensures LowTree(n.(kids := kids))
  {
  }

  lemma ForkLow(f: Node, c1: Byte, n1: Node, c2: Byte, n2: Node)
    requires f.Inner? && Solid(f) && f.kids == ForkOf(c1, n1, c2, n2) && Forks(f.kids, c1, n1, c2, n2) && c1 != c2
    requires Solid(n1) && Solid(n2) && LowTree(n1) && LowTree(n2) && c1 < 128 && c2 < 128
    ensures LowTree(f)
  {
    InsertAscends([c1], Position4([c1], c2), c2);
  }

  lemma SplitLeafLow(l: Node, key: Key, value: Value, depth: nat)
    requires l.Leaf? && depth <= |key| && Wf(l, key[..depth]) && Separate(l, key, depth) && l.key != key
    requires Low(key) && Low(l.key)
    ensures depth <= |l.key| && depth + CommonLen(l.key[depth..], key[depth..]) < MinOf(|l.key|, |key|)
    ensures Solid(SplitLeaf(l, key, value, depth)) && LowTree(SplitLeaf(l, key, value, depth))
  {
    SplitLeafOk(l, key, value, depth);
    LeafDiverges(l, key, depth);
    var at := depth + CommonLen(l.key[depth..], key[depth..]);
    ForkKids(l.key[at], l, key[at], Leaf(key, value));
    ForkLow(SplitLeaf(l, key, value, depth), l.key[at], l, key[at], Leaf(key, value));
  }

  lemma SameKidsLow(n: Node, n': Node)
    requires n.Inner? && n'.Inner? && Solid(n) && Solid(n') && n.kids == n'.kids && LowTree(n)
    ensures LowTree(n')
  {
  }

  lemma SplitInnerLow(n: Node, key: Key, value: Value, depth: nat, diff: nat)
    requires n.Inner? && depth <= |key| && Wf(n, key[..depth]) && diff < n.partialLen && LowTree(n) && Low(key)
    requires DivergeAt(Stem(n, depth), key, depth + diff)
    ensures Solid(SplitInner(n, key, value, depth, diff)) && LowTree(SplitInner(n, key, value, depth, diff))
  {
    NodeSplits(n, key[..depth], diff);
    SplitInnerOk(n, key, value, depth, diff, Stem(n, depth));
    MinimumLow(n);
    var at := depth + diff;
    var c, n' := CutByte(n, depth, diff), Shortened(n, depth, diff);
    assert c == Minimum(n).key[at];
    SameKidsLow(n, n');
    ForkKids(c, n', key[at], Leaf(key, value));
    ForkLow(SplitInner(n, key, value, depth, diff), c, n', key[at], Leaf(key, value));
  }

  /** Inserting a low key keeps a tree of low keys in order. */
  lemma {:induction false} InsertLow(n: Node, key: Key, value: Value, depth: nat)
    requires depth <= |key| && Wf(n, key[..depth]) && Separate(n, key, depth) && LowTree(n) && Low(key)
    ensures Solid(Insert(n, key, value, depth).node) && LowTree(Insert(n, key, value, depth).node)
    decreases n, 1
  {
    match n {
      case Leaf(k, v) =>
        if k != key {
          SplitLeafLow(n, key, value, depth);
        }
      case Inner(len, _, kids) =>
        MismatchExact(n, key, depth);
        var diff := PrefixMismatch(n, key, depth);
        if len != 0 && diff < len {
          SplitInnerLow(n, key, value, depth, diff);
        } else {
          InsertBelowLow(n, key, value, depth);
        }
    }
  }

  lemma {:induction false} InsertBelowLow(n: Node, key: Key, value: Value, depth: nat)
    requires Continues(n, key, depth) && LowTree(n) && Low(key)
    ensures Solid(InsertBelow(n, key, value, depth).node) && LowTree(InsertBelow(n, key, value, depth).node)
    decreases n, 0
  {
    var at := depth + n.partialLen;
    InsertBelowOk(n, key, value, depth);
    match Kid(n.kids, key[at])
    case Full(kid) =>
      KidReady(n, key, depth, at, kid, at + 1);
      InsertLow(kid, key, value, at + 1);
      InsertRecurses(n, key, value, depth, at, kid, at + 1, Insert(kid, key, value, at + 1));
      NewKidLow(n, key[at], Insert(kid, key, value, at + 1).node);
    case Empty =>
      InsertAddsLeaf(n, key, value, depth);
      NewLeafLow(n, key[at], Leaf(key, value));
  }

  lemma NewKidLow(n: Node, c: Byte, kid: Node)
    requires n.Inner? && Solid(n) && LowTree(n) && Kid(n.kids, c).Full? && Solid(kid) && LowTree(kid)
    ensures Solid(n.(kids := SetChild(n.kids, c, kid))) && LowTree(n.(kids := SetChild(n.kids, c, kid)))
  {
    SetChildOk(n.kids, c, kid);
    SetLow(n.kids, c, kid);
    ChangedLow(n, SetChild(n.kids, c, kid), c, Full(kid));
  }

  lemma NewLeafLow(n: Node, c: Byte, l: Node)
    requires n.Inner? && Solid(n) && LowTree(n) && Kid(n.kids, c).Empty? && c < 128 && l.Leaf? && Low(l.key)
    ensures Solid(n.(kids := AddChild(n.kids, c, l))) && LowTree(n.(kids := AddChild(n.kids, c, l)))
  {
    AddChildOk(n.kids, c, l);
    AddLow(n.kids, c, l);
    ChangedLow(n, AddChild(n.kids, c, l), c, Full(l));
  }

  lemma CollapseLow(n: Node)
    requires n.Inner? && |n.partial| == MAX_PREFIX_LEN && n.kids.N4? && |n.kids.keys| == |n.kids.nodes| == 1
    requires Solid(n.kids.nodes[0]) && LowTree(n.kids.nodes[0]) && Solid(Collapse(n))
    ensures LowTree(Collapse(n))
  {
    if n.kids.nodes[0].Inner? {
      SameKidsLow(n.kids.nodes[0], Collapse(n));
    }
  }

  lemma UnlinkLow(n: Node, c: Byte)
    requires n.Inner? && Solid(n) && LowTree(n) && Kid(n.kids, c).Full? && Solid(Unlink(n, c))
    ensures LowTree(Unlink(n, c))
  {
    RemoveChildOk(n.kids, c);
    RemoveLow(n.kids, c);
    var k := RemoveChild(n.kids, c);
    if n.kids.N4? && k.N4? && |k.keys| == 1 {
      LastKid(n, c, k);
      CollapseLow(n.(kids := k));
    } else {
      StillTwo(n, c, k);
      ChangedLow(n, k, c, Empty);
    }
  }

  predicate LowSlot(s: Slot) {
    s.Full? ==> Solid(s.node) && LowTree(s.node)
  }

  lemma DeletePoint(n: Node, path: Key, key: Key, junk: nat -> Byte)
    requires n.Inner? && Wf(n, path) && Delete(n, key, |path|, junk).Gone?
    ensures |path| + n.partialLen < |key| && Kid(n.kids, key[|path| + n.partialLen]).Full?
    ensures Solid(Delete(n, key, |path|, junk).left.node)
  {
    DeleteOk(n, path, key, junk);
    StoredIsUnder(n, path, key);
  }

  /** Deleting keeps a tree of low keys in order. */
  lemma {:induction false} DeleteLow(n: Node, path: Key, key: Key, junk: nat -> Byte)
    requires Wf(n, path) && LowTree(n) && Delete(n, key, |path|, junk).Gone?
    ensures LowSlot(Delete(n, key, |path|, junk).left)
    decreases n
  {
    if n.Inner? {
      DeletePoint(n, path, key, junk);
      var at := |path| + n.partialLen;
      var kid := Kid(n.kids, key[at]).node;
      DeleteUnfolds(n, key, |path|, junk, at, kid, at + 1);
      if kid.Leaf? {
        UnlinkLow(n, key[at]);
      } else {
        DeleteBelowLow(n, path, key, junk, key[at], kid, Stem(n, |path|) + [key[at]]);
      }
    }
  }

  lemma {:induction false} DeleteBelowLow(n: Node, path: Key, key: Key, junk: nat -> Byte, c: Byte, kid: Node, kidPath: Key)
    requires n.Inner? && Wf(n, path) && LowTree(n) && Kid(n.kids, c) == Full(kid) && kidPath == Stem(n, |path|) + [c]
    requires Solid(kid) && kid.Inner? && Delete(kid, key, |kidPath|, junk).Gone?
    ensures LowSlot(Full(n.(kids := SetChild(n.kids, c, Delete(kid, key, |kidPath|, junk).left.node))))
    decreases n, 0
  {
    KidWf(n, path, c, kid);
    DeleteLow(kid, kidPath, key, junk);
    NewSlotLow(n, c, Delete(kid, key, |kidPath|, junk).left);
  }

  lemma NewSlotLow(n: Node, c: Byte, s: Slot)
    requires n.Inner? && Solid(n) && LowTree(n) && Kid(n.kids, c).Full? && s.Full? && LowSlot(s)
    ensures LowSlot(Full(n.(kids := SetChild(n.kids, c, s.node))))
  {
    NewKidLow(n, c, s.node);
  }

  // ----- runs of low keys

  ghost predicate InOrder(t: Tree) {
    TreeOk(t) && (t.root.Full? ==> LowTree(t.root.node))
  }

  lemma StepInOrder(t: Tree, op: Op)
    requires Ready(t, op) && InOrder(t) && (op.Put? ==> Low(op.key))
    requires TreeOk(TreeStep(t, op).0)
    ensures InOrder(TreeStep(t, op).0)
  {
    if t.root.Full? {
      match op {
        case Put(k, v) =>
          assert k[..0] == [];
          InsertLow(t.root.node, k, v, 0);
        case Find(_, _) =>
        case Remove(k, junk) =>
          if Delete(t.root.node, k, 0, junk).Gone? {
            DeleteLow(t.root.node, [], k, junk);
          }
      }
    }
  }

  lemma {:induction false} RunsInOrder(t: Tree, m: map<Key, Value>, ops: seq<Op>)
    requires Represents(t, m) && CanRun(t, ops) && InOrder(t)
    requires forall i :: 0 <= i < |ops| && ops[i].Put? ==> Low(ops[i].key)
    ensures InOrder(TreeAfter(t, ops)) && Represents(TreeAfter(t, ops), MapAfter(m, ops))
    decreases |ops|
  {
    if |ops| > 0 {
      StepMatches(t, m, ops[0]);
      StepInOrder(t, ops[0]);
      RunsInOrder(TreeStep(t, ops[0]).0, MapStep(m, ops[0]), ops[1..]);
    }
  }

  function Iterated(t: Tree): seq<Entry>
    requires TreeOk(t)
  {
    if t.root.Full? then Entries(t.root.node) else []
  }

  /** Iteration visits the entries of the map and nothing else, each key once. */
  lemma IterationIsTheMap(t: Tree, m: map<Key, Value>)
    requires Represents(t, m)
    ensures Chain(Iterated(t), false)
    ensures forall e: Entry :: e in Iterated(t) <==> e.key in m && m[e.key] == e.value
  {
    if t.root.Full? {
      EntriesChain(t.root.node, [], false);
    }
    forall e: Entry
      ensures e in Iterated(t) <==> e.key in m && m[e.key] == e.value
    {
      assert Lookup(t.root, e.key) == MapGet(m, e.key);
      if t.root.Full? {
        EntriesExact(t.root.node, [], e);
      }
    }
  }

  /** After any run whose keys are low, iteration visits the entries of the map in increasing byte
      order, the smallest leaf first and the largest last. */
  lemma LowRunsIterateSorted(ops: seq<Op>)
    requires CanRun(EMPTY, ops) && forall i :: 0 <= i < |ops| && ops[i].Put? ==> Low(ops[i].key)
    ensures var t := TreeAfter(EMPTY, ops);
            && TreeOk(t) && Chain(Iterated(t), true)
            && (forall e: Entry :: e in Iterated(t) <==> e.key in MapAfter(map[], ops) && MapAfter(map[], ops)[e.key] == e.value)
            && (t.root.Full? ==> EndsOk(Iterated(t), Minimum(t.root.node), Maximum(t.root.node)))
  {
    RunsInOrder(EMPTY, map[], ops);
    SortedIteration(TreeAfter(EMPTY, ops), MapAfter(map[], ops));
  }

  lemma SortedIteration(t: Tree, m: map<Key, Value>)
    requires Represents(t, m) && InOrder(t)
    ensures Chain(Iterated(t), true)
    ensures forall e: Entry :: e in Iterated(t) <==> e.key in m && m[e.key] == e.value
    ensures t.root.Full? ==> EndsOk(Iterated(t), Minimum(t.root.node), Maximum(t.root.node))
  {
    IterationIsTheMap(t, m);
    if t.root.Full? {
      LowTreeOrdered(t.root.node);
      EntriesChain(t.root.node, [], true);
      EntriesEnds(t.root.node);
    }
  }
}
