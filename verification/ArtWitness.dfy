/**
 Runs of the adaptive radix tree that end where it falls short: iteration out of byte order, a copy
 that loses a key, prefix iteration that visits a key without the prefix.
 */
module ArtWitness {
  import opened Basics
  import opened ArtKids
  import opened Art
  import opened ArtDelete
  import opened ArtIter
  import opened ArtMap
  import opened ArtOrder
  import opened ArtPrefix
  import opened ArtCopy

  // ----- runs, one more operation at a time

  /** The operations can be run on an empty tree and leave `t`. */
  ghost predicate Reaches(ops: seq<Op>, t: Tree) {
    CanRun(EMPTY, ops) && TreeAfter(EMPTY, ops) == t
  }

  lemma {:induction false} OneMore(t: Tree, ops: seq<Op>, op: Op)
    requires CanRun(t, ops) && Ready(TreeAfter(t, ops), op)
    ensures CanRun(t, ops + [op]) && TreeAfter(t, ops + [op]) == TreeStep(TreeAfter(t, ops), op).0
    decreases |ops|
  {
    if ops == [] {
      assert (ops + [op])[1..] == [];
    } else {
      OneMore(TreeStep(t, ops[0]).0, ops[1..], op);
      assert (ops + [op])[1..] == ops[1..] + [op];
    }
  }

  lemma PutNext(ops: seq<Op>, t: Tree, key: Key, value: Value)
    requires Reaches(ops, t) && Fits(t, key)
    ensures Reaches(ops + [Put(key, value)], TreeInsert(t, key, value).0)
  {
    OneMore(EMPTY, ops, Put(key, value));
  }

  lemma PutFirst(key: Key, value: Value)
    ensures Reaches([Put(key, value)], Tree(Full(Leaf(key, value)), 1))
  {
    PutNext([], EMPTY, key, value);
    assert [] + [Put(key, value)] == [Put(key, value)];
  }

  /** The second key of a tree splits the leaf of the first. */
  lemma PutSecond(first: Node, key: Key, value: Value, at: nat)
    requires first.Leaf? && DivergeAt(first.key, key, at)
    ensures Reaches([Put(first.key, first.value), Put(key, value)],
                    Tree(Full(Fork(at, key, first.key[at], first, key[at], Leaf(key, value))), 2))
  {
    var t := Tree(Full(first), 1);
    PutFirst(first.key, first.value);
    LeafSeparate(first, key, at, 0);
    assert key[..0] == [];
    PutNext([Put(first.key, first.value)], t, key, value);
    SplitThere(first, key, value, 0, at);
    assert key[0..] == key;
    assert [Put(first.key, first.value)] + [Put(key, value)] == [Put(first.key, first.value), Put(key, value)];
  }

  lemma LeafSeparate(l: Node, key: Key, at: nat, depth: nat)
    requires l.Leaf? && DivergeAt(l.key, key, at)
    ensures Separate(l, key, depth)
  {
  }

  lemma SplitThere(l: Node, key: Key, value: Value, depth: nat, at: nat)
    requires l.Leaf? && depth <= at && DivergeAt(l.key, key, at) && Wf(l, key[..depth]) && Separate(l, key, depth)
    ensures Insert(l, key, value, depth) ==
              Inserted(Fork(at - depth, key[depth..], l.key[at], l, key[at], Leaf(key, value)), None)
  {
    var a, b := l.key[depth..], key[depth..];
    assert a[at - depth] != b[at - depth];
    assert forall i :: 0 <= i < at - depth ==> a[i] == b[i];
    assert CommonLen(a, b) == at - depth;
  }

  // ----- one node of one-byte keys

  /** Every child is the leaf of its own byte. */
  ghost predicate ByteKids(k: Kids) {
    KidsOk(k) && Sized(k) && forall c: Byte :: Kid(k, c).Full? ==> Kid(k, c).node == Leaf([c], 0)
  }

  function ByteTree(k: Kids, size: int): Tree {
    Tree(Full(Inner(0, ZEROES, k)), size)
  }

  lemma ByteHeld(k: Kids, key: Key)
    requires ByteKids(k) && Solid(Inner(0, ZEROES, k)) && Get(Inner(0, ZEROES, k), key, 0).Some?
    ensures |key| == 1
  {
    var l := Kid(k, key[0]).node;
    assert Get(l, key, 1).Some?;
  }

  lemma ByteTreeFits(k: Kids, size: int, c: Byte)
    requires ByteKids(k)
    ensures Fits(ByteTree(k, size), [c])
  {
    var n := Inner(0, ZEROES, k);
    InnerWf(n, [], []);
    forall key: Key | Get(n, key, 0).Some? && key != [c]
      ensures !(key <= [c]) && !([c] <= key)
    {
      ByteHeld(k, key);
    }
  }

  lemma PutByte(ops: seq<Op>, k: Kids, size: int, c: Byte)
    requires ByteKids(k) && Kid(k, c).Empty? && Reaches(ops, ByteTree(k, size))
    ensures KidsOk(k) && ByteKids(AddChild(k, c, Leaf([c], 0)))
    ensures Reaches(ops + [Put([c], 0)], ByteTree(AddChild(k, c, Leaf([c], 0)), size + 1))
  {
    var n := Inner(0, ZEROES, k);
    ByteTreeFits(k, size, c);
    AddChildOk(k, c, Leaf([c], 0));
    PutNext(ops, ByteTree(k, size), [c], 0);
    assert [c][..0] == [];
    InsertAddsLeaf(n, [c], 0, 0);
  }

  /** The first bytes from 1 on. */
  function Bytes(n: nat): (r: seq<Byte>)
    requires n < 128
    ensures |r| == n && forall i :: 0 <= i < n ==> r[i] == i + 1
  {
    seq(n, i requires 0 <= i < n => i + 1)
  }

  function Leaves(n: nat): (r: seq<Node>)
    requires n < 128
    ensures |r| == n && forall i :: 0 <= i < n ==> r[i] == Leaf([i + 1], 0)
  {
    seq(n, i requires 0 <= i < n => Leaf([i + 1], 0))
  }

  function Puts(n: nat): (r: seq<Op>)
    requires n < 128
    ensures |r| == n && forall i :: 0 <= i < n ==> r[i] == Put([i + 1], 0)
  {
    seq(n, i requires 0 <= i < n => Put([i + 1], 0))
  }

  /** The node that holds the keys [1] to [n]. */
  function Row(n: nat): Kids
    requires n <= 16
  {
    if n <= 4 then N4(Bytes(n), Leaves(n)) else N16(Bytes(n), Leaves(n))
  }

  lemma RowShaped(n: nat, c: Byte)
    requires n <= 16
    ensures KidsOk(Row(n)) && Kid(Row(n), c) == if 1 <= c <= n then Full(Leaf([c], 0)) else Empty
  {
    if 1 <= c <= n {
      KidAt(Row(n), c - 1);
    }
  }

  lemma RowGrows(n: nat)
    requires n < 16
    ensures KidsOk(Row(n)) && AddChild(Row(n), n + 1, Leaf([n + 1], 0)) == Row(n + 1)
  {
    RowShaped(n, 0);
    assert Position4(Bytes(n), n + 1) == n;
    assert Position16(Bytes(n), n + 1) == n;
    assert InsertAt(Bytes(n), n, n + 1) == Bytes(n + 1);
    assert InsertAt(Leaves(n), n, Leaf([n + 1], 0)) == Leaves(n + 1);
  }

  lemma RowKids(n: nat)
    requires 2 <= n <= 16
    ensures ByteKids(Row(n))
  {
    forall c: Byte
      ensures KidsOk(Row(n)) && Kid(Row(n), c) == if 1 <= c <= n then Full(Leaf([c], 0)) else Empty
    {
      RowShaped(n, c);
    }
  }

  lemma TwoRow()
    ensures Reaches(Puts(2), ByteTree(Row(2), 2))
  {
    var l1, l2 := Leaf([1], 0), Leaf([2], 0);
    PutSecond(l1, [2], 0, 0);
    assert Puts(2) == [Put([1], 0), Put([2], 0)];
    assert Position4([1], 2) == 1;
    assert ForkOf(1, l1, 2, l2) == Row(2) by {
      assert InsertAt([1], 1, 2) == Bytes(2);
      assert InsertAt([l1], 1, l2) == Leaves(2);
    }
    assert Overwrite(ZEROES, Stored([2], 0)) == ZEROES;
  }

  lemma RowNext(ops: seq<Op>, n: nat)
    requires 2 <= n < 16 && Reaches(ops, ByteTree(Row(n), n))
    ensures Reaches(ops + [Put([n + 1], 0)], ByteTree(Row(n + 1), n + 1))
  {
    RowKids(n);
    RowShaped(n, n + 1);
    RowGrows(n);
    PutByte(ops, Row(n), n, n + 1);
  }

  /** Storing [1], [2], ... in turn fills a Node4, then a Node16. */
  lemma {:induction false} RowReached(n: nat)
    requires 2 <= n <= 16
    ensures Reaches(Puts(n), ByteTree(Row(n), n))
  {
    if n == 2 {
      TwoRow();
    } else {
      RowReached(n - 1);
      RowNext(Puts(n - 1), n - 1);
      assert Puts(n - 1) + [Put([n], 0)] == Puts(n);
    }
  }

  // ----- iteration out of order

  lemma OutOfOrderKids(k: Kids, size: int)
    requires ByteKids(k) && k.N16? && !Ascend(k.keys)
    ensures TreeOk(ByteTree(k, size)) && !Chain(Entries(Inner(0, ZEROES, k)), true)
  {
    ByteTreeFits(k, size, 0);
    SortedIffOrdered(Inner(0, ZEROES, k), []);
  }

  /** Storing [1], [2], [3], [4] and [200] leaves a tree that is not walked in byte order. */
  lemma OutOfOrderRun() returns (t: Tree)
    ensures Reaches(Puts(4) + [Put([200], 0)], t) && t.root.Full? && TreeOk(t)
    ensures !Chain(Entries(t.root.node), true)
  {
    var l := Leaf([200], 0);
    RowReached(4);
    RowKids(4);
    RowShaped(4, 200);
    PutByte(Puts(4), Row(4), 4, 200);
    assert Bytes(4) == [1, 2, 3, 4];
    HighByteBreaksOrder(Leaves(4), l);
    OutOfOrderKids(AddChild(Row(4), 200, l), 5);
    t := ByteTree(AddChild(Row(4), 200, l), 5);
  }

  // ----- a copy that loses a key

  /** A Node48 for [1] to [17]: the children stand in the order in which they came. */
  lemma SeventeenKids(k: Kids)
    requires KidsOk(Row(16)) && k == AddChild(Row(16), 17, Leaf([17], 0))
    ensures k.N48? && k.num == 17 && |k.index| == 256 && k.index[1] == 1 && k.index[17] == 17
  {
    var bytes, leaves := Bytes(16), Leaves(16);
    Build48Ok(bytes, leaves);
    FilledSlots(leaves);
    IndexUpToOk(bytes, 16);
    assert bytes[0] == 1;
  }

  lemma FilledSlots(nodes: seq<Node>)
    requires |nodes| < 48
    ensures FirstEmpty(FillSlots(nodes, 48)) == |nodes|
  {
    var slots := FillSlots(nodes, 48);
    assert slots[|nodes|].Empty?;
    assert forall i :: 0 <= i < |nodes| ==> slots[i].Full?;
  }

  lemma RemoveByte(ops: seq<Op>, k: Kids, size: int, c: Byte, junk: nat -> Byte)
    requires ByteKids(k) && !k.N4? && Kid(k, c).Full? && Reaches(ops, ByteTree(k, size))
    ensures ByteKids(RemoveChild(k, c))
    ensures Reaches(ops + [Remove([c], junk)], ByteTree(RemoveChild(k, c), size - 1))
  {
    var n := Inner(0, ZEROES, k);
    ByteTreeFits(k, size, c);
    RemoveChildOk(k, c);
    OneMore(EMPTY, ops, Remove([c], junk));
    assert Delete(n, [c], 0, junk) == Gone(Full(Unlink(n, c)), 0);
  }

  /** In the copy of such a node without its first child, the last byte leads nowhere. */
  lemma LastKidLost(k: Kids)
    requires KidsOk(k) && k.N48? && k.num == 17 && k.index[1] == 1 && k.index[17] == 17
    ensures Kid(k, 1).Full? && Kid(k, 17).Full?
    ensures var k' := RemoveChild(k, 1); k'.N48? && RawKid(CopyKids(k'), 17).Empty?
  {
    var k' := RemoveChild(k, 1);
    assert k' == Drop48(k, 1);
    assert CopyKids(k').slots[16].Empty?;
  }

  lemma SeventeenReached() returns (k: Kids)
    ensures ByteKids(k) && k.N48? && k.num == 17 && k.index[1] == 1 && k.index[17] == 17
    ensures Reaches(Puts(16) + [Put([17], 0)], ByteTree(k, 17))
  {
    RowReached(16);
    RowKids(16);
    RowShaped(16, 17);
    k := AddChild(Row(16), 17, Leaf([17], 0));
    PutByte(Puts(16), Row(16), 16, 17);
    SeventeenKids(k);
  }

  /** The tree holds the key and its copy does not. */
  ghost predicate CopyMisses(t: Tree, key: Key, junk: nat -> Byte) {
    && t.root.Full? && TreeOk(t)
    && Lookup(t.root, key).Some? && RawSearch(CopyNode(t.root.node), key, 0, junk) == None
  }

  lemma ByteMissed(k: Kids, size: int, c: Byte, junk: nat -> Byte)
    requires ByteKids(k) && Kid(k, c).Full? && RawKid(CopyKids(k), c).Empty?
    ensures CopyMisses(ByteTree(k, size), [c], junk)
  {
    var n := Inner(0, ZEROES, k);
    ByteTreeFits(k, size, c);
    assert Get(Leaf([c], 0), [c], 1).Some?;
    RawThrough(CopyNode(n), [c], 0, junk, 0, 1);
  }

  /** Storing [1] to [17] and removing [1] leaves a tree that holds [17] and whose copy does not. */
  lemma LostKeyRun(junk: nat -> Byte) returns (t: Tree)
    ensures Reaches(Puts(16) + [Put([17], 0)] + [Remove([1], junk)], t) && CopyMisses(t, [17], junk)
  {
    var k := SeventeenReached();
    LastKidLost(k);
    RemoveByte(Puts(16) + [Put([17], 0)], k, 17, 1, junk);
    RemoveChildOk(k, 1);
    ByteMissed(RemoveChild(k, 1), 16, 17, junk);
    t := ByteTree(RemoveChild(k, 1), 16);
  }

  // ----- keys visited without the prefix

  lemma UpperReached()
    ensures Wf(UPPER, []) && Reaches([Put(OTHER.key, 12), Put(LEFT.key, 10)] + [Put(RIGHT.key, 11)], Tree(Full(UPPER), 3))
  {
    ExampleWf();
    var two := Fork(2, LEFT.key, 6, OTHER, 5, LEFT);
    PutSecond(OTHER, LEFT.key, 10, 2);
    UpperFork(two);
    UpperPut(two);
    PutNext([Put(OTHER.key, 12), Put(LEFT.key, 10)], Tree(Full(two), 2), RIGHT.key, 11);
  }

  lemma UpperFork(two: Node)
    requires two == Fork(2, LEFT.key, 6, OTHER, 5, LEFT)
    ensures two == Inner(2, UPPER.partial, N4([5, 6], [LEFT, OTHER]))
  {
    assert Position4([6], 5) == 0;
    assert Stored(LEFT.key, 2) == [1, 2];
    assert InsertAt([6], 0, 5) == [5, 6];
    assert InsertAt([OTHER], 0, LEFT) == [LEFT, OTHER];
  }

  lemma LowerFork()
    ensures Fork(2, RIGHT.key[3..], 1, LEFT, 2, RIGHT) == LOWER
  {
    assert Position4([1], 2) == 1;
    assert Stored(RIGHT.key[3..], 2) == [3, 4];
    assert InsertAt([1], 1, 2) == [1, 2];
    assert InsertAt([LEFT], 1, RIGHT) == [LEFT, RIGHT];
  }

  lemma TwoHeld(two: Node, k: Key)
    requires two == Inner(2, UPPER.partial, N4([5, 6], [LEFT, OTHER])) && Solid(two) && Get(two, k, 0).Some?
    ensures k == LEFT.key || k == OTHER.key
  {
    TwoKids(two.kids);
    var l := Kid(two.kids, k[2]).node;
    assert Get(l, k, 3).Some?;
  }

  lemma UpperFits(two: Node)
    requires two == Inner(2, UPPER.partial, N4([5, 6], [LEFT, OTHER]))
    ensures Continues(two, RIGHT.key, 0) && Kid(two.kids, 5) == Full(LEFT)
  {
    var key := RIGHT.key;
    TwoKids(two.kids);
    InnerWf(two, [], [1, 2]);
    forall k: Key | Get(two, k, 0).Some? && k != key
      ensures !(k <= key) && !(key <= k)
    {
      TwoHeld(two, k);
      assert key[2] != OTHER.key[2] && key[5] != LEFT.key[5];
    }
    assert key[..0] == [];
  }

  lemma GoesBelow(n: Node, key: Key, value: Value, depth: nat)
    requires Continues(n, key, depth)
    ensures Insert(n, key, value, depth) == InsertBelow(n, key, value, depth)
  {
    MismatchExact(n, key, depth);
  }

  lemma LeftSplits()
    ensures Wf(LEFT, RIGHT.key[..3]) && Separate(LEFT, RIGHT.key, 3)
    ensures Insert(LEFT, RIGHT.key, 11, 3) == Inserted(LOWER, None)
  {
    LeafSeparate(LEFT, RIGHT.key, 5, 3);
    assert RIGHT.key[..3] == LEFT.key[..3];
    SplitThere(LEFT, RIGHT.key, 11, 3, 5);
    LowerFork();
  }

  lemma UpperPut(two: Node)
    requires two == Inner(2, UPPER.partial, N4([5, 6], [LEFT, OTHER]))
    ensures Fits(Tree(Full(two), 2), RIGHT.key) && TreeInsert(Tree(Full(two), 2), RIGHT.key, 11).0 == Tree(Full(UPPER), 3)
  {
    UpperFits(two);
    GoesBelow(two, RIGHT.key, 11, 0);
    LeftSplits();
    assert RIGHT.key[..0] == [];
    InsertRecurses(two, RIGHT.key, 11, 0, 2, LEFT, 3, Inserted(LOWER, None));
    assert IndexOf([5, 6], 5) == 0;
    assert SetChild(two.kids, 5, LOWER) == UPPER.kids;
  }

  /** The tree visits a key that does not have the prefix. */
  ghost predicate VisitsExtra(t: Tree, prefix: Key, e: Entry, junk: nat -> Byte) {
    t.root.Full? && TreeOk(t) && e in IterPrefix(t.root.node, prefix, 0, junk) && !(prefix <= e.key)
  }

  /** A mismatch further up is not looked back at: [1, 2, 5, 3, 4, 1] is visited for [1, 9, 5, 3]. */
  lemma SkippedByteRun(junk: nat -> Byte)
    ensures Reaches([Put(OTHER.key, 12), Put(LEFT.key, 10)] + [Put(RIGHT.key, 11)], Tree(Full(UPPER), 3))
    ensures VisitsExtra(Tree(Full(UPPER), 3), [1, 9, 5, 3], Entry(LEFT.key, LEFT.value), junk)
  {
    UpperReached();
    ExtraKeyVisited(junk);
  }

  const SEVENS: Key := [7, 7, 7, 7, 7, 7, 7, 7, 7, 7, 7]
  const SMALLER := Leaf(SEVENS + [1], 1)
  const LARGER := Leaf(SEVENS + [2], 2)
  const LONG := Fork(11, LARGER.key, 1, SMALLER, 2, LARGER)

  lemma LongFork()
    ensures LONG.kids == N4([1, 2], [SMALLER, LARGER]) && LONG.partial == SEVENS[..10]
    ensures Wf(LONG, []) && Minimum(LONG) == SMALLER
  {
    assert Position4([1], 2) == 1;
    assert InsertAt([1], 1, 2) == [1, 2];
    assert InsertAt([SMALLER], 1, LARGER) == [SMALLER, LARGER];
    assert Stored(LARGER.key, 11) == SEVENS[..10];
    TwoKids(LONG.kids);
    InnerWf(LONG, [], SEVENS);
    assert FirstByte(LONG.kids) == 1;
  }

  lemma Overshoots(prefix: Key)
    requires prefix == SMALLER.key && LONG.partial == SEVENS[..10] && Solid(LONG) && Minimum(LONG) == SMALLER
    ensures Followed(LONG, prefix, 0) == 12
  {
    var stored := LONG.partial[..10];
    assert prefix[0..] == prefix;
    assert CommonLen(stored, prefix) == 10;
    CommonEnd(prefix[10..], prefix[10..]);
  }

  /** A path longer than ten bytes is compared with the smallest leaf past its own end: the key that
      ends in 2 is visited for the one that ends in 1. */
  lemma OvershotRun(junk: nat -> Byte)
    ensures Reaches([Put(SMALLER.key, 1), Put(LARGER.key, 2)], Tree(Full(LONG), 2))
    ensures VisitsExtra(Tree(Full(LONG), 2), SMALLER.key, Entry(LARGER.key, 2), junk)
  {
    PutSecond(SMALLER, LARGER.key, 2, 11);
    LongFork();
    Overshoots(SMALLER.key);
    EntriesEnds(LONG);
    KidAt(LONG.kids, 1);
    assert Maximum(LONG) == LARGER;
    assert SMALLER.key[11] != LARGER.key[11];
  }
}
