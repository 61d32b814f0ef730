/**
 The four node layouts of the adaptive radix tree: how a child is found, added, replaced and
 removed in each, and how a node changes layout when it fills up or empties.
 */
module ArtKids {
  import opened Basics

  type Key = seq<Byte>

  type Value = nat

  /** Inner nodes store the length of their compressed path but at most ten of its bytes. */
  const MAX_PREFIX_LEN := 10

  datatype Node =
    | Leaf(key: Key, value: Value)
    | Inner(partialLen: nat, partial: seq<Byte>, kids: Kids)

  datatype Slot = Empty | Full(node: Node)

  datatype Kids =
    | N4(keys: seq<Byte>, nodes: seq<Node>)
    | N16(keys: seq<Byte>, nodes: seq<Node>)
    | N48(index: seq<nat>, slots: seq<Slot>, num: nat)
    | N256(slots: seq<Slot>, num: nat)

  // ----- well-formed layouts

  predicate Distinct(keys: seq<Byte>) {
    forall i, j :: 0 <= i < j < |keys| ==> keys[i] != keys[j]
  }

  function Used(slots: seq<Slot>): set<nat> {
    set i: nat | i < |slots| && slots[i].Full?
  }

  /** The bytes that have a child. */
  function Present(k: Kids): (r: set<Byte>)
    requires Shaped(k)
    ensures forall c: Byte :: c in r <==> Kid(k, c).Full?
  {
    set c: Byte | 0 <= c < 256 && Kid(k, c).Full?
  }

  /** Array sizes are as declared and every reference within bounds. */
  predicate Shaped(k: Kids) {
    match k
    case N4(keys, nodes) => |keys| == |nodes| <= 4 && Distinct(keys)
    case N16(keys, nodes) => |keys| == |nodes| <= 16 && Distinct(keys)
    case N48(index, slots, num) =>
      && |index| == 256 && |slots| == 48
      && (forall c :: 0 <= c < 256 ==> index[c] <= 48 && (index[c] != 0 ==> slots[index[c] - 1].Full?))
      && (forall c, d :: 0 <= c < d < 256 && index[c] == index[d] ==> index[c] == 0)
    case N256(slots, num) => |slots| == 256
  }

  /** The stored child count is right; in the widest layout it is kept in one byte. */
  predicate Counted(k: Kids)
    requires Shaped(k)
  {
    match k
    case N48(index, slots, num) => num == |Present(k)| == |Used(slots)|
    case N256(slots, num) => num == |Present(k)| % 256
    case _ => true
  }

  /** A layout holds fewer children than it is shrunk at and no more than fit. */
  predicate Sized(k: Kids)
    requires Shaped(k)
  {
    match k
    case N4(keys, _) => 2 <= |keys|
    case N16(keys, _) => 4 <= |keys|
    case N48(_, _, _) => 13 <= |Present(k)|
    case N256(_, _) => 38 <= |Present(k)|
  }

  predicate KidsOk(k: Kids) {
    Shaped(k) && Counted(k)
  }

  // ----- finding

  /** The first position that holds `c`, or the length. */
  function IndexOf(keys: seq<Byte>, c: Byte): (i: nat)
    ensures i <= |keys|
    ensures i < |keys| ==> keys[i] == c
    ensures forall j :: 0 <= j < i ==> keys[j] != c
  {
    IndexFrom(keys, c, 0)
  }

  function IndexFrom(keys: seq<Byte>, c: Byte, i: nat): (r: nat)
    requires i <= |keys|
    ensures i <= r <= |keys|
    ensures r < |keys| ==> keys[r] == c
    ensures forall j :: i <= j < r ==> keys[j] != c
    decreases |keys| - i
  {
    if i == |keys| || keys[i] == c then i else IndexFrom(keys, c, i + 1)
  }

  /** Lookup in a list of keys beside a list of children. */
  function ListKid(keys: seq<Byte>, nodes: seq<Node>, c: Byte): (s: Slot)
    requires |keys| == |nodes|
    ensures s.Full? ==> (nodes decreases to s.node)
  {
    var i := IndexOf(keys, c); if i < |keys| then Full(nodes[i]) else Empty
  }

  function Kid(k: Kids, c: Byte): (s: Slot)
    requires Shaped(k)
    ensures s.Full? ==> (k decreases to s.node)
  {
    match k
    case N4(keys, nodes) => ListKid(keys, nodes, c)
    case N16(keys, nodes) => ListKid(keys, nodes, c)
    case N48(index, slots, _) => if index[c] != 0 then slots[index[c] - 1] else Empty
    case N256(slots, _) => slots[c]
  }

  lemma KidAt(k: Kids, i: nat)
    requires Shaped(k) && (k.N4? || k.N16?) && i < |k.keys|
    ensures Kid(k, k.keys[i]) == Full(k.nodes[i])
  {
    var j := IndexOf(k.keys, k.keys[i]);
  }

  /** The lookups of `k'` are those of `k`, except that `c` now leads to `s`. */
  ghost predicate Changed(k: Kids, k': Kids, c: Byte, s: Slot)
    requires Shaped(k) && Shaped(k')
  {
    forall d: Byte :: Kid(k', d) == if d == c then s else Kid(k, d)
  }

  ghost predicate SameKids(k: Kids, k': Kids)
    requires Shaped(k) && Shaped(k')
  {
    forall d: Byte :: Kid(k', d) == Kid(k, d)
  }

  lemma SamePresent(k: Kids, k': Kids)
    requires Shaped(k) && Shaped(k') && SameKids(k, k')
    ensures Present(k) == Present(k')
  {
  }

  lemma ChangedPresent(k: Kids, k': Kids, c: Byte, s: Slot)
    requires Shaped(k) && Shaped(k') && Changed(k, k', c, s)
    ensures s.Full? && Kid(k, c).Empty? ==> |Present(k')| == |Present(k)| + 1
    ensures s.Empty? && Kid(k, c).Full? ==> |Present(k')| == |Present(k)| - 1
    ensures s.Full? && Kid(k, c).Full? ==> |Present(k')| == |Present(k)|
  {
    var p, p' := Present(k), Present(k');
    PresentAfter(p, p', c, s.Full?);
  }

  lemma PresentAfter(p: set<Byte>, p': set<Byte>, c: Byte, full: bool)
    requires forall d: Byte :: d in p' <==> if d == c then full else d in p
    ensures full && c !in p ==> |p'| == |p| + 1
    ensures !full && c in p ==> |p'| == |p| - 1
    ensures full && c in p ==> |p'| == |p|
  {
    assert p' == if full then p + {c} else p - {c};
  }

  // ----- counting

  /** The numbers below `n`. */
  function Below(n: nat): (r: set<nat>)
    ensures |r| == n
    ensures forall i: nat :: i in r <==> i < n
  {
    if n == 0 then {} else Below(n - 1) + {n - 1}
  }

  lemma DistinctSize(keys: seq<Byte>)
    requires Distinct(keys)
    ensures |set c: Byte | c in keys| == |keys|
  {
    if keys == [] {
      assert (set c: Byte | c in keys) == {};
    } else {
      assert Distinct(keys[1..]);
      DistinctSize(keys[1..]);
      assert keys[0] !in keys[1..];
      assert (set c: Byte | c in keys) == (set c: Byte | c in keys[1..]) + {keys[0]};
    }
  }

  lemma ListedPresent(k: Kids)
    requires Shaped(k) && (k.N4? || k.N16?)
    ensures Present(k) == (set c: Byte | c in k.keys)
    ensures |Present(k)| == |k.keys|
  {
    forall c: Byte
      ensures c in Present(k) <==> c in k.keys
    {
      if c in k.keys {
        var i :| 0 <= i < |k.keys| && k.keys[i] == c;
        KidAt(k, i);
      }
    }
    DistinctSize(k.keys);
  }

  // ----- adding

  function InsertAt<T>(xs: seq<T>, i: nat, x: T): (r: seq<T>)
    requires i <= |xs|
    ensures |r| == |xs| + 1
  {
    xs[..i] + [x] + xs[i..]
  }

  /** Node4 keeps its keys sorted by unsigned comparison. */
  function Position4(keys: seq<Byte>, c: Byte): (i: nat)
    ensures i <= |keys|
    ensures forall j :: 0 <= j < i ==> keys[j] <= c
    ensures i < |keys| ==> c < keys[i]
  {
    PositionFrom(keys, c, 0, false)
  }

  /** The first position from `i` on whose key is larger than `c`, read as signed or not. */
  function PositionFrom(keys: seq<Byte>, c: Byte, i: nat, signed: bool): (r: nat)
    requires i <= |keys|
    ensures i <= r <= |keys|
    ensures forall j :: i <= j < r ==> !Larger(keys[j], c, signed)
    ensures r < |keys| ==> Larger(keys[r], c, signed)
    decreases |keys| - i
  {
    if i == |keys| || Larger(keys[i], c, signed) then i else PositionFrom(keys, c, i + 1, signed)
  }

  predicate Larger(b: Byte, c: Byte, signed: bool) {
    if signed then Signed(c) < Signed(b) else c < b
  }

  /** A byte as the vector comparison of Node16 reads it. */
  function Signed(b: Byte): int {
    if b < 128 then b else b - 256
  }

  function Position16(keys: seq<Byte>, c: Byte): (i: nat)
    ensures i <= |keys|
    ensures forall j :: 0 <= j < i ==> Signed(keys[j]) <= Signed(c)
    ensures i < |keys| ==> Signed(c) < Signed(keys[i])
  {
    PositionFrom(keys, c, 0, true)
  }

  /** The key map of a Node48 whose children come from a list of keys. */
  function IndexUpTo(keys: seq<Byte>, j: nat): (r: seq<nat>)
    requires j <= |keys|
    ensures |r| == 256
  {
    if j == 0 then seq(256, _ => 0) else IndexUpTo(keys, j - 1)[keys[j - 1] := j]
  }

  function FillSlots(nodes: seq<Node>, n: nat): (r: seq<Slot>)
    requires |nodes| <= n
    ensures |r| == n
  {
    seq(n, i requires 0 <= i < n => if i < |nodes| then Full(nodes[i]) else Empty)
  }

  function Build48(keys: seq<Byte>, nodes: seq<Node>): Kids
    requires |keys| == |nodes| <= 48
  {
    N48(IndexUpTo(keys, |keys|), FillSlots(nodes, 48), |keys|)
  }

  function Build256(k: Kids): Kids
    requires Shaped(k) && k.N48?
  {
    N256(seq(256, c requires 0 <= c < 256 => Kid(k, c)), k.num % 256)
  }

  function FirstEmpty(slots: seq<Slot>): (i: nat)
    ensures i <= |slots|
    ensures i < |slots| ==> slots[i].Empty?
    ensures forall j :: 0 <= j < i ==> slots[j].Full?
  {
    EmptyFrom(slots, 0)
  }

  function EmptyFrom(slots: seq<Slot>, i: nat): (r: nat)
    requires i <= |slots|
    ensures i <= r <= |slots|
    ensures r < |slots| ==> slots[r].Empty?
    ensures forall j :: i <= j < r ==> slots[j].Full?
    decreases |slots| - i
  {
    if i == |slots| || slots[i].Empty? then i else EmptyFrom(slots, i + 1)
  }

  function AddChild256(k: Kids, c: Byte, n: Node): Kids
    requires Shaped(k) && k.N256?
  {
    N256(k.slots[c := Full(n)], (k.num + 1) % 256)
  }

  function AddChild48(k: Kids, c: Byte, n: Node): Kids
    requires Shaped(k) && k.N48?
    requires k.num < 48 ==> FirstEmpty(k.slots) < 48
  {
    if k.num < 48 then
      var pos := FirstEmpty(k.slots);
      N48(k.index[c := pos + 1], k.slots[pos := Full(n)], k.num + 1)
    else
      AddChild256(Build256(k), c, n)
  }

  function AddChild16(k: Kids, c: Byte, n: Node): Kids
    requires Shaped(k) && k.N16?
  {
    if |k.keys| < 16 then
      var i := Position16(k.keys, c);
      N16(InsertAt(k.keys, i, c), InsertAt(k.nodes, i, n))
    else
      Build48Ok(k.keys, k.nodes);
      EmptySlotExists(Build48(k.keys, k.nodes));
      AddChild48(Build48(k.keys, k.nodes), c, n)
  }

  /** A Node4 with room takes the child at its sorted place. */
  function AddSorted(k: Kids, c: Byte, n: Node): Kids
    requires Shaped(k) && k.N4?
  {
    var i := Position4(k.keys, c);
    N4(InsertAt(k.keys, i, c), InsertAt(k.nodes, i, n))
  }

  function AddChild4(k: Kids, c: Byte, n: Node): Kids
    requires Shaped(k) && k.N4?
  {
    if |k.keys| < 4 then
      AddSorted(k, c, n)
    else
      AddChild16(N16(k.keys, k.nodes), c, n)
  }

  function AddChild(k: Kids, c: Byte, n: Node): Kids
    requires KidsOk(k)
  {
    match k
    case N4(_, _) => AddChild4(k, c, n)
    case N16(_, _) => AddChild16(k, c, n)
    case N48(_, _, _) => EmptySlotExists(k); AddChild48(k, c, n)
    case N256(_, _) => AddChild256(k, c, n)
  }

  lemma EmptySlotExists(k: Kids)
    requires Shaped(k) && k.N48? && Counted(k)
    ensures k.num < 48 ==> FirstEmpty(k.slots) < 48
  {
    if FirstEmpty(k.slots) == 48 {
      assert Used(k.slots) == Below(48);
    }
  }

  lemma {:induction false} IndexUpToOk(keys: seq<Byte>, j: nat)
    requires j <= |keys| && Distinct(keys)
    ensures forall c: Byte :: IndexUpTo(keys, j)[c] <= j
    ensures forall i :: 0 <= i < j ==> IndexUpTo(keys, j)[keys[i]] == i + 1
    ensures forall c: Byte :: IndexUpTo(keys, j)[c] != 0 ==> keys[IndexUpTo(keys, j)[c] - 1] == c
  {
    if j != 0 {
      IndexUpToOk(keys, j - 1);
    }
  }

  lemma Build48Shaped(keys: seq<Byte>, nodes: seq<Node>)
    requires |keys| == |nodes| <= 48 && Distinct(keys)
    ensures Shaped(Build48(keys, nodes))
  {
    IndexUpToOk(keys, |keys|);
  }

  lemma Build48Kid(keys: seq<Byte>, nodes: seq<Node>, c: Byte)
    requires |keys| == |nodes| <= 48 && Distinct(keys) && Shaped(Build48(keys, nodes))
    ensures Kid(Build48(keys, nodes), c) == ListKid(keys, nodes, c)
  {
    IndexUpToOk(keys, |keys|);
    var i := IndexOf(keys, c);
  }

  lemma FilledUsed(nodes: seq<Node>, n: nat)
    requires |nodes| <= n
    ensures Used(FillSlots(nodes, n)) == Below(|nodes|)
  {
  }

  lemma Build48Present(keys: seq<Byte>, nodes: seq<Node>)
    requires |keys| == |nodes| <= 48 && Distinct(keys) && Shaped(Build48(keys, nodes))
    ensures |Present(Build48(keys, nodes))| == |keys|
  {
    var p, q := Present(Build48(keys, nodes)), set c: Byte | c in keys;
    forall c: Byte
      ensures c in p <==> c in q
    {
      Build48Kid(keys, nodes, c);
    }
    assert p == q;
    DistinctSize(keys);
  }

  lemma Build48Ok(keys: seq<Byte>, nodes: seq<Node>)
    requires |keys| == |nodes| <= 48 && Distinct(keys)
    ensures KidsOk(Build48(keys, nodes))
    ensures forall c: Byte :: Kid(Build48(keys, nodes), c) == ListKid(keys, nodes, c)
    ensures |Present(Build48(keys, nodes))| == |keys|
  {
    Build48Shaped(keys, nodes);
    Build48Present(keys, nodes);
    FilledUsed(nodes, 48);
    forall c: Byte
      ensures Kid(Build48(keys, nodes), c) == ListKid(keys, nodes, c)
    {
      Build48Kid(keys, nodes, c);
    }
  }

  lemma Build256Ok(k: Kids)
    requires KidsOk(k) && k.N48?
    ensures KidsOk(Build256(k)) && SameKids(k, Build256(k))
  {
    SamePresent(k, Build256(k));
  }

  lemma IndexUnique(keys: seq<Byte>, j: nat)
    requires Distinct(keys) && j < |keys|
    ensures IndexOf(keys, keys[j]) == j
  {
  }

  lemma InsertedDistinct(keys: seq<Byte>, i: nat, c: Byte)
    requires i <= |keys| && Distinct(keys) && c !in keys
    ensures Distinct(InsertAt(keys, i, c))
  {
  }

  lemma InsertedIndex(keys: seq<Byte>, i: nat, c: Byte, d: Byte)
    requires i <= |keys| && Distinct(keys) && c !in keys && Distinct(InsertAt(keys, i, c))
    ensures var j, j' := IndexOf(keys, d), IndexOf(InsertAt(keys, i, c), d);
            if d == c then j' == i else if j < |keys| then j' == (if j < i then j else j + 1) else j' == |keys| + 1
  {
    var keys' := InsertAt(keys, i, c);
    var j := IndexOf(keys, d);
    if d == c {
      IndexUnique(keys', i);
    } else if j < |keys| {
      assert keys'[if j < i then j else j + 1] == d;
      IndexUnique(keys', if j < i then j else j + 1);
    } else {
      assert d !in keys';
    }
  }

  lemma ListAddOk(keys: seq<Byte>, nodes: seq<Node>, c: Byte, n: Node, i: nat)
    requires |keys| == |nodes| && Distinct(keys) && ListKid(keys, nodes, c).Empty? && i <= |keys|
    ensures Distinct(InsertAt(keys, i, c))
    ensures forall d: Byte ::
              ListKid(InsertAt(keys, i, c), InsertAt(nodes, i, n), d) == if d == c then Full(n) else ListKid(keys, nodes, d)
  {
    InsertedDistinct(keys, i, c);
    forall d: Byte
      ensures ListKid(InsertAt(keys, i, c), InsertAt(nodes, i, n), d) == if d == c then Full(n) else ListKid(keys, nodes, d)
    {
      InsertedIndex(keys, i, c, d);
    }
  }

  lemma AddChild256Ok(k: Kids, c: Byte, n: Node)
    requires KidsOk(k) && k.N256? && Kid(k, c).Empty?
    ensures KidsOk(AddChild256(k, c, n)) && Changed(k, AddChild256(k, c, n), c, Full(n))
  {
    var k' := AddChild256(k, c, n);
    assert Changed(k, k', c, Full(n));
    ChangedPresent(k, k', c, Full(n));
  }

  lemma AddChild48Ok(k: Kids, c: Byte, n: Node)
    requires KidsOk(k) && k.N48? && Kid(k, c).Empty?
    requires k.num < 48 ==> FirstEmpty(k.slots) < 48
    ensures KidsOk(AddChild48(k, c, n)) && Changed(k, AddChild48(k, c, n), c, Full(n))
  {
    if k.num < 48 {
      AddSlotOk(k, c, n);
    } else {
      Build256Ok(k);
      AddChild256Ok(Build256(k), c, n);
    }
  }

  lemma AddSlotShaped(k: Kids, c: Byte, n: Node)
    requires Shaped(k) && k.N48? && k.index[c] == 0 && k.num < 48 && FirstEmpty(k.slots) < 48
    ensures Shaped(AddChild48(k, c, n)) && Changed(k, AddChild48(k, c, n), c, Full(n))
  {
  }

  lemma AddSlotOk(k: Kids, c: Byte, n: Node)
    requires KidsOk(k) && k.N48? && Kid(k, c).Empty? && k.num < 48 && FirstEmpty(k.slots) < 48
    ensures KidsOk(AddChild48(k, c, n)) && Changed(k, AddChild48(k, c, n), c, Full(n))
  {
    var k' := AddChild48(k, c, n);
    AddSlotShaped(k, c, n);
    ChangedPresent(k, k', c, Full(n));
    UsedAfter(k.slots, FirstEmpty(k.slots), Full(n));
  }

  lemma UsedAfter(slots: seq<Slot>, i: nat, s: Slot)
    requires i < |slots|
    ensures s.Full? && slots[i].Empty? ==> |Used(slots[i := s])| == |Used(slots)| + 1
    ensures s.Empty? && slots[i].Full? ==> |Used(slots[i := s])| == |Used(slots)| - 1
    ensures s.Full? && slots[i].Full? ==> |Used(slots[i := s])| == |Used(slots)|
  {
    var u, u' := Used(slots), Used(slots[i := s]);
    assert u' == if s.Full? then u + {i} else u - {i};
  }

  lemma AddChild16Ok(k: Kids, c: Byte, n: Node)
    requires Shaped(k) && k.N16? && Kid(k, c).Empty?
    ensures KidsOk(AddChild16(k, c, n)) && Changed(k, AddChild16(k, c, n), c, Full(n))
  {
    if |k.keys| < 16 {
      ListAddOk(k.keys, k.nodes, c, n, Position16(k.keys, c));
    } else {
      var k48 := Build48(k.keys, k.nodes);
      Build48Ok(k.keys, k.nodes);
      EmptySlotExists(k48);
      AddChild48Ok(k48, c, n);
      assert SameKids(k, k48);
    }
  }

  /** Adding a child gives exactly that child to its byte, whatever layout the node moves to, and
      the new layout is within its bounds. */
  lemma AddChildOk(k: Kids, c: Byte, n: Node)
    requires KidsOk(k) && Kid(k, c).Empty?
    ensures KidsOk(AddChild(k, c, n)) && Changed(k, AddChild(k, c, n), c, Full(n))
    ensures |Present(AddChild(k, c, n))| == |Present(k)| + 1
    ensures Sized(k) ==> Sized(AddChild(k, c, n))
  {
    match k {
      case N4(keys, nodes) =>
        if |keys| < 4 {
          ListAddOk(keys, nodes, c, n, Position4(keys, c));
        } else {
          assert SameKids(k, N16(keys, nodes));
          AddChild16Ok(N16(keys, nodes), c, n);
        }
        ListedPresent(k);
      case N16(keys, nodes) =>
        AddChild16Ok(k, c, n);
        ListedPresent(k);
      case N48(_, _, _) =>
        EmptySlotExists(k);
        AddChild48Ok(k, c, n);
      case N256(_, _) => AddChild256Ok(k, c, n);
    }
    ChangedPresent(k, AddChild(k, c, n), c, Full(n));
  }

  // ----- replacing

  /** Writing through the pointer that the lookup returned. */
  function SetChild(k: Kids, c: Byte, n: Node): Kids
    requires Shaped(k) && Kid(k, c).Full?
  {
    match k
    case N4(keys, nodes) => N4(keys, nodes[IndexOf(keys, c) := n])
    case N16(keys, nodes) => N16(keys, nodes[IndexOf(keys, c) := n])
    case N48(index, slots, num) => N48(index, slots[index[c] - 1 := Full(n)], num)
    case N256(slots, num) => N256(slots[c := Full(n)], num)
  }

  lemma SetChildOk(k: Kids, c: Byte, n: Node)
    requires KidsOk(k) && Kid(k, c).Full?
    ensures KidsOk(SetChild(k, c, n)) && Changed(k, SetChild(k, c, n), c, Full(n))
    ensures |Present(SetChild(k, c, n))| == |Present(k)|
    ensures Sized(k) ==> Sized(SetChild(k, c, n))
  {
    var k' := SetChild(k, c, n);
    assert Shaped(k');
    forall d: Byte
      ensures Kid(k', d) == if d == c then Full(n) else Kid(k, d)
    {
      if (k.N4? || k.N16?) && IndexOf(k.keys, d) < |k.keys| && d != c {
        assert IndexOf(k.keys, d) != IndexOf(k.keys, c);
      }
    }
    ChangedPresent(k, k', c, Full(n));
    if k.N48? {
      UsedAfter(k.slots, k.index[c] - 1, Full(n));
    }
  }

  // ----- removing

  function RemoveAt<T>(xs: seq<T>, i: nat): (r: seq<T>)
    requires i < |xs|
    ensures |r| == |xs| - 1
  {
    xs[..i] + xs[i + 1..]
  }

  /** The bytes from `c` on that have a child, in increasing order. */
  function Ascending(k: Kids, c: nat): (r: seq<Byte>)
    requires Shaped(k) && c <= 256
    ensures forall i :: 0 <= i < |r| ==> c <= r[i] && Kid(k, r[i]).Full?
    ensures forall i, j :: 0 <= i < j < |r| ==> r[i] < r[j]
    decreases k, 256 - c
  {
    if c == 256 then []
    else if Kid(k, c).Full? then [c as Byte] + Ascending(k, c + 1)
    else Ascending(k, c + 1)
  }

  lemma {:induction false} AscendingHas(k: Kids, c: nat, b: Byte)
    requires Shaped(k) && c <= b && Kid(k, b).Full?
    ensures b in Ascending(k, c)
    decreases 256 - c
  {
    if c == b {
      assert Ascending(k, c)[0] == b;
    } else {
      AscendingHas(k, c + 1, b);
    }
  }

  function NodesOf(k: Kids, cs: seq<Byte>): (r: seq<Node>)
    requires Shaped(k) && forall c :: c in cs ==> Kid(k, c).Full?
    ensures |r| == |cs|
  {
    seq(|cs|, i requires 0 <= i < |cs| => Kid(k, cs[i]).node)
  }

  lemma AscendingOk(k: Kids)
    requires Shaped(k)
    ensures Distinct(Ascending(k, 0)) && |Ascending(k, 0)| == |Present(k)|
    ensures forall c: Byte :: ListKid(Ascending(k, 0), NodesOf(k, Ascending(k, 0)), c) == Kid(k, c)
  {
    var cs := Ascending(k, 0);
    forall c: Byte | Kid(k, c).Full? ensures c in cs { AscendingHas(k, 0, c); }
    AscendingSize(k, cs);
    forall c: Byte
      ensures ListKid(cs, NodesOf(k, cs), c) == Kid(k, c)
    {
      AscendingKid(k, cs, c);
    }
  }

  lemma AscendingSize(k: Kids, cs: seq<Byte>)
    requires Shaped(k) && Distinct(cs) && forall c: Byte :: c in cs <==> Kid(k, c).Full?
    ensures |cs| == |Present(k)|
  {
    DistinctSize(cs);
    assert Present(k) == (set c: Byte | c in cs);
  }

  lemma AscendingKid(k: Kids, cs: seq<Byte>, c: Byte)
    requires Shaped(k) && forall c: Byte :: c in cs <==> Kid(k, c).Full?
    ensures ListKid(cs, NodesOf(k, cs), c) == Kid(k, c)
  {
    var i := IndexOf(cs, c);
    assert i == |cs| ==> c !in cs;
  }

  /** Small nodes drop the child from both lists; the position is that of the looked-up child. */
  function RemoveChild(k: Kids, c: Byte): Kids
    requires KidsOk(k) && Kid(k, c).Full?
  {
    match k
    case N4(keys, nodes) =>
      var i := IndexOf(keys, c);
      N4(RemoveAt(keys, i), RemoveAt(nodes, i))
    case N16(keys, nodes) =>
      var i := IndexOf(keys, c);
      var keys', nodes' := RemoveAt(keys, i), RemoveAt(nodes, i);
      if |keys'| == 3 then N4(keys', nodes') else N16(keys', nodes')
    case N48(index, slots, num) =>
      var k' := Drop48(k, c);
      if k'.num == 12 then
        var cs := Ascending(k', 0);
        N16(cs, NodesOf(k', cs))
      else k'
    case N256(slots, num) =>
      var k' := Drop256(k, c);
      if k'.num == 37 then
        var cs := Ascending(k', 0);
        Drop256Ok(k, c);
        AscendingOk(k');
        Build48(cs, NodesOf(k', cs))
      else k'
  }

  function Drop48(k: Kids, c: Byte): (k': Kids)
    requires KidsOk(k) && k.N48? && Kid(k, c).Full?
    ensures Shaped(k')
  {
    assert c in Present(k);
    N48(k.index[c := 0], k.slots[k.index[c] - 1 := Empty], k.num - 1)
  }

  function Drop256(k: Kids, c: Byte): (k': Kids)
    requires KidsOk(k) && k.N256? && Kid(k, c).Full?
    ensures Shaped(k')
  {
    N256(k.slots[c := Empty], (k.num + 255) % 256)
  }

  lemma Drop48Ok(k: Kids, c: Byte)
    requires KidsOk(k) && k.N48? && Kid(k, c).Full?
    ensures KidsOk(Drop48(k, c)) && Changed(k, Drop48(k, c), c, Empty)
    ensures |Present(Drop48(k, c))| == |Present(k)| - 1
  {
    assert Changed(k, Drop48(k, c), c, Empty);
    ChangedPresent(k, Drop48(k, c), c, Empty);
    UsedAfter(k.slots, k.index[c] - 1, Empty);
  }

  lemma Drop256Ok(k: Kids, c: Byte)
    requires KidsOk(k) && k.N256? && Kid(k, c).Full?
    ensures KidsOk(Drop256(k, c)) && Changed(k, Drop256(k, c), c, Empty)
    ensures |Present(Drop256(k, c))| == |Present(k)| - 1
    ensures Drop256(k, c).num == 37 ==> |Present(Drop256(k, c))| == 37
  {
    assert Changed(k, Drop256(k, c), c, Empty);
    ChangedPresent(k, Drop256(k, c), c, Empty);
    PresentBound(Drop256(k, c));
  }

  lemma PresentBound(k: Kids)
    requires Shaped(k)
    ensures |Present(k)| <= 256
  {
    SubsetSize<int>(Present(k), Below(256));
  }

  lemma RemovedIndex(keys: seq<Byte>, i: nat, d: Byte)
    requires i < |keys| && Distinct(keys)
    ensures Distinct(RemoveAt(keys, i))
    ensures var j, j' := IndexOf(keys, d), IndexOf(RemoveAt(keys, i), d);
            if d == keys[i] || j == |keys| then j' == |keys| - 1 else j' == if j < i then j else j - 1
  {
    var keys' := RemoveAt(keys, i);
    assert forall j :: 0 <= j < |keys'| ==> keys'[j] == if j < i then keys[j] else keys[j + 1];
    var j := IndexOf(keys, d);
    if d == keys[i] || j == |keys| {
      assert d !in keys';
    } else {
      assert j != i;
      IndexUnique(keys', if j < i then j else j - 1);
    }
  }

  lemma ListRemoveOk(keys: seq<Byte>, nodes: seq<Node>, c: Byte)
    requires |keys| == |nodes| && Distinct(keys) && ListKid(keys, nodes, c).Full?
    ensures var i := IndexOf(keys, c);
            && Distinct(RemoveAt(keys, i))
            && forall d: Byte ::
                 ListKid(RemoveAt(keys, i), RemoveAt(nodes, i), d) == if d == c then Empty else ListKid(keys, nodes, d)
  {
    var i := IndexOf(keys, c);
    RemovedIndex(keys, i, c);
    forall d: Byte
      ensures ListKid(RemoveAt(keys, i), RemoveAt(nodes, i), d) == if d == c then Empty else ListKid(keys, nodes, d)
    {
      RemovedIndex(keys, i, d);
    }
  }

  /** Removing takes exactly the one child away, in whatever layout the node ends up; unless it was
      a Node4 with two children, the result is again within the bounds of its layout. */
  lemma RemoveChildOk(k: Kids, c: Byte)
    requires KidsOk(k) && Kid(k, c).Full? && Sized(k)
    ensures KidsOk(RemoveChild(k, c)) && Changed(k, RemoveChild(k, c), c, Empty)
    ensures |Present(RemoveChild(k, c))| == |Present(k)| - 1
    ensures Sized(RemoveChild(k, c)) || (k.N4? && |k.keys| == 2 && RemoveChild(k, c).N4?)
  {
    var k' := RemoveChild(k, c);
    match k {
      case N4(keys, nodes) => ListRemoveOk(keys, nodes, c);
      case N16(keys, nodes) => ListRemoveOk(keys, nodes, c);
      case N48(_, _, _) => Remove48Ok(k, c);
      case N256(_, _) => Remove256Ok(k, c);
    }
    ChangedPresent(k, k', c, Empty);
  }

  lemma Remove48Ok(k: Kids, c: Byte)
    requires KidsOk(k) && k.N48? && Kid(k, c).Full? && Sized(k)
    ensures KidsOk(RemoveChild(k, c)) && Changed(k, RemoveChild(k, c), c, Empty) && Sized(RemoveChild(k, c))
  {
    Drop48Ok(k, c);
    AscendingOk(Drop48(k, c));
  }

  lemma Remove256Ok(k: Kids, c: Byte)
    requires KidsOk(k) && k.N256? && Kid(k, c).Full? && Sized(k)
    ensures KidsOk(RemoveChild(k, c)) && Changed(k, RemoveChild(k, c), c, Empty) && Sized(RemoveChild(k, c))
  {
    Drop256Ok(k, c);
    var k' := Drop256(k, c);
    if k'.num == 37 {
      AscendingOk(k');
      var cs := Ascending(k', 0);
      Build48Ok(cs, NodesOf(k', cs));
    } else {
      PresentBound(k);
    }
  }
}
