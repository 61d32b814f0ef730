/**
 Copying a tree. The copy of a Node48 takes only the first `num` child slots, so it is a tree
 again exactly if no Node48 has holes among them; inserting never makes any.
 */
module ArtCopy {
  import opened Basics
  import opened ArtKids
  import opened Art
  import opened ArtMap

  function CopyNode(n: Node): (r: Node)
    decreases n, 0
  {
    match n
    case Leaf(_, _) => n
    case Inner(len, partial, kids) =>
      var m := MinOf(MAX_PREFIX_LEN, len);
      Inner(len, if m <= |partial| then Overwrite(ZEROES, partial[..m]) else partial, CopyKids(kids))
  }

  function CopySlot(s: Slot): Slot
    decreases s, 1
  {
    if s.Full? then Full(CopyNode(s.node)) else Empty
  }

  function CopyKids(k: Kids): (r: Kids)
    decreases k, 2
  {
    match k
    case N4(keys, nodes) => N4(keys, CopyNodes(nodes, |nodes|))
    case N16(keys, nodes) => N16(keys, CopyNodes(nodes, |nodes|))
    case N48(index, slots, num) => N48(index, CopySlots(slots, num), num)
    case N256(slots, num) => N256(CopySlots(slots, 256), num)
  }

  /** The first `n` children, in order. */
  function CopyNodes(nodes: seq<Node>, n: nat): (r: seq<Node>)
    requires n <= |nodes|
    ensures |r| == n && forall i :: 0 <= i < n ==> r[i] == CopyNode(nodes[i])
    decreases nodes, 1, n
  {
    if n == 0 then [] else CopyNodes(nodes, n - 1) + [CopyNode(nodes[n - 1])]
  }

  /** The first `n` slots; the rest of a new node is empty. */
  function CopySlots(slots: seq<Slot>, n: nat): (r: seq<Slot>)
    ensures |r| == |slots| && forall i :: 0 <= i < |slots| ==> r[i] == if i < n then CopySlot(slots[i]) else Empty
    decreases slots
  {
    seq(|slots|, i requires 0 <= i < |slots| => if i < n then CopySlot(slots[i]) else Empty)
  }

  /** The children of a Node48 fill its first slots. */
  predicate NoHoles(k: Kids)
    requires Shaped(k)
  {
    k.N48? ==> forall i :: k.num <= i < 48 ==> k.slots[i].Empty?
  }

  predicate Dense(n: Node)
    requires Solid(n)
  {
    n.Inner? ==> NoHoles(n.kids) && forall c: Byte :: Kid(n.kids, c).Full? ==> Dense(Kid(n.kids, c).node)
  }

  lemma CopyKid(k: Kids, c: Byte)
    requires Shaped(k) && NoHoles(k)
    ensures Shaped(CopyKids(k)) && Kid(CopyKids(k), c) == CopySlot(Kid(k, c))
  {
  }

  lemma CopyCounts(k: Kids)
    requires KidsOk(k) && NoHoles(k) && Sized(k)
    ensures KidsOk(CopyKids(k)) && Sized(CopyKids(k))
  {
    var k' := CopyKids(k);
    forall c: Byte ensures Shaped(k') && Kid(k', c) == CopySlot(Kid(k, c)) { CopyKid(k, c); }
    assert Present(k') == Present(k);
    if k.N48? {
      assert Used(k'.slots) == Used(k.slots);
    }
  }

  lemma {:induction false} CopyWf(n: Node, path: Key)
    requires Wf(n, path) && Dense(n)
    ensures Wf(CopyNode(n), path)
    decreases n
  {
    if n.Inner? {
      var stem := Stem(n, |path|);
      StemFacts(n, path);
      CopyCounts(n.kids);
      CopyHeader(n, path, stem);
      forall c: Byte | Kid(CopyKids(n.kids), c).Full?
        ensures Wf(Kid(CopyKids(n.kids), c).node, stem + [c])
      {
        CopyKid(n.kids, c);
        CopyWf(Kid(n.kids, c).node, stem + [c]);
      }
      InnerWf(CopyNode(n), path, stem);
    }
  }

  lemma CopyHeader(n: Node, path: Key, stem: Key)
    requires n.Inner? && |n.partial| == MAX_PREFIX_LEN && |path| + n.partialLen == |stem|
    requires forall i :: 0 <= i < StoredLen(n) ==> n.partial[i] == stem[|path| + i]
    ensures var r := CopyNode(n);
            && r.Inner? && r.kids == CopyKids(n.kids) && r.partialLen == n.partialLen && |r.partial| == MAX_PREFIX_LEN
            && r.partial[..StoredLen(r)] == stem[|path|..|path| + StoredLen(r)]
  {
    var m := StoredLen(n);
    assert n.partial[..m] == stem[|path|..|path| + m];
  }

  lemma {:induction false} CopyGet(n: Node, key: Key, depth: nat)
    requires Solid(n) && Dense(n) && Solid(CopyNode(n))
    ensures Get(CopyNode(n), key, depth) == Get(n, key, depth)
    decreases n
  {
    if n.Inner? {
      var at := depth + n.partialLen;
      if at < |key| {
        CopyKid(n.kids, key[at]);
        if Kid(n.kids, key[at]).Full? {
          assert Kid(CopyNode(n).kids, key[at]).Full?;
          CopyGet(Kid(n.kids, key[at]).node, key, at + 1);
        }
      }
    }
  }

  /** The copy of a tree without holes is a tree with the same content. */
  lemma CopyRepresents(t: Tree, m: map<Key, Value>)
    requires Represents(t, m) && (t.root.Full? ==> Dense(t.root.node))
    ensures Represents(Tree(CopySlot(t.root), t.size), m)
  {
    if t.root.Full? {
      CopyWf(t.root.node, []);
      forall k: Key
        ensures Lookup(CopySlot(t.root), k) == MapGet(m, k)
      {
        assert Lookup(t.root, k) == MapGet(m, k);
        CopyGet(t.root.node, k, 0);
      }
    }
  }

  // ----- what holes do

  /** The slots that the bytes `cs` lead to. */
  function Image(index: seq<nat>, cs: set<Byte>): (r: set<int>)
    requires |index| == 256
  {
    set c | c in cs :: (index[c] as int) - 1
  }

  lemma {:induction false} InjectionSize(index: seq<nat>, cs: set<Byte>)
    requires |index| == 256
    requires forall c, d :: c in cs && d in cs && c != d ==> index[c] != index[d]
    ensures |Image(index, cs)| == |cs|
    decreases cs
  {
    if cs == {} {
      assert Image(index, cs) == {};
    } else {
      var c :| c in cs;
      InjectionSize(index, cs - {c});
      assert (index[c] as int) - 1 !in Image(index, cs - {c});
      assert Image(index, cs) == Image(index, cs - {c}) + {(index[c] as int) - 1};
    }
  }

  /** Every used slot of a Node48 belongs to some byte. */
  lemma SlotOwned(k: Kids, i: nat)
    requires KidsOk(k) && k.N48? && i < 48 && k.slots[i].Full?
    ensures exists c: Byte :: k.index[c] == i + 1
  {
    var p, u := Present(k), Used(k.slots);
    var image := Image(k.index, p);
    InjectionSize(k.index, p);
    forall x | x in image
      ensures x in u
    {
      var c :| c in p && k.index[c] - 1 == x;
      assert Kid(k, c).Full?;
    }
    SubsetSize<int>(image, u);
    assert i in image;
  }

  /** A Node48 is copied with all its children exactly if it has no holes. */
  lemma HolesLoseChildren(k: Kids)
    requires KidsOk(k) && k.N48?
    ensures (forall c: Byte :: Kid(k, c).Full? ==> CopyKids(k).slots[k.index[c] - 1].Full?) <==> NoHoles(k)
  {
    if NoHoles(k) {
      forall c: Byte | Kid(k, c).Full? ensures CopyKids(k).slots[k.index[c] - 1].Full? { CopyKid(k, c); }
    } else {
      var i :| k.num <= i < 48 && k.slots[i].Full?;
      SlotOwned(k, i);
      var c: Byte :| k.index[c] == i + 1;
      assert Kid(k, c).Full?;
    }
  }

  /** The child that a lookup follows in a node that need not be sound: in a copy a byte can lead to
      a slot that was not filled. */
  function RawKid(k: Kids, c: Byte): (s: Slot)
    ensures s.Full? ==> (k decreases to s.node)
  {
    match k
    case N4(keys, nodes) => if |keys| == |nodes| then ListKid(keys, nodes, c) else Empty
    case N16(keys, nodes) => if |keys| == |nodes| then ListKid(keys, nodes, c) else Empty
    case N48(index, slots, _) => if c < |index| && 0 < index[c] <= |slots| then slots[index[c] - 1] else Empty
    case N256(slots, _) => if c < |slots| then slots[c] else Empty
  }

  /** Searching any tree of nodes, as the program would. */
  function RawSearch(n: Node, key: Key, depth: nat, junk: nat -> Byte): (r: Option<Value>)
    decreases n
  {
    match n
    case Leaf(k, v) => if k == key then Some(v) else None
    case Inner(len, partial, kids) =>
      var m := MinOf(MAX_PREFIX_LEN, len);
      if len != 0 && !(m <= |partial| && depth <= |key| && CommonLen(partial[..m], key[depth..]) == m) then None
      else
        match RawKid(kids, ByteAt(key, depth + len, junk))
        case Empty => None
        case Full(kid) => RawSearch(kid, key, depth + len + 1, junk)
  }

  lemma RawUnfolds(n: Node, key: Key, depth: nat, junk: nat -> Byte, s: Slot, below: nat)
    requires n.Inner? && Solid(n) && s == Kid(n.kids, ByteAt(key, depth + n.partialLen, junk)) && below == depth + n.partialLen + 1
    ensures RawSearch(n, key, depth, junk) ==
              if PrefixAccepted(n, key, depth) && s.Full? then RawSearch(s.node, key, below, junk) else None
  {
    assert RawKid(n.kids, ByteAt(key, depth + n.partialLen, junk)) == s;
  }

  lemma RawSame(n: Node, key: Key, depth: nat, junk: nat -> Byte, s: Slot, below: nat)
    requires n.Inner? && Solid(n) && s == Kid(n.kids, ByteAt(key, depth + n.partialLen, junk)) && below == depth + n.partialLen + 1
    requires s.Full? ==> Solid(s.node) && RawSearch(s.node, key, below, junk) == Search(s.node, key, below, junk)
    ensures RawSearch(n, key, depth, junk) == Search(n, key, depth, junk)
  {
    SearchUnfolds(n, key, depth, junk, below);
    RawUnfolds(n, key, depth, junk, s, below);
  }

  lemma SolidKid(n: Node, c: Byte, kid: Node)
    requires n.Inner? && Solid(n) && Kid(n.kids, c) == Full(kid)
    ensures Solid(kid)
  {
  }

  lemma {:induction false} RawIsSearch(n: Node, key: Key, depth: nat, junk: nat -> Byte)
    requires Solid(n)
    ensures RawSearch(n, key, depth, junk) == Search(n, key, depth, junk)
    decreases n
  {
    if n.Inner? {
      var c, below := ByteAt(key, depth + n.partialLen, junk), depth + n.partialLen + 1;
      var s := Kid(n.kids, c);
      if s.Full? {
        SolidKid(n, c, s.node);
        RawIsSearch(s.node, key, below, junk);
      }
      RawSame(n, key, depth, junk, s, below);
    }
  }

  lemma RawThrough(n: Node, key: Key, depth: nat, junk: nat -> Byte, at: nat, below: nat)
    requires n.Inner? && at == depth + n.partialLen < |key| && below == at + 1
    requires var s := RawKid(n.kids, key[at]); s.Empty? || RawSearch(s.node, key, below, junk) == None
    ensures RawSearch(n, key, depth, junk) == None
  {
  }

  /** A key that the copy of its child has lost is lost. */
  lemma LostThrough(n: Node, depth: nat, at: nat, below: nat, c: Byte, kid: Node, key: Key, junk: nat -> Byte)
    requires n.Inner? && Solid(n) && at == depth + n.partialLen < |key| && key[at] == c && below == at + 1
    requires Kid(n.kids, c) == Full(kid) && Solid(kid) && Get(kid, key, below).Some?
    requires var s := RawKid(CopyKids(n.kids), c); s.Empty? || RawSearch(s.node, key, below, junk) == None
    ensures Get(n, key, depth).Some? && RawSearch(CopyNode(n), key, depth, junk) == None
  {
    RawThrough(CopyNode(n), key, depth, junk, at, below);
  }

  lemma LostByte(k: Kids) returns (c: Byte)
    requires KidsOk(k) && !NoHoles(k)
    ensures Kid(k, c).Full? && RawKid(CopyKids(k), c).Empty?
  {
    HolesLoseChildren(k);
    c :| Kid(k, c).Full? && CopyKids(k).slots[k.index[c] - 1].Empty?;
  }

  /** The smallest key below a child. */
  lemma KeyBelow(kid: Node, stem: Key, c: Byte, kidPath: Key) returns (key: Key)
    requires Wf(kid, kidPath) && kidPath == stem + [c]
    ensures |stem| < |key| && key[|stem|] == c && Get(kid, key, |kidPath|).Some?
  {
    MinimumIsStored(kid, kidPath);
    key := Minimum(kid).key;
    assert kidPath[|stem|] == c;
  }

  lemma ByteBelow(kid: Node, stem: Key, c: Byte, kidPath: Key, key: Key)
    requires kidPath == stem + [c] && Wf(kid, kidPath) && Get(kid, key, |kidPath|).Some?
    ensures |stem| < |key| && key[|stem|] == c
  {
    StoredByte(kid, stem, c, key);
  }

  lemma CopiedKid(k: Kids, c: Byte, kid: Node)
    requires Shaped(k) && NoHoles(k) && Kid(k, c) == Full(kid)
    ensures RawKid(CopyKids(k), c) == Full(CopyNode(kid))
  {
    CopyKid(k, c);
  }

  lemma {:induction false} CopyLoses(n: Node, path: Key, junk: nat -> Byte) returns (key: Key)
    requires Wf(n, path) && !Dense(n)
    ensures Get(n, key, |path|).Some? && RawSearch(CopyNode(n), key, |path|, junk) == None
    decreases n
  {
    var c: Byte;
    var stem := Stem(n, |path|);
    if !NoHoles(n.kids) {
      c := LostByte(n.kids);
      KidWf(n, path, c, Kid(n.kids, c).node);
      key := KeyBelow(Kid(n.kids, c).node, stem, c, stem + [c]);
    } else {
      c :| Kid(n.kids, c).Full? && !Dense(Kid(n.kids, c).node);
      key := LosesBelow(n, path, stem, c, Kid(n.kids, c).node, stem + [c], junk);
    }
    LostThrough(n, |path|, |stem|, |stem + [c]|, c, Kid(n.kids, c).node, key, junk);
  }

  lemma {:induction false} LosesBelow(n: Node, path: Key, stem: Key, c: Byte, kid: Node, kidPath: Key, junk: nat -> Byte)
    returns (key: Key)
    requires n.Inner? && Wf(n, path) && stem == Stem(n, |path|) && Kid(n.kids, c) == Full(kid) && kidPath == stem + [c]
    requires NoHoles(n.kids) && Solid(kid) && !Dense(kid)
    ensures |stem| < |key| && key[|stem|] == c && Get(kid, key, |kidPath|).Some?
    ensures RawKid(CopyKids(n.kids), c) == Full(CopyNode(kid)) && RawSearch(CopyNode(kid), key, |kidPath|, junk) == None
    decreases n, 0
  {
    KidWf(n, path, c, kid);
    key := CopyLoses(kid, kidPath, junk);
    ByteBelow(kid, stem, c, kidPath, key);
    CopiedKid(n.kids, c, kid);
  }

  /** The copy answers every lookup like the tree. */
  ghost predicate Faithful(root: Node, m: map<Key, Value>) {
    forall key: Key, junk: nat -> Byte :: RawSearch(CopyNode(root), key, 0, junk) == MapGet(m, key)
  }

  lemma DenseIsFaithful(t: Tree, m: map<Key, Value>)
    requires Represents(t, m) && t.root.Full? && Dense(t.root.node)
    ensures Faithful(t.root.node, m)
  {
    CopyRepresents(t, m);
    var t' := Tree(CopySlot(t.root), t.size);
    forall key: Key, junk: nat -> Byte
      ensures RawSearch(CopyNode(t.root.node), key, 0, junk) == MapGet(m, key)
    {
      SearchMatches(t', m, key, junk);
      RawIsSearch(CopyNode(t.root.node), key, 0, junk);
    }
  }

  /** Exactly when: the copy answers every lookup like the tree, and is again a tree for the same map,
      if and only if no Node48 has holes. */
  lemma CopyFaithfulIff(t: Tree, m: map<Key, Value>)
    requires Represents(t, m) && t.root.Full?
    ensures Faithful(t.root.node, m) <==> Dense(t.root.node)
    ensures Represents(Tree(CopySlot(t.root), t.size), m) <==> Dense(t.root.node)
  {
    var n := t.root.node;
    if Dense(n) {
      DenseIsFaithful(t, m);
      CopyRepresents(t, m);
    } else {
      var junk := (i: nat) => 0 as Byte;
      var key := CopyLoses(n, [], junk);
      assert Lookup(t.root, key) == MapGet(m, key);
      if Represents(Tree(CopySlot(t.root), t.size), m) {
        SearchMatches(Tree(CopySlot(t.root), t.size), m, key, junk);
        RawIsSearch(CopyNode(n), key, 0, junk);
      }
    }
  }

  // ----- inserting makes none

  lemma FirstEmptyIsNext(k: Kids)
    requires KidsOk(k) && k.N48? && NoHoles(k) && k.num < 48
    ensures FirstEmpty(k.slots) == k.num
  {
    var u := Used(k.slots);
    assert u <= Below(k.num);
    SubsetSize<int>(u, Below(k.num));
    assert forall i :: 0 <= i < k.num ==> i in u && k.slots[i].Full?;
    assert k.slots[k.num].Empty?;
  }

  lemma Add48Dense(k: Kids, c: Byte, n: Node)
    requires KidsOk(k) && k.N48? && NoHoles(k) && Kid(k, c).Empty?
    requires k.num < 48 ==> FirstEmpty(k.slots) < 48
    ensures Shaped(AddChild48(k, c, n)) && NoHoles(AddChild48(k, c, n))
  {
    AddChild48Ok(k, c, n);
    if k.num < 48 {
      FirstEmptyIsNext(k);
    }
  }

  lemma Add16Dense(k: Kids, c: Byte, n: Node)
    requires Shaped(k) && k.N16? && Kid(k, c).Empty?
    ensures Shaped(AddChild16(k, c, n)) && NoHoles(AddChild16(k, c, n))
  {
    AddChild16Ok(k, c, n);
    if |k.keys| == 16 {
      var k48 := Build48(k.keys, k.nodes);
      Build48Ok(k.keys, k.nodes);
      EmptySlotExists(k48);
      Add48Dense(k48, c, n);
    }
  }

  lemma AddDense(k: Kids, c: Byte, n: Node)
    requires KidsOk(k) && NoHoles(k) && Kid(k, c).Empty?
    ensures Shaped(AddChild(k, c, n)) && NoHoles(AddChild(k, c, n))
  {
    AddChildOk(k, c, n);
    match k
    case N4(keys, nodes) =>
      if |keys| == 4 {
        Add16Dense(N16(keys, nodes), c, n);
      }
    case N16(_, _) => Add16Dense(k, c, n);
    case N48(_, _, _) =>
      EmptySlotExists(k);
      Add48Dense(k, c, n);
    case N256(_, _) =>
  }

  lemma ChangedDense(n: Node, kids: Kids, c: Byte, s: Slot)
    requires n.Inner? && Solid(n) && Dense(n) && KidsOk(kids) && NoHoles(kids) && Changed(n.kids, kids, c, s)
    requires Solid(n.(kids := kids)) && (s.Full? ==> Solid(s.node) && Dense(s.node))
    ensures Dense(n.(kids := kids))
  {
  }

  lemma ForkDense(f: Node, c1: Byte, n1: Node, c2: Byte, n2: Node)
    requires f.Inner? && Solid(f) && f.kids.N4? && Forks(f.kids, c1, n1, c2, n2)
    requires Solid(n1) && Solid(n2) && Dense(n1) && Dense(n2)
    ensures Dense(f)
  {
  }

  lemma NewKidDense(n: Node, c: Byte, kid: Node)
    requires n.Inner? && Solid(n) && Dense(n) && Kid(n.kids, c).Full? && Solid(kid) && Dense(kid)
    ensures Solid(n.(kids := SetChild(n.kids, c, kid))) && Dense(n.(kids := SetChild(n.kids, c, kid)))
  {
    SetChildOk(n.kids, c, kid);
    ChangedDense(n, SetChild(n.kids, c, kid), c, Full(kid));
  }

  lemma NewLeafDense(n: Node, c: Byte, l: Node)
    requires n.Inner? && Solid(n) && Dense(n) && Kid(n.kids, c).Empty? && l.Leaf?
    ensures Solid(n.(kids := AddChild(n.kids, c, l))) && Dense(n.(kids := AddChild(n.kids, c, l)))
  {
    AddChildOk(n.kids, c, l);
    AddDense(n.kids, c, l);
    ChangedDense(n, AddChild(n.kids, c, l), c, Full(l));
  }

  lemma SplitInnerDense(n: Node, key: Key, value: Value, depth: nat, diff: nat)
    requires n.Inner? && depth <= |key| && Wf(n, key[..depth]) && diff < n.partialLen && Dense(n)
    requires DivergeAt(Stem(n, depth), key, depth + diff)
    ensures Solid(SplitInner(n, key, value, depth, diff)) && Dense(SplitInner(n, key, value, depth, diff))
  {
    NodeSplits(n, key[..depth], diff);
    SplitInnerOk(n, key, value, depth, diff, Stem(n, depth));
    var at := depth + diff;
    var n' := Shortened(n, depth, diff);
    assert Dense(n');
    ForkKids(CutByte(n, depth, diff), n', key[at], Leaf(key, value));
    ForkDense(SplitInner(n, key, value, depth, diff), CutByte(n, depth, diff), n', key[at], Leaf(key, value));
  }

  lemma SplitLeafDense(l: Node, key: Key, value: Value, depth: nat)
    requires l.Leaf? && depth <= |key| && Wf(l, key[..depth]) && Separate(l, key, depth) && l.key != key
    ensures depth <= |l.key| && depth + CommonLen(l.key[depth..], key[depth..]) < MinOf(|l.key|, |key|)
    ensures Solid(SplitLeaf(l, key, value, depth)) && Dense(SplitLeaf(l, key, value, depth))
  {
    SplitLeafOk(l, key, value, depth);
    LeafDiverges(l, key, depth);
    var at := depth + CommonLen(l.key[depth..], key[depth..]);
    ForkKids(l.key[at], l, key[at], Leaf(key, value));
    ForkDense(SplitLeaf(l, key, value, depth), l.key[at], l, key[at], Leaf(key, value));
  }

  lemma {:induction false} InsertDense(n: Node, key: Key, value: Value, depth: nat)
    requires depth <= |key| && Wf(n, key[..depth]) && Separate(n, key, depth) && Dense(n)
    ensures Solid(Insert(n, key, value, depth).node) && Dense(Insert(n, key, value, depth).node)
    decreases n, 1
  {
    match n {
      case Leaf(k, v) =>
        if k != key {
          SplitLeafDense(n, key, value, depth);
        }
      case Inner(len, _, kids) =>
        MismatchExact(n, key, depth);
        var diff := PrefixMismatch(n, key, depth);
        if len != 0 && diff < len {
          SplitInnerDense(n, key, value, depth, diff);
        } else {
          InsertBelowDense(n, key, value, depth);
        }
    }
  }

  lemma {:induction false} InsertBelowDense(n: Node, key: Key, value: Value, depth: nat)
    requires Continues(n, key, depth) && Dense(n)
    ensures Solid(InsertBelow(n, key, value, depth).node) && Dense(InsertBelow(n, key, value, depth).node)
    decreases n, 0
  {
    var at := depth + n.partialLen;
    match Kid(n.kids, key[at])
    case Full(kid) =>
      KidReady(n, key, depth, at, kid, at + 1);
      InsertDense(kid, key, value, at + 1);
      InsertRecurses(n, key, value, depth, at, kid, at + 1, Insert(kid, key, value, at + 1));
      NewKidDense(n, key[at], Insert(kid, key, value, at + 1).node);
    case Empty =>
      InsertAddsLeaf(n, key, value, depth);
      NewLeafDense(n, key[at], Leaf(key, value));
  }

  ghost predicate DenseTree(t: Tree) {
    TreeOk(t) && (t.root.Full? ==> Dense(t.root.node))
  }

  lemma PutDense(t: Tree, key: Key, value: Value)
    requires Fits(t, key) && DenseTree(t) && TreeOk(TreeInsert(t, key, value).0)
    ensures DenseTree(TreeInsert(t, key, value).0)
  {
    if t.root.Full? {
      assert key[..0] == [];
      InsertDense(t.root.node, key, value, 0);
    }
  }

  lemma {:induction false} InsertOnlyDense(t: Tree, m: map<Key, Value>, ops: seq<Op>)
    requires Represents(t, m) && DenseTree(t) && CanRun(t, ops)
    requires forall i :: 0 <= i < |ops| ==> !ops[i].Remove?
    ensures DenseTree(TreeAfter(t, ops)) && Represents(TreeAfter(t, ops), MapAfter(m, ops))
    decreases |ops|
  {
    if |ops| > 0 {
      StepMatches(t, m, ops[0]);
      if ops[0].Put? {
        PutDense(t, ops[0].key, ops[0].value);
      }
      InsertOnlyDense(TreeStep(t, ops[0]).0, MapStep(m, ops[0]), ops[1..]);
    }
  }

  /** A tree that was only ever inserted into is copied faithfully: both behave like the one map. */
  lemma InsertOnlyCopies(ops: seq<Op>)
    requires CanRun(EMPTY, ops) && forall i :: 0 <= i < |ops| ==> !ops[i].Remove?
    ensures var t := TreeAfter(EMPTY, ops);
            Represents(t, MapAfter(map[], ops)) && Represents(Tree(CopySlot(t.root), t.size), MapAfter(map[], ops))
  {
    InsertOnlyDense(EMPTY, map[], ops);
    CopyRepresents(TreeAfter(EMPTY, ops), MapAfter(map[], ops));
  }
}
