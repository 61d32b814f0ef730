/** Whole trees: every run of inserts, searches and deletes behaves like a finite map. */
module ArtMap {
  import opened Basics
  import opened ArtKids
  import opened Art
  import opened ArtDelete

  datatype Tree = Tree(root: Slot, size: int)

  const EMPTY := Tree(Empty, 0)

  /** No key of the set is a prefix of another. */
  ghost predicate PrefixFree(keys: set<Key>) {
    forall a, b :: a in keys && b in keys && a != b ==> !(a <= b)
  }

  /** A key as the callers build it: it ends in NUL and holds no other. */
  predicate Terminated(k: Key) {
    |k| > 0 && k[|k| - 1] == 0 && forall i :: 0 <= i < |k| - 1 ==> k[i] != 0
  }

  lemma TerminatedPrefix(a: Key, b: Key)
    requires Terminated(a) && Terminated(b) && a <= b
    ensures a == b
  {
    var last := b[|a| - 1];
  }

  lemma NulTerminated(keys: set<Key>)
    requires forall k :: k in keys ==> Terminated(k)
    ensures PrefixFree(keys)
  {
    forall a, b | a in keys && b in keys && a <= b
      ensures a == b
    {
      TerminatedPrefix(a, b);
    }
  }

  ghost predicate TreeOk(t: Tree) {
    t.root.Full? ==> Wf(t.root.node, [])
  }

  function Lookup(root: Slot, key: Key): Option<Value>
    requires root.Full? ==> Solid(root.node)
  {
    if root.Full? then Get(root.node, key, 0) else None
  }

  function MapGet(m: map<Key, Value>, key: Key): Option<Value> {
    if key in m then Some(m[key]) else None
  }

  /** The tree holds exactly the map, and its size field counts the keys. */
  ghost predicate Represents(t: Tree, m: map<Key, Value>) {
    TreeOk(t) && t.size == |m| && forall k: Key :: Lookup(t.root, k) == MapGet(m, k)
  }

  // ----- operations

  function TreeSearch(t: Tree, key: Key, junk: nat -> Byte): Option<Value>
    requires TreeOk(t)
  {
    if t.root.Full? then Search(t.root.node, key, 0, junk) else None
  }

  /** Whether `key` can be stored beside everything else in the tree. */
  ghost predicate Fits(t: Tree, key: Key) {
    TreeOk(t) && (t.root.Full? ==> Separate(t.root.node, key, 0))
  }

  function TreeInsert(t: Tree, key: Key, value: Value): (Tree, Option<Value>)
    requires Fits(t, key)
  {
    if t.root.Empty? then (Tree(Full(Leaf(key, value)), t.size + 1), None)
    else
      assert key[..0] == [];
      var r := Insert(t.root.node, key, value, 0);
      (Tree(Full(r.node), if r.replaced.Some? then t.size else t.size + 1), r.replaced)
  }

  function TreeDelete(t: Tree, key: Key, junk: nat -> Byte): (Tree, Option<Value>)
    requires TreeOk(t)
  {
    if t.root.Empty? then (t, None)
    else
      match Delete(t.root.node, key, 0, junk)
      case Missing => (t, None)
      case Gone(left, v) => (Tree(left, t.size - 1), Some(v))
  }

  // ----- each operation against the map

  lemma SearchMatches(t: Tree, m: map<Key, Value>, key: Key, junk: nat -> Byte)
    requires Represents(t, m)
    ensures TreeSearch(t, key, junk) == MapGet(m, key)
  {
    if t.root.Full? {
      SearchIsGet(t.root.node, [], key, junk);
    }
    assert Lookup(t.root, key) == MapGet(m, key);
  }

  lemma PrefixFreeFits(t: Tree, m: map<Key, Value>, key: Key)
    requires Represents(t, m) && PrefixFree(m.Keys + {key})
    ensures Fits(t, key)
  {
    if t.root.Full? {
      forall k: Key | Get(t.root.node, k, 0).Some? && k != key
        ensures !(k <= key) && !(key <= k)
      {
        assert Lookup(t.root, k) == MapGet(m, k);
      }
    }
  }

  lemma InsertMatches(t: Tree, m: map<Key, Value>, key: Key, value: Value)
    requires Represents(t, m) && Fits(t, key)
    ensures var (t', was) := TreeInsert(t, key, value);
            Represents(t', m[key := value]) && was == MapGet(m, key)
  {
    var t' := TreeInsert(t, key, value).0;
    assert key[..0] == [];
    assert Lookup(t.root, key) == MapGet(m, key);
    if t.root.Full? {
      InsertOk(t.root.node, key, value, 0);
    }
    forall k: Key
      ensures Lookup(t'.root, k) == MapGet(m[key := value], k)
    {
      assert Lookup(t.root, k) == MapGet(m, k);
    }
  }

  lemma DeleteMatches(t: Tree, m: map<Key, Value>, key: Key, junk: nat -> Byte)
    requires Represents(t, m)
    ensures var (t', was) := TreeDelete(t, key, junk);
            Represents(t', m - {key}) && was == MapGet(m, key)
  {
    var t' := TreeDelete(t, key, junk).0;
    assert Lookup(t.root, key) == MapGet(m, key);
    if t.root.Full? {
      DeleteOk(t.root.node, [], key, junk);
    }
    RemoveSize(m, key);
    forall k: Key
      ensures Lookup(t'.root, k) == MapGet(m - {key}, k)
    {
      assert Lookup(t.root, k) == MapGet(m, k);
    }
  }

  lemma RemoveSize(m: map<Key, Value>, key: Key)
    ensures |m - {key}| == if key in m then |m| - 1 else |m|
  {
    assert (m - {key}).Keys == m.Keys - {key};
    assert |m.Keys| == |m| && |(m - {key}).Keys| == |m - {key}|;
  }

  // ----- runs

  /** A search or a delete may read bytes past the end of its key: `junk` is what it sees there. */
  datatype Op = Put(key: Key, value: Value) | Find(key: Key, junk: nat -> Byte) | Remove(key: Key, junk: nat -> Byte)

  function MapStep(m: map<Key, Value>, op: Op): map<Key, Value> {
    match op
    case Put(k, v) => m[k := v]
    case Find(k, _) => m
    case Remove(k, _) => m - {k}
  }

  /** Every operation answers what the key held. */
  function MapAnswer(m: map<Key, Value>, op: Op): Option<Value> {
    MapGet(m, op.key)
  }

  ghost predicate Ready(t: Tree, op: Op) {
    TreeOk(t) && (op.Put? ==> Fits(t, op.key))
  }

  function TreeStep(t: Tree, op: Op): (Tree, Option<Value>)
    requires Ready(t, op)
  {
    match op
    case Put(k, v) => TreeInsert(t, k, v)
    case Find(k, junk) => (t, TreeSearch(t, k, junk))
    case Remove(k, junk) => TreeDelete(t, k, junk)
  }

  function MapAfter(m: map<Key, Value>, ops: seq<Op>): map<Key, Value>
    decreases |ops|
  {
    if |ops| == 0 then m else MapAfter(MapStep(m, ops[0]), ops[1..])
  }

  function MapAnswers(m: map<Key, Value>, ops: seq<Op>): seq<Option<Value>>
    decreases |ops|
  {
    if |ops| == 0 then [] else [MapAnswer(m, ops[0])] + MapAnswers(MapStep(m, ops[0]), ops[1..])
  }

  ghost predicate CanRun(t: Tree, ops: seq<Op>)
    decreases |ops|
  {
    |ops| == 0 || (Ready(t, ops[0]) && CanRun(TreeStep(t, ops[0]).0, ops[1..]))
  }

  function TreeAfter(t: Tree, ops: seq<Op>): Tree
    requires CanRun(t, ops)
    decreases |ops|
  {
    if |ops| == 0 then t else TreeAfter(TreeStep(t, ops[0]).0, ops[1..])
  }

  function TreeAnswers(t: Tree, ops: seq<Op>): seq<Option<Value>>
    requires CanRun(t, ops)
    decreases |ops|
  {
    if |ops| == 0 then [] else [TreeStep(t, ops[0]).1] + TreeAnswers(TreeStep(t, ops[0]).0, ops[1..])
  }

  ghost predicate PutsWithin(ops: seq<Op>, keys: set<Key>) {
    forall i :: 0 <= i < |ops| && ops[i].Put? ==> ops[i].key in keys
  }

  lemma StepMatches(t: Tree, m: map<Key, Value>, op: Op)
    requires Represents(t, m) && Ready(t, op)
    ensures Represents(TreeStep(t, op).0, MapStep(m, op))
    ensures TreeStep(t, op).1 == MapAnswer(m, op)
  {
    match op
    case Put(k, v) => InsertMatches(t, m, k, v);
    case Find(k, junk) => SearchMatches(t, m, k, junk);
    case Remove(k, junk) => DeleteMatches(t, m, k, junk);
  }

  lemma StepReady(t: Tree, m: map<Key, Value>, op: Op, keys: set<Key>)
    requires Represents(t, m) && m.Keys <= keys && PrefixFree(keys) && (op.Put? ==> op.key in keys)
    ensures Ready(t, op) && MapStep(m, op).Keys <= keys
  {
    if op.Put? {
      PrefixFreeFits(t, m, op.key);
    }
  }

  /** Every run that stores prefix-free keys goes through, gives the answers of a map, and ends with
      its content and its size. */
  lemma {:induction false} RunsMatch(t: Tree, m: map<Key, Value>, ops: seq<Op>, keys: set<Key>)
    requires Represents(t, m) && m.Keys <= keys && PrefixFree(keys) && PutsWithin(ops, keys)
    ensures CanRun(t, ops)
    ensures TreeAnswers(t, ops) == MapAnswers(m, ops) && Represents(TreeAfter(t, ops), MapAfter(m, ops))
    decreases |ops|
  {
    if |ops| > 0 {
      StepReady(t, m, ops[0], keys);
      StepMatches(t, m, ops[0]);
      RunsMatch(TreeStep(t, ops[0]).0, MapStep(m, ops[0]), ops[1..], keys);
    }
  }

  /** From the empty tree, in particular. */
  lemma FreshRunsMatch(ops: seq<Op>, keys: set<Key>)
    requires PrefixFree(keys) && PutsWithin(ops, keys)
    ensures CanRun(EMPTY, ops)
    ensures TreeAnswers(EMPTY, ops) == MapAnswers(map[], ops) && Represents(TreeAfter(EMPTY, ops), MapAfter(map[], ops))
  {
    RunsMatch(EMPTY, map[], ops, keys);
  }

  // ----- the tree as an object

  /** The tree that its callers hold and update in place. */
  class ArtTree {
    var root: Slot
    var size: int
    ghost var contents: map<Key, Value>

    ghost predicate Valid()
      reads this
    {
      Represents(Tree(root, size), contents)
    }

    constructor ()
      ensures Valid() && contents == map[]
    {
      root, size, contents := Empty, 0, map[];
    }

    method Find(key: Key, junk: nat -> Byte) returns (r: Option<Value>)
      requires Valid()
      ensures r == MapGet(contents, key)
    {
      SearchMatches(Tree(root, size), contents, key, junk);
      r := TreeSearch(Tree(root, size), key, junk);
    }

    method Insert(key: Key, value: Value) returns (was: Option<Value>)
      requires Valid() && PrefixFree(contents.Keys + {key})
      modifies this
      ensures Valid() && contents == old(contents)[key := value]
      ensures was == MapGet(old(contents), key)
      ensures size == if was.Some? then old(size) else old(size) + 1
    {
      PrefixFreeFits(Tree(root, size), contents, key);
      InsertMatches(Tree(root, size), contents, key, value);
      var (t, w) := TreeInsert(Tree(root, size), key, value);
      root, size, was, contents := t.root, t.size, w, contents[key := value];
    }

    method Delete(key: Key, junk: nat -> Byte) returns (was: Option<Value>)
      requires Valid()
      modifies this
      ensures Valid() && contents == old(contents) - {key}
      ensures was == MapGet(old(contents), key)
    {
      DeleteMatches(Tree(root, size), contents, key, junk);
      var (t, w) := TreeDelete(Tree(root, size), key, junk);
      root, size, was, contents := t.root, t.size, w, contents - {key};
    }
  }
}
