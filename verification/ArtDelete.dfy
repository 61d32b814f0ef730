/** Deleting from the adaptive radix tree. */
module ArtDelete {
  import opened Basics
  import opened ArtKids
  import opened Art

  /** A node left with one child gives way to it: the child takes over the path, its own byte and
      as many of its own stored path bytes as fit. */
  function Collapse(n: Node): Node
    requires n.Inner? && |n.partial| == MAX_PREFIX_LEN && n.kids.N4? && |n.kids.keys| == |n.kids.nodes| == 1
    requires n.kids.nodes[0].Inner? ==> |n.kids.nodes[0].partial| == MAX_PREFIX_LEN
  {
    var child := n.kids.nodes[0];
    if child.Leaf? then child
    else
      Inner(child.partialLen + n.partialLen + 1,
            Overwrite(child.partial, JoinedPrefix(n.partialLen, n.partial, n.kids.keys[0], child.partialLen, child.partial)),
            child.kids)
  }

  /** The stored bytes of the joined path. */
  function JoinedPrefix(len: nat, partial: seq<Byte>, c: Byte, childLen: nat, childPartial: seq<Byte>): (r: seq<Byte>)
    requires |partial| == |childPartial| == MAX_PREFIX_LEN
    ensures |r| == MinOf(MAX_PREFIX_LEN, len + 1 + childLen)
  {
    if len < MAX_PREFIX_LEN then
      var p1 := partial[len := c];
      if len + 1 < MAX_PREFIX_LEN then
        var sub := MinOf(childLen, MAX_PREFIX_LEN - (len + 1));
        p1[..len + 1] + childPartial[..sub]
      else p1
    else partial
  }

  /** The joined prefix is the start of the joined path. */
  lemma JoinedPrefixOk(stem: Key, from: nat, partial: seq<Byte>, c: Byte, childStem: Key, childPartial: seq<Byte>)
    requires |partial| == |childPartial| == MAX_PREFIX_LEN
    requires from <= |stem| && |stem| < |childStem| && stem <= childStem && childStem[|stem|] == c
    requires forall i :: 0 <= i < MinOf(MAX_PREFIX_LEN, |stem| - from) ==> partial[i] == stem[from + i]
    requires forall i :: 0 <= i < MinOf(MAX_PREFIX_LEN, |childStem| - |stem| - 1) ==> childPartial[i] == childStem[|stem| + 1 + i]
    ensures var r := JoinedPrefix(|stem| - from, partial, c, |childStem| - |stem| - 1, childPartial);
            r == childStem[from..from + |r|]
  {
    var r := JoinedPrefix(|stem| - from, partial, c, |childStem| - |stem| - 1, childPartial);
    var len := |stem| - from;
    forall i | 0 <= i < |r|
      ensures r[i] == childStem[from + i]
    {
      if len < i {
        assert r[i] == childPartial[i - len - 1];
      }
    }
  }

  /** One child left: its content is all there is, and it moves up to the path of its parent. */
  lemma CollapseOk(n: Node, path: Key, stem: Key, c: Byte, child: Node)
    requires n.Inner? && |n.partial| == MAX_PREFIX_LEN && n.kids == N4([c], [child])
    requires path <= stem && |stem| == |path| + n.partialLen && Wf(child, stem + [c])
    requires forall i :: 0 <= i < StoredLen(n) ==> n.partial[i] == stem[|path| + i]
    ensures Wf(Collapse(n), path)
    ensures SameContent(child, |stem| + 1, Collapse(n), |path|)
  {
    if child.Leaf? {
      assert path <= child.key;
    } else {
      StemFacts(child, stem + [c]);
      assert (stem + [c])[|stem|] == c;
      CollapseInner(n, path, stem, c, child, Stem(child, |stem| + 1));
    }
  }

  lemma CollapsedStored(n: Node, path: Key, stem: Key, c: Byte, child: Node, childStem: Key)
    requires n.Inner? && |n.partial| == MAX_PREFIX_LEN && n.kids == N4([c], [child])
    requires path <= stem && |stem| == |path| + n.partialLen
    requires child.Inner? && |child.partial| == MAX_PREFIX_LEN
    requires |stem| + 1 + child.partialLen == |childStem| && stem <= childStem && childStem[|stem|] == c
    requires forall i :: 0 <= i < StoredLen(n) ==> n.partial[i] == stem[|path| + i]
    requires forall i :: 0 <= i < StoredLen(child) ==> child.partial[i] == childStem[|stem| + 1 + i]
    ensures var r := Collapse(n);
            && r.Inner? && |r.partial| == MAX_PREFIX_LEN && r.kids == child.kids
            && |path| + r.partialLen == |childStem|
            && r.partial[..StoredLen(r)] == childStem[|path|..|path| + StoredLen(r)]
  {
    JoinedPrefixOk(stem, |path|, n.partial, c, childStem, child.partial);
  }

  /** Two inner nodes with the same children that branch at the same position hold the same. */
  lemma SamePosition(n: Node, depth: nat, n': Node, depth': nat)
    requires n.Inner? && n'.Inner? && Solid(n) && Solid(n') && n.kids == n'.kids
    requires depth + n.partialLen == depth' + n'.partialLen
    ensures SameContent(n, depth, n', depth')
  {
  }

  lemma MovedUp(child: Node, depth: nat, r: Node, path: Key, stem: Key)
    requires child.Inner? && Solid(child) && depth + child.partialLen == |stem|
    requires r.Inner? && |r.partial| == MAX_PREFIX_LEN && r.kids == child.kids
    requires path <= stem && |path| + r.partialLen == |stem|
    requires r.partial[..StoredLen(r)] == stem[|path|..|path| + StoredLen(r)]
    requires forall d: Byte :: Kid(child.kids, d).Full? ==> Wf(Kid(child.kids, d).node, stem + [d])
    ensures Wf(r, path) && SameContent(child, depth, r, |path|)
  {
    InnerWf(r, path, stem);
    SamePosition(child, depth, r, |path|);
  }

  lemma CollapseInner(n: Node, path: Key, stem: Key, c: Byte, child: Node, childStem: Key)
    requires n.Inner? && |n.partial| == MAX_PREFIX_LEN && n.kids == N4([c], [child])
    requires path <= stem && |stem| == |path| + n.partialLen
    requires child.Inner? && Solid(child) && |stem| + 1 + child.partialLen == |childStem|
    requires stem <= childStem && childStem[|stem|] == c
    requires forall i :: 0 <= i < StoredLen(n) ==> n.partial[i] == stem[|path| + i]
    requires forall i :: 0 <= i < StoredLen(child) ==> child.partial[i] == childStem[|stem| + 1 + i]
    requires forall d: Byte :: Kid(child.kids, d).Full? ==> Wf(Kid(child.kids, d).node, childStem + [d])
    ensures Wf(Collapse(n), path)
    ensures SameContent(child, |stem| + 1, Collapse(n), |path|)
  {
    CollapsedStored(n, path, stem, c, child, childStem);
    MovedUp(child, |stem| + 1, Collapse(n), path, childStem);
  }

  // ----- taking a child away

  /** The one child that is left was a child before. */
  lemma LastKid(n: Node, c: Byte, k: Kids)
    requires n.Inner? && Solid(n) && Shaped(k) && k.N4? && |k.keys| == 1 && Changed(n.kids, k, c, Empty)
    ensures k.keys[0] != c && Kid(n.kids, k.keys[0]) == Full(k.nodes[0]) && Solid(k.nodes[0])
  {
    KidAt(k, 0);
    var was := Kid(n.kids, k.keys[0]);
  }

  /** Removes the child for `c`; a Node4 left with one child collapses into it. */
  function Unlink(n: Node, c: Byte): Node
    requires n.Inner? && Solid(n) && Kid(n.kids, c).Full?
  {
    RemoveChildOk(n.kids, c);
    var k := RemoveChild(n.kids, c);
    if n.kids.N4? && k.N4? && |k.keys| == 1 then
      LastKid(n, c, k);
      Collapse(n.(kids := k))
    else n.(kids := k)
  }

  /** The tree behind `r` holds what `n` holds, except for `key`. */
  ghost predicate Without(n: Node, r: Node, depth: nat, key: Key)
    requires Solid(n) && Solid(r)
  {
    forall k: Key :: Get(r, k, depth) == if k == key then None else Get(n, k, depth)
  }

  /** What is left of a tree that loses `key`: nothing, if it was the leaf of that key. */
  ghost predicate LeftOk(n: Node, path: Key, key: Key, left: Slot)
    requires Solid(n)
  {
    match left
    case Empty => n.Leaf? && n.key == key
    case Full(r) => Wf(r, path) && Without(n, r, |path|, key)
  }

  datatype Deleted = Missing | Gone(left: Slot, value: Value)

  function Delete(n: Node, key: Key, depth: nat, junk: nat -> Byte): (r: Deleted)
    requires Solid(n)
    ensures r.Gone? && n.Inner? ==> r.left.Full?
    decreases n
  {
    match n
    case Leaf(k, v) => if k == key then Gone(Empty, v) else Missing
    case Inner(len, _, kids) =>
      if !PrefixAccepted(n, key, depth) then Missing
      else
        var c := ByteAt(key, depth + len, junk);
        match Kid(kids, c)
        case Empty => Missing
        case Full(kid) =>
          if kid.Leaf? then
            if kid.key == key then Gone(Full(Unlink(n, c)), kid.value) else Missing
          else
            match Delete(kid, key, depth + len + 1, junk)
            case Missing => Missing
            case Gone(left, v) => Gone(Full(n.(kids := SetChild(kids, c, left.node))), v)
  }

  lemma {:induction false} DeleteFinds(n: Node, key: Key, depth: nat, junk: nat -> Byte)
    requires Solid(n)
    ensures var r := Delete(n, key, depth, junk);
            Search(n, key, depth, junk) == if r.Gone? then Some(r.value) else None
    decreases n
  {
    if n.Inner? && PrefixAccepted(n, key, depth) {
      var at := depth + n.partialLen;
      var s := Kid(n.kids, ByteAt(key, at, junk));
      if s.Full? && s.node.Inner? {
        DeleteFinds(s.node, key, at + 1, junk);
      }
    }
  }

  lemma RemovedBelow(n: Node, n': Node, depth: nat, at: nat, c: Byte, s: Slot, key: Key, below: nat)
    requires n.Inner? && Solid(n) && n'.Inner? && Solid(n') && n'.partialLen == n.partialLen && at == depth + n.partialLen
    requires Changed(n.kids, n'.kids, c, s) && at < |key| && key[at] == c && below == at + 1
    requires Kid(n.kids, c).Full? && Solid(Kid(n.kids, c).node) && (s.Full? ==> Solid(s.node))
    requires if s.Full? then Without(Kid(n.kids, c).node, s.node, below, key)
             else Kid(n.kids, c).node.Leaf? && Kid(n.kids, c).node.key == key
    ensures Without(n, n', depth, key)
  {
    forall k: Key
      ensures Get(n', k, depth) == if k == key then None else Get(n, k, depth)
    {
      if at < |k| && k[at] == c {
        ChangedHere(n, n', depth, at, c, s, k, below);
      } else {
        ChangedElsewhere(n, n', depth, at, c, s, k);
      }
    }
  }

  lemma UnlinkCollapses(n: Node, path: Key, c: Byte, k: Kids, key: Key, kid: Node)
    requires n.Inner? && Wf(n, path) && Shaped(k) && k.N4? && |k.keys| == 1 && Changed(n.kids, k, c, Empty)
    requires |path| + n.partialLen < |key| && key[|path| + n.partialLen] == c
    requires Kid(n.kids, c) == Full(kid) && kid.Leaf? && kid.key == key
    requires |k.nodes| == 1 && (k.nodes[0].Inner? ==> |k.nodes[0].partial| == MAX_PREFIX_LEN)
    ensures Wf(Collapse(n.(kids := k)), path) && Without(n, Collapse(n.(kids := k)), |path|, key)
  {
    var stem := Stem(n, |path|);
    var d, last := k.keys[0], k.nodes[0];
    LastKid(n, c, k);
    StemFacts(n, path);
    KidWf(n, path, d, last);
    CollapseTo(n, path, stem, c, key, d, last, k);
  }

  lemma CollapseTo(n: Node, path: Key, stem: Key, c: Byte, key: Key, d: Byte, last: Node, k: Kids)
    requires n.Inner? && Solid(n) && path <= stem && |stem| == |path| + n.partialLen && Wf(last, stem + [d])
    requires forall i :: 0 <= i < StoredLen(n) ==> n.partial[i] == stem[|path| + i]
    requires |stem| < |key| && key[|stem|] == c != d && Kid(n.kids, d) == Full(last)
    requires Kid(n.kids, c).Full? && Kid(n.kids, c).node.Leaf? && Kid(n.kids, c).node.key == key
    requires Shaped(k) && k.N4? && |k.keys| == 1 && k.keys[0] == d && k.nodes[0] == last && Changed(n.kids, k, c, Empty)
    ensures Wf(Collapse(n.(kids := k)), path) && Without(n, Collapse(n.(kids := k)), |path|, key)
  {
    assert k == N4([d], [last]);
    CollapseOk(n.(kids := k), path, stem, d, last);
    OnlyTwo(n, path, stem, c, key, d, last, |stem| + 1, Collapse(n.(kids := k)), k);
  }

  lemma OnlyTwo(n: Node, path: Key, stem: Key, c: Byte, key: Key, d: Byte, last: Node, below: nat, r: Node, k: Kids)
    requires n.Inner? && Solid(n) && |stem| == |path| + n.partialLen && below == |stem| + 1 && Wf(last, stem + [d])
    requires |stem| < |key| && key[|stem|] == c != d && Kid(n.kids, d) == Full(last)
    requires Kid(n.kids, c).Full? && Kid(n.kids, c).node.Leaf? && Kid(n.kids, c).node.key == key
    requires Shaped(k) && k == N4([d], [last]) && Changed(n.kids, k, c, Empty)
    requires Solid(r) && SameContent(last, below, r, |path|)
    ensures Without(n, r, |path|, key)
  {
    forall x: Key
      ensures Get(r, x, |path|) == if x == key then None else Get(n, x, |path|)
    {
      StoredByte(last, stem, d, x);
      OneOfTwo(n, |path|, |stem|, c, key, d, last, below, k, x);
    }
  }

  lemma OneOfTwo(n: Node, depth: nat, at: nat, c: Byte, key: Key, d: Byte, last: Node, below: nat, k: Kids, x: Key)
    requires n.Inner? && Solid(n) && at == depth + n.partialLen && below == at + 1 && Solid(last)
    requires at < |key| && key[at] == c != d && Kid(n.kids, d) == Full(last)
    requires Kid(n.kids, c).Full? && Kid(n.kids, c).node.Leaf? && Kid(n.kids, c).node.key == key
    requires Shaped(k) && k == N4([d], [last]) && Changed(n.kids, k, c, Empty)
    requires Get(last, x, below).Some? ==> at < |x| && x[at] == d
    ensures Get(last, x, below) == if x == key then None else Get(n, x, depth)
  {
    if at < |x| {
      var e := x[at];
      assert Kid(k, e) == if e == d then Full(last) else Empty;
    }
  }

  /** Taking a leaf away keeps the tree well-formed, whether or not the node collapses. */
  lemma UnlinkOk(n: Node, path: Key, c: Byte, key: Key, kid: Node)
    requires n.Inner? && Wf(n, path)
    requires |path| + n.partialLen < |key| && key[|path| + n.partialLen] == c
    requires Kid(n.kids, c) == Full(kid) && kid.Leaf? && kid.key == key
    ensures Wf(Unlink(n, c), path) && Without(n, Unlink(n, c), |path|, key)
  {
    RemoveChildOk(n.kids, c);
    var k := RemoveChild(n.kids, c);
    if n.kids.N4? && k.N4? && |k.keys| == 1 {
      LastKid(n, c, k);
      UnlinkCollapses(n, path, c, k, key, kid);
    } else {
      StillTwo(n, c, k);
      UnlinkKeeps(n, path, c, k, key, kid, |path| + n.partialLen, |path| + n.partialLen + 1);
    }
  }

  lemma StillTwo(n: Node, c: Byte, k: Kids)
    requires n.Inner? && Solid(n) && Kid(n.kids, c).Full? && k == RemoveChild(n.kids, c)
    requires Shaped(k) && (Sized(k) || (n.kids.N4? && |n.kids.keys| == 2 && k.N4?))
    requires !(n.kids.N4? && k.N4? && |k.keys| == 1)
    ensures Sized(k)
  {
  }

  lemma UnlinkKeeps(n: Node, path: Key, c: Byte, k: Kids, key: Key, kid: Node, at: nat, below: nat)
    requires n.Inner? && Wf(n, path) && KidsOk(k) && Sized(k) && Changed(n.kids, k, c, Empty)
    requires at == |path| + n.partialLen < |key| && key[at] == c && below == at + 1
    requires Kid(n.kids, c) == Full(kid) && kid.Leaf? && kid.key == key
    ensures Wf(n.(kids := k), path) && Without(n, n.(kids := k), |path|, key)
  {
    InnerWf(n.(kids := k), path, Stem(n, |path|));
    RemovedBelow(n, n.(kids := k), |path|, at, c, Empty, key, below);
  }

  lemma SetKidOk(n: Node, path: Key, c: Byte, k: Kids, key: Key, left: Node, at: nat, below: nat)
    requires n.Inner? && Wf(n, path) && KidsOk(k) && Sized(k) && Changed(n.kids, k, c, Full(left))
    requires at == |path| + n.partialLen < |key| && key[at] == c && below == at + 1
    requires Kid(n.kids, c).Full? && Solid(Kid(n.kids, c).node) && Wf(left, Stem(n, |path|) + [c])
    requires Without(Kid(n.kids, c).node, left, below, key)
    ensures Wf(n.(kids := k), path) && Without(n, n.(kids := k), |path|, key)
  {
    NewKidWf(n, path, k, c, left);
    RemovedBelow(n, n.(kids := k), |path|, at, c, Full(left), key, below);
  }

  lemma DeleteUnfolds(n: Node, key: Key, depth: nat, junk: nat -> Byte, at: nat, kid: Node, below: nat)
    requires n.Inner? && Solid(n) && Delete(n, key, depth, junk).Gone? && at == depth + n.partialLen < |key|
    requires below == at + 1 && Kid(n.kids, key[at]) == Full(kid) && Solid(kid)
    ensures var r := Delete(n, key, depth, junk);
            if kid.Leaf? then kid.key == key && r.left == Full(Unlink(n, key[at]))
            else Delete(kid, key, below, junk).Gone? &&
                 r.left == Full(n.(kids := SetChild(n.kids, key[at], Delete(kid, key, below, junk).left.node)))
  {
  }

  lemma UnlinkLeft(n: Node, path: Key, c: Byte, key: Key, kid: Node)
    requires n.Inner? && Wf(n, path)
    requires |path| + n.partialLen < |key| && key[|path| + n.partialLen] == c
    requires Kid(n.kids, c) == Full(kid) && kid.Leaf? && kid.key == key
    ensures LeftOk(n, path, key, Full(Unlink(n, c)))
  {
    UnlinkOk(n, path, c, key, kid);
  }

  lemma NestedOk(n: Node, path: Key, key: Key, at: nat, below: nat, kid: Node, left: Node)
    requires n.Inner? && Wf(n, path) && at == |path| + n.partialLen < |key| && below == at + 1
    requires Kid(n.kids, key[at]) == Full(kid) && Solid(kid)
    requires Wf(left, Stem(n, |path|) + [key[at]]) && Without(kid, left, below, key)
    ensures LeftOk(n, path, key, Full(n.(kids := SetChild(n.kids, key[at], left))))
  {
    SetChildOk(n.kids, key[at], left);
    SetKidOk(n, path, key[at], SetChild(n.kids, key[at], left), key, left, at, below);
  }

  /** Deleting finds a key exactly when the tree holds it, returns its value, takes that one key
      away and keeps the tree well-formed. */
  lemma {:induction false} DeleteOk(n: Node, path: Key, key: Key, junk: nat -> Byte)
    requires Wf(n, path)
    ensures var r := Delete(n, key, |path|, junk);
            && Get(n, key, |path|) == (if r.Gone? then Some(r.value) else None)
            && (r.Gone? ==> LeftOk(n, path, key, r.left))
    decreases n
  {
    DeleteFinds(n, key, |path|, junk);
    SearchIsGet(n, path, key, junk);
    if n.Inner? && Get(n, key, |path|).Some? {
      StoredIsUnder(n, path, key);
      var at := |path| + n.partialLen;
      var stem := Stem(n, |path|);
      var kid := Kid(n.kids, key[at]).node;
      DeleteUnfolds(n, key, |path|, junk, at, kid, at + 1);
      if kid.Leaf? {
        UnlinkLeft(n, path, key[at], key, kid);
      } else {
        DeleteOk(kid, stem + [key[at]], key, junk);
        NestedOk(n, path, key, at, at + 1, kid, Delete(kid, key, at + 1, junk).left.node);
      }
    }
  }
}
