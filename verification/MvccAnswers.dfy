/**
 What a lookup answers. Alone it gives what one instant holds. Interleaved with others a filter it
 finds was there at some instant; that it finds none is right exactly if the tree that clients read
 when it answers does not have the name either, which a swap during the lookup can spoil.
 */
module MvccAnswers {
  import opened Mvcc
  import opened MvccInvariant
  import opened MvccTheorems
  import opened MvccConvergence
  import opened MvccLookup

  /** The last move of the lookup gives its answer. */
  ghost predicate Answers(g: View, c: Id, n: Name, moves: seq<Move>, r: Lookup)
    requires ViewOk(g, c) && IsTrace(g, c, n, moves)
  {
    moves != [] && moves[|moves| - 1].Mine? && Then(g, c, n, moves).at == Answered(r)
  }

  // ----- a filter that is found

  /** Every update above version `low` that names `n` is of the filter in `r`. */
  predicate Backs(hist: seq<Update>, low: nat, n: Name, r: Lookup) {
    forall i :: low <= i < |hist| && NamesIt(hist[i], n) ==> r == Found(hist[i].filter)
  }

  /** The unmerged updates of a name are of the filter that is found, in the tree or in the list. */
  lemma UnmergedBacks(s: State, n: Name)
    requires Inv(s)
    ensures Backs(s.hist, s.primaryVsn, n, Find(s, n))
  {
    forall i | s.primaryVsn <= i < |s.hist| && NamesIt(s.hist[i], n)
      ensures Find(s, n) == Found(s.hist[i].filter)
    {
      var u := s.hist[i];
      assert UpdateOk(s.wrappers, u, i + 1);
      assert WrapperOk(s.hist, s.wrappers[u.filter], u.filter);
      FindFindsVisible(s, n, u.filter);
    }
  }

  /** What is merged in `s2` was there in `s1`: the client has not reported anything since. */
  lemma MergedByNow(s1: State, s2: State, c: Id)
    requires Inv(s1) && Inv(s2) && c in s1.clients && c in s2.clients && s1.clients[c].vsn == s2.clients[c].vsn
    ensures s2.primaryVsn <= |s1.hist|
  {
    assert ClientOk(s1, c) && ClientOk(s2, c);
  }

  /** A node that names `n` lies above what was merged when the tree pointer was read. */
  lemma NotMerged(s: State, c: Id, n: Name, p1: nat)
    requires Inv(s) && Reading(s, c) && s.clients[c].activity.cursor != 0 && NamesIt(NodeAt(s, c), n)
    requires p1 <= |s.hist| && (p1 == s.primaryVsn || OnlyBarriers(s.hist, s.low, p1))
    requires s.clients[c].activity.cursor <= p1 ==> p1 < s.primaryVsn
    ensures p1 < s.clients[c].activity.cursor <= |s.hist|
  {
    assert ClientOk(s, c);
  }

  /** Version `v` names `n` and lies above what was merged when the tree pointer was read in `s1`, and not
      above the head that was read in `s2`. */
  ghost predicate Hit(s1: State, s2: State, s: State, n: Name, v: nat) {
    s1.hist <= s.hist && s2.hist <= s.hist && s1.primaryVsn < v <= |s2.hist| && NamesIt(s.hist[v - 1], n)
  }

  lemma HitIsRecent(g: View, c: Id, n: Name, s1: State, s2: State)
    requires ViewOk(g, c) && g.at.AtNode? && Knows(g, c, n, s1, s2) && NamesIt(NodeAt(g.s, c), n)
    ensures Hit(s1, s2, g.s, n, g.s.clients[c].activity.cursor)
    ensures NodeAt(g.s, c) == g.s.hist[g.s.clients[c].activity.cursor - 1]
  {
    NotMerged(g.s, c, n, s1.primaryVsn);
  }

  lemma HitEither(s1: State, s2: State, s: State, n: Name, v: nat, r1: Lookup, r2: Lookup)
    requires Hit(s1, s2, s, n, v) && s2.primaryVsn <= |s1.hist|
    requires Backs(s1.hist, s1.primaryVsn, n, r1) && Backs(s2.hist, s2.primaryVsn, n, r2)
    ensures r1 == Found(s.hist[v - 1].filter) || r2 == Found(s.hist[v - 1].filter)
  {
    assert v <= |s1.hist| ==> s1.hist[v - 1] == s.hist[v - 1];
    assert s2.hist[v - 1] == s.hist[v - 1];
  }

  /** At the answer, one of the two remembered instants holds it. */
  lemma FoundHere(g: View, c: Id, n: Name, s1: State, s2: State, r1: Lookup, r2: Lookup, w: Id)
    requires ViewOk(g, c) && g.at.AtNode? && Knows(g, c, n, s1, s2) && s2.primaryVsn <= |s1.hist|
    requires Backs(s1.hist, s1.primaryVsn, n, r1) && Backs(s2.hist, s2.primaryVsn, n, r2)
    requires PlaceThen(g.s, c, n, g.at) == Answered(Found(w))
    ensures r1 == Found(w) || r2 == Found(w)
  {
    HitIsRecent(g, c, n, s1, s2);
    HitEither(s1, s2, g.s, n, g.s.clients[c].activity.cursor, r1, r2);
  }

  /** However a lookup is interleaved: the filter it finds is the one that a lookup in one go would
      have found at some instant between its first and its last access. */
  lemma FoundWasThere(g: View, c: Id, n: Name, moves: seq<Move>, w: Id)
    requires ViewOk(g, c) && g.at.AtTree? && IsTrace(g, c, n, moves) && Answers(g, c, n, moves, Found(w))
    ensures Sometime(g, c, n, moves, Found(w))
  {
    OneMoveLater(g, c, n, moves, Found(w));
    var pre := moves[..|moves| - 1];
    var s1, s2 := TraceKnows(g, c, n, pre);
    var g' := Then(g, c, n, pre);
    if g'.at.AtNode? {
      MergedByNow(s1, s2, c);
      UnmergedBacks(s1, n);
      UnmergedBacks(s2, n);
      FoundHere(g', c, n, s1, s2, Find(s1, n), Find(s2, n), w);
    }
  }

  // ----- a filter that is not found

  /** A name in the tree that clients read was found at every earlier instant of the lookup. */
  lemma FoundBefore(s: State, e: State, c: Id, n: Name)
    requires Inv(s) && Inv(e) && Later(s, e) && c in s.clients && c in e.clients && s.clients[c].vsn == e.clients[c].vsn
    requires n in e.trees[e.primary]
    ensures Find(s, n) == Found(e.trees[e.primary][n])
  {
    var w := e.trees[e.primary][n];
    assert ClientOk(s, c) && ClientOk(e, c);
    assert LiveAt(e.wrappers[w], e.primaryVsn);
    assert w < |s.wrappers| by {
      assert w >= |s.wrappers| ==> BornAfter(e.wrappers[w], |s.hist|);
    }
    assert Aged(s.wrappers[w], e.wrappers[w], |s.hist|);
    FindFindsVisible(s, n, w);
  }

  lemma {:induction false} NeverMissing(g: View, c: Id, n: Name, moves: seq<Move>, e: State)
    requires ViewOk(g, c) && IsTrace(g, c, n, moves) && Inv(e) && Later(Then(g, c, n, moves).s, e)
    requires c in e.clients && e.clients[c].vsn == g.s.clients[c].vsn && n in e.trees[e.primary]
    ensures !Sometime(g, c, n, moves, Missing)
    decreases |moves|
  {
    FoundBefore(Then(g, c, n, moves).s, e, c, n);
    if moves != [] {
      var k := |moves| - 1;
      OneMoveLater(g, c, n, moves, Missing);
      MoveIsLater(Then(g, c, n, moves[..k]), c, n, moves[k]);
      LaterThen(Then(g, c, n, moves[..k]).s, Then(g, c, n, moves).s, e);
      NeverMissing(g, c, n, moves[..k], e);
    }
  }

  lemma NothingNewer(hist: seq<Update>, upTo: nat, n: Name)
    requires upTo <= |hist| && forall i :: upTo <= i < |hist| ==> !NamesIt(hist[i], n)
    ensures NewestUpdate(hist, upTo, n) == 0
  {
    if NewestUpdate(hist, upTo, n) != 0 {
      assert false;
    }
  }

  /** Beyond the head that the walk began at, only a deletion can name `n`, and of a filter that was
      visible then. */
  lemma NoneBeyond(s: State, c: Id, n: Name, v: nat, head: nat, i: nat)
    requires Inv(s) && c in s.clients && s.clients[c].vsn <= head && n !in s.trees[s.primary]
    requires v <= s.primaryVsn + 1 && head <= i < |s.hist| && NoCreateSince(s.hist, head, n)
    requires forall j :: v <= j + 1 && j < head && j >= 0 ==> !NamesIt(s.hist[j], n)
    ensures !NamesIt(s.hist[i], n)
  {
    assert ClientOk(s, c);
    if NamesIt(s.hist[i], n) {
      DeletedAfterBirth(s, i, s.primaryVsn);
      assert false;
    }
  }

  /** A deletion names a filter that was born before, under the same name, and is alive until then. */
  lemma DeletedAfterBirth(s: State, i: nat, k: nat)
    requires WrappersOk(s.hist, s.wrappers) && UpdatesOk(s.hist, s.wrappers) && i < |s.hist| && s.hist[i].Delete?
    ensures var u := s.hist[i];
            && u.filter < |s.wrappers|
            && var x := s.wrappers[u.filter];
               && x.name == u.name && x.born <= i && (x.born != 0 ==> s.hist[x.born - 1].Create? && NamesIt(s.hist[x.born - 1], u.name))
               && (x.born <= k <= i ==> LiveAt(x, k))
  {
    assert UpdateOk(s.wrappers, s.hist[i], i + 1);
    assert WrapperOk(s.hist, s.wrappers[s.hist[i].filter], s.hist[i].filter);
  }

  lemma HeadIsAhead(g: View, c: Id, n: Name, s1: State, s2: State)
    requires ViewOk(g, c) && g.at.AtNode? && Knows(g, c, n, s1, s2) && Inv(s2)
    ensures g.s.clients[c].vsn <= |s2.hist|
    ensures Cleared(g.s.hist, g.s.clients[c].activity.cursor, |s2.hist|, n, s1.primaryVsn, g.s.primaryVsn)
  {
    assert ClientOk(s2, c);
  }

  /** The walk ends at a node that does not name `n`: nothing above the merged version does. */
  lemma WalkedPastAll(s: State, c: Id, n: Name, head: nat, p1: nat)
    requires ViewOk(View(s, AtNode), c) && PlaceThen(s, c, n, AtNode) == Answered(Missing) && s.clients[c].vsn <= head
    requires Cleared(s.hist, s.clients[c].activity.cursor, head, n, p1, s.primaryVsn)
    requires n !in s.trees[s.primary] && NoCreateSince(s.hist, head, n)
    ensures Find(s, n) == Missing
  {
    WalkEndsHere(s, c);
    NoneAbove(s, c, n, s.clients[c].activity.cursor, head);
  }

  lemma NoneAbove(s: State, c: Id, n: Name, v: nat, head: nat)
    requires Inv(s) && c in s.clients && s.clients[c].vsn <= head <= |s.hist| && n !in s.trees[s.primary]
    requires 0 < v <= s.primaryVsn + 1 && NoCreateSince(s.hist, head, n)
    requires forall j :: v <= j + 1 && j < head && j >= 0 ==> !NamesIt(s.hist[j], n)
    ensures Find(s, n) == Missing
  {
    forall i | s.primaryVsn <= i < |s.hist|
      ensures !NamesIt(s.hist[i], n)
    {
      if head <= i {
        NoneBeyond(s, c, n, v, head, i);
      }
    }
    NothingNewer(s.hist, s.primaryVsn, n);
  }

  lemma WalkEndsHere(s: State, c: Id)
    requires Inv(s) && Reading(s, c) && s.clients[c].activity.cursor != 0
    requires ApplyClient(s, c, Advance).clients[c].activity.cursor == 0
    ensures 0 < s.clients[c].activity.cursor <= s.primaryVsn + 1
  {
    assert ClientOk(s, c);
  }

  lemma MissingWasRight(g: View, c: Id, n: Name, moves: seq<Move>)
    requires ViewOk(g, c) && g.at.AtTree? && IsTrace(g, c, n, moves) && Answers(g, c, n, moves, Missing)
    requires var e := Then(g, c, n, moves).s; n !in e.trees[e.primary]
    ensures Sometime(g, c, n, moves, Missing)
  {
    OneMoveLater(g, c, n, moves, Missing);
    var pre := moves[..|moves| - 1];
    var s1, s2 := TraceKnows(g, c, n, pre);
    var g' := Then(g, c, n, pre);
    MineKeepsRest(g', c, n);
    if g'.at.AtNode? {
      if NoCreateSince(g'.s.hist, |s2.hist|, n) {
        HeadIsAhead(g', c, n, s1, s2);
        WalkedPastAll(g'.s, c, n, |s2.hist|, s1.primaryVsn);
      }
    } else {
      NothingNewer(g'.s.hist, g'.s.primaryVsn, n);
    }
  }

  /** Exactly when: a lookup that finds nothing is right at some instant if and only if the tree that
      clients read when it answers does not have the name. */
  lemma MissingIffNotInTree(g: View, c: Id, n: Name, moves: seq<Move>)
    requires ViewOk(g, c) && g.at.AtTree? && IsTrace(g, c, n, moves) && Answers(g, c, n, moves, Missing)
    ensures var e := Then(g, c, n, moves).s; Sometime(g, c, n, moves, Missing) <==> n !in e.trees[e.primary]
  {
    var e := Then(g, c, n, moves).s;
    if n in e.trees[e.primary] {
      assert Later(e, e);
      NeverMissing(g, c, n, moves, e);
    } else {
      MissingWasRight(g, c, n, moves);
    }
  }

  // ----- without a swap

  predicate NoSwap(moves: seq<Move>) {
    forall i :: 0 <= i < |moves| ==> moves[i] != Other(Vacuum(SwapTrees))
  }

  /** The tree that clients read stays the same until the next swap. */
  lemma PrimaryTreeKept(s: State, step: Step)
    requires Inv(s) && Enabled(s, step) && step != Vacuum(SwapTrees)
    ensures Inv(Apply(s, step)) && Apply(s, step).primary == s.primary && Apply(s, step).trees[s.primary] == s.trees[s.primary]
  {
    StepKeepsInv(s, step);
    match step
    case Do(c, act) => ClientKeepsTrees(s, c, act);
    case Vacuum(vac) => VacuumKeepsPrimaryTree(s, vac);
  }

  lemma ClientKeepsTrees(s: State, c: Id, act: ClientStep)
    requires Inv(s) && ClientEnabled(s, c, act)
    ensures ApplyClient(s, c, act).primary == s.primary && ApplyClient(s, c, act).trees == s.trees
  {
  }

  lemma VacuumKeepsPrimaryTree(s: State, vac: VacuumStep)
    requires Inv(s) && VacuumEnabled(s, vac) && !vac.SwapTrees?
    ensures var s' := ApplyVacuum(s, vac); s'.primary == s.primary && |s'.trees| == 2 && s'.trees[s.primary] == s.trees[s.primary]
  {
  }

  /** As long as no swap intervenes, the tree that the lookup searches is the one that clients read. */
  predicate Unswapped(g: View, n: Name)
    requires Shape(g.s)
  {
    && (g.at.AtSearch? ==> g.at.t == g.s.primary)
    && (g.at.AtCheck? || g.at.AtList? || g.at.AtNode? || g.at == Answered(Missing) ==> n !in g.s.trees[g.s.primary])
  }

  lemma {:induction false} NoSwapKeepsTree(g: View, c: Id, n: Name, moves: seq<Move>)
    requires ViewOk(g, c) && g.at.AtTree? && IsTrace(g, c, n, moves) && NoSwap(moves)
    ensures Unswapped(Then(g, c, n, moves), n)
    decreases |moves|
  {
    if moves != [] {
      var k := |moves| - 1;
      OneMoveLater(g, c, n, moves, Missing);
      assert NoSwap(moves[..k]);
      NoSwapKeepsTree(g, c, n, moves[..k]);
      UnswappedMove(Then(g, c, n, moves[..k]), c, n, moves[k]);
    }
  }

  lemma UnswappedMove(g: View, c: Id, n: Name, mv: Move)
    requires ViewOk(g, c) && CanMove(g, c, mv) && mv != Other(Vacuum(SwapTrees)) && Unswapped(g, n)
    ensures Inv(Moved(g, c, n, mv).s) && Unswapped(Moved(g, c, n, mv), n)
  {
    match mv
    case Mine => MineKeepsRest(g, c, n);
    case Other(step) => PrimaryTreeKept(g.s, step);
  }

  /** A lookup during which the trees are not swapped answers what some instant holds. */
  lemma UnswappedIsRight(g: View, c: Id, n: Name, moves: seq<Move>, r: Lookup)
    requires ViewOk(g, c) && g.at.AtTree? && IsTrace(g, c, n, moves) && Answers(g, c, n, moves, r) && NoSwap(moves)
    ensures Sometime(g, c, n, moves, r)
  {
    match r
    case Found(w) => FoundWasThere(g, c, n, moves, w);
    case Missing =>
      NoSwapKeepsTree(g, c, n, moves);
      MissingIffNotInTree(g, c, n, moves);
  }

  // ----- a lookup alone

  /** How many accesses a lookup still makes, at most. */
  function Left(g: View, c: Id): nat
    requires ViewOk(g, c)
  {
    match g.at
    case AtTree => |g.s.hist| + 5
    case AtSearch(_) => |g.s.hist| + 4
    case AtCheck => |g.s.hist| + 3
    case AtList => |g.s.hist| + 2
    case AtNode => g.s.clients[c].activity.cursor + 1
    case Answered(_) => 0
  }

  lemma WalkPays(g: View, c: Id, n: Name)
    requires ViewOk(g, c) && g.at.AtNode?
    ensures ViewOk(Moved(g, c, n, Mine), c) && Left(Moved(g, c, n, Mine), c) < Left(g, c)
  {
    MoveKeepsView(g, c, n, Mine);
    if Moved(g, c, n, Mine).at.AtNode? {
      WalkGoesOn(g, c, n);
    }
  }

  lemma ListPays(g: View, c: Id, n: Name)
    requires ViewOk(g, c) && g.at.AtList?
    ensures ViewOk(Moved(g, c, n, Mine), c) && Left(Moved(g, c, n, Mine), c) < Left(g, c)
  {
    MoveKeepsView(g, c, n, Mine);
    if Moved(g, c, n, Mine).at.AtNode? {
      WalkBegins(g, c, n);
    }
  }

  lemma EarlyPays(g: View, c: Id, n: Name)
    requires ViewOk(g, c) && (g.at.AtTree? || g.at.AtSearch? || g.at.AtCheck?)
    ensures ViewOk(Moved(g, c, n, Mine), c) && Left(Moved(g, c, n, Mine), c) < Left(g, c)
  {
    MoveKeepsView(g, c, n, Mine);
    MineKeepsRest(g, c, n);
  }

  lemma MinePays(g: View, c: Id, n: Name)
    requires ViewOk(g, c) && !g.at.Answered?
    ensures ViewOk(Moved(g, c, n, Mine), c) && Left(Moved(g, c, n, Mine), c) < Left(g, c)
  {
    match g.at
    case AtNode => WalkPays(g, c, n);
    case AtList => ListPays(g, c, n);
    case _ => EarlyPays(g, c, n);
  }

  /** What a client was handed by its accesses: nothing is taken away, and a filter that was found is
      now held. */
  lemma MineHands(g: View, c: Id, n: Name)
    requires ViewOk(g, c) && !g.at.Answered?
    ensures var g' := Moved(g, c, n, Mine);
            && Reading(g'.s, c)
            && g'.s.clients[c].activity.held == g.s.clients[c].activity.held + (match g'.at case Answered(Found(w)) => {w} case _ => {})
            && g'.s.clients[c].activity.trees == g.s.clients[c].activity.trees + (if g.at.AtTree? then {g.s.primary} else {})
  {
    MineKeepsRest(g, c, n);
  }

  /** Only the entry of the client changes. */
  lemma MineEnters(g: View, c: Id, n: Name)
    requires ViewOk(g, c) && !g.at.Answered?
    ensures var s' := Moved(g, c, n, Mine).s; c in s'.clients && s' == g.s.(clients := g.s.clients[c := s'.clients[c]])
  {
    MineKeepsRest(g, c, n);
    match AccessOf(g.s, c, n, g.at)
    case Nothing => assert g.s.clients[c := g.s.clients[c]] == g.s.clients;
    case Does(_) =>
  }

  predicate AllMine(moves: seq<Move>) {
    forall i :: 0 <= i < |moves| ==> moves[i].Mine?
  }

  /** Between `s` and the view only the reach of the client has changed: by the tree that clients read
      and by the filter that was found. */
  ghost predicate Handed(s: State, g: View, c: Id)
    requires Reading(s, c)
  {
    && Reading(g.s, c) && g.s == s.(clients := g.s.clients) && g.s.clients.Keys == s.clients.Keys
    && (forall d :: d in s.clients && d != c ==> g.s.clients[d] == s.clients[d])
    && var a, a' := s.clients[c].activity, g.s.clients[c].activity;
       && a'.trees == a.trees + (if g.at.AtTree? then {} else {s.primary})
       && a'.held == a.held + (match g.at case Answered(Found(w)) => {w} case _ => {})
  }

  lemma HandedOneMore(s: State, g: View, c: Id, n: Name)
    requires Inv(s) && Reading(s, c) && ViewOk(g, c) && !g.at.Answered? && Handed(s, g, c)
    ensures ViewOk(Moved(g, c, n, Mine), c) && Handed(s, Moved(g, c, n, Mine), c)
  {
    MoveKeepsView(g, c, n, Mine);
    MineHands(g, c, n);
    MineEnters(g, c, n);
    MinePlaces(g, c, n);
    HandedAgain(s, g, Moved(g, c, n, Mine), c);
  }

  lemma MinePlaces(g: View, c: Id, n: Name)
    requires ViewOk(g, c) && !g.at.Answered?
    ensures !Moved(g, c, n, Mine).at.AtTree?
  {
  }

  lemma HandedAgain(s: State, g: View, g': View, c: Id)
    requires Reading(s, c) && Handed(s, g, c) && !g.at.Answered? && !g'.at.AtTree? && Reading(g'.s, c)
    requires g'.s == g.s.(clients := g.s.clients[c := g'.s.clients[c]])
    requires var a, a' := g.s.clients[c].activity, g'.s.clients[c].activity;
             && a'.held == a.held + (match g'.at case Answered(Found(w)) => {w} case _ => {})
             && a'.trees == a.trees + (if g.at.AtTree? then {g.s.primary} else {})
    ensures Handed(s, g', c)
  {
  }

  /** With nobody else moving, every instant holds the same. */
  lemma {:induction false} AloneSame(g: View, c: Id, n: Name, moves: seq<Move>, r: Lookup)
    requires ViewOk(g, c) && IsTrace(g, c, n, moves) && AllMine(moves) && Sometime(g, c, n, moves, r)
    ensures Then(g, c, n, moves).s == g.s.(clients := Then(g, c, n, moves).s.clients)
    ensures Find(g.s, n) == r
    decreases |moves|
  {
    AloneKeeps(g, c, n, moves);
    if moves != [] {
      var pre := moves[..|moves| - 1];
      OneMoveLater(g, c, n, moves, r);
      if Sometime(g, c, n, pre, r) {
        AloneSame(g, c, n, pre, r);
      }
    }
  }

  lemma {:induction false} AloneKeeps(g: View, c: Id, n: Name, moves: seq<Move>)
    requires ViewOk(g, c) && IsTrace(g, c, n, moves) && AllMine(moves)
    ensures Then(g, c, n, moves).s == g.s.(clients := Then(g, c, n, moves).s.clients)
    ensures Find(Then(g, c, n, moves).s, n) == Find(g.s, n)
    decreases |moves|
  {
    if moves != [] {
      var pre := moves[..|moves| - 1];
      OneMoveLater(g, c, n, moves, Missing);
      AloneKeeps(g, c, n, pre);
      MineKeepsRest(Then(g, c, n, pre), c, n);
      SameFind(Then(g, c, n, pre).s, Then(g, c, n, moves).s, n);
    }
  }

  lemma SameFind(s: State, s': State, n: Name)
    requires Inv(s) && Inv(s') && s' == s.(clients := s'.clients)
    ensures Find(s', n) == Find(s, n)
  {
  }

  lemma MoveOn(g: View, c: Id, n: Name, moves: seq<Move>, mv: Move)
    requires ViewOk(g, c) && IsTrace(g, c, n, moves) && CanMove(Then(g, c, n, moves), c, mv)
    ensures IsTrace(g, c, n, moves + [mv]) && Then(g, c, n, moves + [mv]) == Moved(Then(g, c, n, moves), c, n, mv)
  {
    assert (moves + [mv])[..|moves|] == moves;
  }

  lemma OneAccess(g: View, c: Id, n: Name, moves: seq<Move>, here: View) returns (moves': seq<Move>, here': View)
    requires ViewOk(g, c) && IsTrace(g, c, n, moves) && AllMine(moves) && here == Then(g, c, n, moves) && Handed(g.s, here, c)
    requires !here.at.Answered?
    ensures IsTrace(g, c, n, moves') && AllMine(moves') && moves' != [] && here' == Then(g, c, n, moves') && ViewOk(here', c)
    ensures Handed(g.s, here', c) && Left(here', c) < Left(here, c)
  {
    MinePays(here, c, n);
    HandedOneMore(g.s, here, c, n);
    MoveOn(g, c, n, moves, Mine);
    moves', here' := moves + [Mine], Moved(here, c, n, Mine);
  }

  lemma AloneEnds(g: View, c: Id, n: Name) returns (moves: seq<Move>)
    requires ViewOk(g, c) && g.at.AtTree?
    ensures IsTrace(g, c, n, moves) && AllMine(moves) && moves != [] && Then(g, c, n, moves).at.Answered?
    ensures Handed(g.s, Then(g, c, n, moves), c)
  {
    moves := [];
    var here := g;
    while !here.at.Answered?
      invariant IsTrace(g, c, n, moves) && AllMine(moves) && here == Then(g, c, n, moves) && Handed(g.s, here, c)
      invariant moves == [] ==> here == g
      decreases Left(here, c)
    {
      moves, here := OneAccess(g, c, n, moves, here);
    }
  }

  /** In every run: a client inside an operation that looks `n` up, with nobody else moving meanwhile,
      can make all its accesses, answers what `Find` says, and then holds the filter it found. */
  lemma AloneFinds(s0: State, steps: seq<Step>, c: Id, n: Name) returns (moves: seq<Move>)
    requires IsRun(s0, steps) && Reading(After(s0, steps), c)
    ensures ViewOk(View(After(s0, steps), AtTree), c) && IsTrace(View(After(s0, steps), AtTree), c, n, moves) && AllMine(moves)
    ensures var s := After(s0, steps); var g := Then(View(s, AtTree), c, n, moves);
            && g.at == Answered(Find(s, n)) && Handed(s, g, c)
            && (Find(s, n).Found? ==> Find(s, n).filter in g.s.clients[c].activity.held)
  {
    var g := View(After(s0, steps), AtTree);
    moves := AloneEnds(g, c, n);
    var r := Then(g, c, n, moves).at.r;
    assert NoSwap(moves);
    UnswappedIsRight(g, c, n, moves, r);
    AloneSame(g, c, n, moves, r);
  }

  /** The state in which client `c`, walking down the list alone, stands at version `v`. */
  ghost function WalkTo(s: State, c: Id, v: nat): (s': State)
    requires Inv(s) && Reading(s, c) && s.primaryVsn < v <= |s.hist|
    ensures Inv(s') && Reading(s', c) && s' == s.(clients := s'.clients) && s'.clients[c].activity.cursor == v
    decreases |s.hist| - v
  {
    if v == |s.hist| then
      ClientTableStepKeepsInv(s, c, ReadDelta);
      ApplyClient(s, c, ReadDelta)
    else
      ClientTableStepKeepsInv(WalkTo(s, c, v + 1), c, Advance);
      ApplyClient(WalkTo(s, c, v + 1), c, Advance)
  }

  /** In every run: the walk passes the update of every version that the tree lacks, newest first, and
      stops after the first of them. */
  lemma WalkPassesAll(s0: State, steps: seq<Step>, c: Id, v: nat)
    requires IsRun(s0, steps) && Reading(After(s0, steps), c)
    requires After(s0, steps).primaryVsn < v <= |After(s0, steps).hist|
    ensures var s := After(s0, steps); var s' := WalkTo(s, c, v);
            && ClientEnabled(s', c, Advance) && NodeAt(s', c) == s.hist[v - 1]
            && ApplyClient(s', c, Advance).clients[c].activity.cursor == if v == s.primaryVsn + 1 then 0 else v - 1
  {
    WalkStands(After(s0, steps), WalkTo(After(s0, steps), c, v), c, v);
  }

  lemma WalkStands(s: State, s': State, c: Id, v: nat)
    requires Inv(s) && Inv(s') && Reading(s', c) && s' == s.(clients := s'.clients) && s'.clients[c].activity.cursor == v
    requires s.primaryVsn < v <= |s.hist|
    ensures ClientEnabled(s', c, Advance) && NodeAt(s', c) == s.hist[v - 1]
    ensures ApplyClient(s', c, Advance).clients[c].activity.cursor == if v == s.primaryVsn + 1 then 0 else v - 1
  {
    assert ClientOk(s', c);
  }
}
