/**
 A lookup as the program makes it: it reads the tree pointer, searches the tree, compares the two
 versions, reads the head of the list and walks down, while every other client and the vacuum go on
 between any two of these accesses.
 */
module MvccLookup {
  import opened Mvcc
  import opened MvccInvariant
  import opened MvccTheorems
  import opened MvccConvergence

  /** The access that the lookup makes next; `t` is the tree whose pointer it has read. */
  datatype Place =
    | AtTree
    | AtSearch(t: nat)
    | AtCheck
    | AtList
    | AtNode
    | Answered(r: Lookup)

  /** A lookup under way in a state of the protocol. */
  datatype View = View(s: State, at: Place)

  /** The lookup makes its next access, or somebody else makes a step. */
  datatype Move = Mine | Other(step: Step)

  predicate NamesIt(u: Update, n: Name) {
    !u.Barrier? && u.name == n
  }

  predicate PlaceOk(s: State, c: Id, at: Place) {
    && Reading(s, c)
    && (at.AtSearch? ==> at.t < 2 && at.t in s.clients[c].activity.trees)
    && (at.AtNode? ==> s.clients[c].activity.cursor != 0)
  }

  predicate ViewOk(g: View, c: Id) {
    Inv(g.s) && PlaceOk(g.s, c, g.at)
  }

  datatype Access = Nothing | Does(act: ClientStep)

  /** What the next access changes in the reach of the client. */
  function AccessOf(s: State, c: Id, n: Name, at: Place): Access
    requires ViewOk(View(s, at), c)
  {
    match at
    case AtTree => Does(ReadTree)
    case AtSearch(t) => if n in s.trees[t] then Does(TakeFromTree(t, n)) else Nothing
    case AtCheck => Nothing
    case AtList => if s.low < |s.hist| then Does(ReadDelta) else Nothing
    case AtNode => Does(if NamesIt(NodeAt(s, c), n) then TakeFromNode else Advance)
    case Answered(_) => Nothing
  }

  function StateThen(s: State, c: Id, n: Name, at: Place): State
    requires ViewOk(View(s, at), c)
  {
    match AccessOf(s, c, n, at)
    case Nothing => s
    case Does(act) => ApplyClient(s, c, act)
  }

  function PlaceThen(s: State, c: Id, n: Name, at: Place): Place
    requires ViewOk(View(s, at), c)
  {
    match at
    case AtTree => AtSearch(s.primary)
    case AtSearch(t) => if n in s.trees[t] then Answered(Found(s.trees[t][n])) else AtCheck
    case AtCheck => if s.primaryVsn == |s.hist| then Answered(Missing) else AtList
    case AtList => if s.low < |s.hist| then AtNode else Answered(Missing)
    case AtNode =>
      if NamesIt(NodeAt(s, c), n) then Answered(Found(NodeAt(s, c).filter))
      else if ApplyClient(s, c, Advance).clients[c].activity.cursor == 0 then Answered(Missing)
      else AtNode
    case Answered(_) => at
  }

  predicate CanMove(g: View, c: Id, mv: Move)
    requires ViewOk(g, c)
  {
    match mv
    case Mine => !g.at.Answered?
    case Other(step) => Enabled(g.s, step) && !(step.Do? && step.c == c)
  }

  function Moved(g: View, c: Id, n: Name, mv: Move): View
    requires ViewOk(g, c) && CanMove(g, c, mv)
  {
    match mv
    case Mine => View(StateThen(g.s, c, n, g.at), PlaceThen(g.s, c, n, g.at))
    case Other(step) => View(Apply(g.s, step), g.at)
  }

  /** Nobody else touches the entry of the client. */
  lemma OthersKeepEntry(s: State, step: Step, c: Id)
    requires Inv(s) && Enabled(s, step) && !(step.Do? && step.c == c) && c in s.clients
    ensures c in Apply(s, step).clients && Apply(s, step).clients[c] == s.clients[c]
  {
    match step
    case Do(d, act) => OtherClientKeepsEntry(s, d, act, c);
    case Vacuum(vac) => VacuumKeepsEntry(s, vac, c);
  }

  lemma OtherClientKeepsEntry(s: State, d: Id, act: ClientStep, c: Id)
    requires Inv(s) && ClientEnabled(s, d, act) && d != c && c in s.clients
    ensures c in ApplyClient(s, d, act).clients && ApplyClient(s, d, act).clients[c] == s.clients[c]
  {
  }

  lemma VacuumKeepsEntry(s: State, vac: VacuumStep, c: Id)
    requires Inv(s) && VacuumEnabled(s, vac)
    ensures ApplyVacuum(s, vac).clients == s.clients
  {
  }

  /** The own accesses change nothing but what the client reaches. */
  lemma MineKeepsRest(g: View, c: Id, n: Name)
    requires ViewOk(g, c)
    ensures var s' := StateThen(g.s, c, n, g.at);
            && Inv(s') && Reading(s', c) && s'.clients[c].vsn == g.s.clients[c].vsn && s' == g.s.(clients := s'.clients)
  {
    match AccessOf(g.s, c, n, g.at)
    case Nothing =>
    case Does(act) => ClientTableStepKeepsInv(g.s, c, act);
  }

  lemma MoveKeepsView(g: View, c: Id, n: Name, mv: Move)
    requires ViewOk(g, c) && CanMove(g, c, mv)
    ensures ViewOk(Moved(g, c, n, mv), c) && Moved(g, c, n, mv).s.clients[c].vsn == g.s.clients[c].vsn
  {
    match mv
    case Mine => MineKeepsRest(g, c, n);
    case Other(step) =>
      StepKeepsInv(g.s, step);
      OthersKeepEntry(g.s, step, c);
  }

  /** `moves` leads on from `g`; `Then` is where it leads. */
  ghost predicate IsTrace(g: View, c: Id, n: Name, moves: seq<Move>)
    requires ViewOk(g, c)
    decreases |moves|, 0
  {
    moves == [] ||
    (var k := |moves| - 1;
     IsTrace(g, c, n, moves[..k]) && CanMove(Then(g, c, n, moves[..k]), c, moves[k]))
  }

  ghost function Then(g: View, c: Id, n: Name, moves: seq<Move>): (g': View)
    requires ViewOk(g, c) && IsTrace(g, c, n, moves)
    ensures ViewOk(g', c) && g'.s.clients[c].vsn == g.s.clients[c].vsn
    decreases |moves|, 1
  {
    if moves == [] then g
    else
      var k := |moves| - 1;
      MoveKeepsView(Then(g, c, n, moves[..k]), c, n, moves[k]);
      Moved(Then(g, c, n, moves[..k]), c, n, moves[k])
  }

  /** At some instant of the lookup, its start and its end included, a lookup in one go gives `r`. */
  ghost predicate Sometime(g: View, c: Id, n: Name, moves: seq<Move>, r: Lookup)
    requires ViewOk(g, c) && IsTrace(g, c, n, moves)
    decreases |moves|
  {
    Find(Then(g, c, n, moves).s, n) == r || (moves != [] && Sometime(g, c, n, moves[..|moves| - 1], r))
  }

  // ----- what later states keep

  predicate Aged(x: Wrapper, y: Wrapper, v: nat) {
    && y.name == x.name && y.born == x.born
    && (if x.died != 0 then y.died == x.died else y.died == 0 || v < y.died)
  }

  predicate BornAfter(x: Wrapper, v: nat) {
    v < x.born
  }

  /** Updates and wrappers are only added, a death is recorded under a new version, and the versions
      of the tree and of the end of the list only grow. */
  ghost predicate Later(s: State, s': State) {
    && s.hist <= s'.hist && s.primaryVsn <= s'.primaryVsn && s.low <= s'.low && |s.wrappers| <= |s'.wrappers|
    && (forall w {:trigger Aged(s.wrappers[w], s'.wrappers[w], |s.hist|)} :: 0 <= w < |s.wrappers| ==>
          Aged(s.wrappers[w], s'.wrappers[w], |s.hist|))
    && (forall w {:trigger BornAfter(s'.wrappers[w], |s.hist|)} :: |s.wrappers| <= w < |s'.wrappers| ==>
          BornAfter(s'.wrappers[w], |s.hist|))
  }

  lemma LaterThen(s: State, t: State, u: State)
    requires Later(s, t) && Later(t, u)
    ensures Later(s, u)
  {
    forall w | 0 <= w < |s.wrappers|
      ensures Aged(s.wrappers[w], u.wrappers[w], |s.hist|)
    {
      assert Aged(s.wrappers[w], t.wrappers[w], |s.hist|) && Aged(t.wrappers[w], u.wrappers[w], |t.hist|);
    }
    forall w | |s.wrappers| <= w < |u.wrappers|
      ensures BornAfter(u.wrappers[w], |s.hist|)
    {
      if w < |t.wrappers| {
        assert BornAfter(t.wrappers[w], |s.hist|) && Aged(t.wrappers[w], u.wrappers[w], |t.hist|);
      } else {
        assert BornAfter(u.wrappers[w], |t.hist|);
      }
    }
  }

  lemma ClientStepsLater(s: State, c: Id, act: ClientStep)
    requires Inv(s) && ClientEnabled(s, c, act)
    ensures Later(s, ApplyClient(s, c, act))
  {
  }

  lemma VacuumStepsLater(s: State, vac: VacuumStep)
    requires Inv(s) && VacuumEnabled(s, vac)
    ensures Later(s, ApplyVacuum(s, vac))
  {
    if vac.FreeNext? {
      assert UpdateOk(s.wrappers, s.hist[s.phase.at - 1], s.phase.at);
    }
  }

  lemma MoveIsLater(g: View, c: Id, n: Name, mv: Move)
    requires ViewOk(g, c) && CanMove(g, c, mv)
    ensures Later(g.s, Moved(g, c, n, mv).s)
  {
    match mv
    case Mine => MineKeepsRest(g, c, n);
    case Other(step) =>
      match step
      case Do(d, act) => ClientStepsLater(g.s, d, act);
      case Vacuum(vac) => VacuumStepsLater(g.s, vac);
  }

  // ----- what the lookup knows on its way

  /** The updates between the two versions are barriers. */
  predicate OnlyBarriers(hist: seq<Update>, low: nat, v: nat)
    requires v <= |hist|
  {
    forall i :: low <= i < v ==> hist[i].Barrier?
  }

  /** `s1` is an earlier state; what of the list was merged by then is of no interest any more once
      the tree has been swapped. */
  ghost predicate Since(s1: State, s: State, c: Id) {
    && Shape(s1) && c in s1.clients && c in s.clients && s1.clients[c].vsn == s.clients[c].vsn && Later(s1, s)
    && s1.primaryVsn <= |s.hist| && (s1.primaryVsn == s.primaryVsn || OnlyBarriers(s.hist, s.low, s1.primaryVsn))
  }

  lemma SinceItself(s: State, c: Id)
    requires Inv(s) && c in s.clients
    ensures Since(s, s, c)
  {
  }

  lemma StepKeepsGap(s: State, step: Step, v: nat)
    requires Inv(s) && Enabled(s, step) && v <= |s.hist| && (v == s.primaryVsn || OnlyBarriers(s.hist, s.low, v))
    requires Later(s, Apply(s, step))
    ensures var s' := Apply(s, step); v == s'.primaryVsn || OnlyBarriers(s'.hist, s'.low, v)
  {
    var s' := Apply(s, step);
    if v == s.primaryVsn != s'.primaryVsn {
      PrimaryMoves(s, step);
    }
    assert forall i :: 0 <= i < |s.hist| ==> s'.hist[i] == s.hist[i];
  }

  /** The merged version changes only while nothing but barriers lies below it in the list. */
  lemma PrimaryMoves(s: State, step: Step)
    requires Inv(s) && Enabled(s, step) && Apply(s, step).primaryVsn != s.primaryVsn
    ensures OnlyBarriers(s.hist, s.low, s.primaryVsn)
  {
    match step
    case Do(c, act) => ClientKeepsPrimary(s, c, act);
    case Vacuum(vac) => VacuumMovesPrimary(s, vac);
  }

  lemma VacuumMovesPrimary(s: State, vac: VacuumStep)
    requires Inv(s) && VacuumEnabled(s, vac) && ApplyVacuum(s, vac).primaryVsn != s.primaryVsn
    ensures OnlyBarriers(s.hist, s.low, s.primaryVsn)
  {
  }

  lemma MoveKeepsSince(s1: State, g: View, c: Id, n: Name, mv: Move)
    requires ViewOk(g, c) && CanMove(g, c, mv) && Since(s1, g.s, c)
    ensures Since(s1, Moved(g, c, n, mv).s, c)
  {
    MoveKeepsView(g, c, n, mv);
    MoveIsLater(g, c, n, mv);
    LaterThen(s1, g.s, Moved(g, c, n, mv).s);
    match mv
    case Mine => MineKeepsRest(g, c, n);
    case Other(step) => StepKeepsGap(g.s, step, s1.primaryVsn);
  }

  /** Down to version `v`, none of the updates up to version `head` names `n`; the walk has gone below
      version `p1` only after the merged version had moved on from there. */
  predicate Cleared(hist: seq<Update>, v: nat, head: nat, n: Name, p1: nat, primaryVsn: nat) {
    && v <= head <= |hist| && (v <= p1 ==> p1 < primaryVsn)
    && forall i :: v <= i < head ==> !NamesIt(hist[i], n)
  }

  lemma ClearedOneMore(hist: seq<Update>, v: nat, head: nat, n: Name, p1: nat, primaryVsn: nat)
    requires Cleared(hist, v, head, n, p1, primaryVsn) && p1 <= primaryVsn && 0 < v != primaryVsn + 1 && !NamesIt(hist[v - 1], n)
    ensures Cleared(hist, v - 1, head, n, p1, primaryVsn)
  {
  }

  lemma ClearedStays(hist: seq<Update>, hist': seq<Update>, v: nat, head: nat, n: Name, p1: nat, primaryVsn: nat, primaryVsn': nat)
    requires Cleared(hist, v, head, n, p1, primaryVsn) && hist <= hist' && primaryVsn <= primaryVsn'
    ensures Cleared(hist', v, head, n, p1, primaryVsn')
  {
  }

  /** The walk began in `s2` and has cleared the list down to its node. */
  ghost predicate Passed(g: View, c: Id, n: Name, s1: State, s2: State)
    requires Reading(g.s, c)
  {
    && Since(s2, g.s, c) && Later(s1, s2)
    && Cleared(g.s.hist, g.s.clients[c].activity.cursor, |s2.hist|, n, s1.primaryVsn, g.s.primaryVsn)
  }

  ghost predicate Knows(g: View, c: Id, n: Name, s1: State, s2: State)
    requires ViewOk(g, c)
  {
    match g.at
    case AtSearch(t) => Since(s1, g.s, c) && g.s.trees[t] == s1.trees[s1.primary]
    case AtCheck => Since(s1, g.s, c) && n !in s1.trees[s1.primary]
    case AtList => Since(s1, g.s, c) && n !in s1.trees[s1.primary] && s1.primaryVsn < |g.s.hist|
    case AtNode => Since(s1, g.s, c) && n !in s1.trees[s1.primary] && Passed(g, c, n, s1, s2)
    case _ => true
  }

  lemma TreeInUseKept(s: State, step: Step, c: Id, t: nat)
    requires Inv(s) && Enabled(s, step) && Reading(s, c) && t < 2 && t in s.clients[c].activity.trees
    ensures Inv(Apply(s, step)) && Apply(s, step).trees[t] == s.trees[t]
  {
    StepKeepsInv(s, step);
    if Mutates(s, step, t) {
      OnlyMergesWrite(s, step, t);
      NobodyReadsAlt(s, c);
    }
  }

  lemma OtherKeepsKnowledge(g: View, c: Id, n: Name, step: Step, s1: State, s2: State)
    requires ViewOk(g, c) && CanMove(g, c, Other(step)) && Knows(g, c, n, s1, s2)
    ensures ViewOk(Moved(g, c, n, Other(step)), c) && Knows(Moved(g, c, n, Other(step)), c, n, s1, s2)
  {
    var g' := Moved(g, c, n, Other(step));
    MoveKeepsView(g, c, n, Other(step));
    MoveIsLater(g, c, n, Other(step));
    OthersKeepEntry(g.s, step, c);
    match g.at
    case AtSearch(t) =>
      MoveKeepsSince(s1, g, c, n, Other(step));
      TreeInUseKept(g.s, step, c, t);
    case AtCheck => MoveKeepsSince(s1, g, c, n, Other(step));
    case AtList => MoveKeepsSince(s1, g, c, n, Other(step));
    case AtNode =>
      MoveKeepsSince(s1, g, c, n, Other(step));
      MoveKeepsSince(s2, g, c, n, Other(step));
      ClearedStays(g.s.hist, g'.s.hist, g.s.clients[c].activity.cursor, |s2.hist|, n, s1.primaryVsn, g.s.primaryVsn, g'.s.primaryVsn);
    case _ =>
  }

  lemma FirstKnowledge(g: View, c: Id, n: Name)
    requires ViewOk(g, c) && g.at.AtTree?
    ensures ViewOk(Moved(g, c, n, Mine), c)
    ensures forall s2 :: Knows(Moved(g, c, n, Mine), c, n, g.s, s2)
  {
    MoveKeepsView(g, c, n, Mine);
    MineKeepsRest(g, c, n);
    SinceItself(g.s, c);
    MoveKeepsSince(g.s, g, c, n, Mine);
  }

  /** The walk begins at the head of the list. */
  lemma WalkBegins(g: View, c: Id, n: Name)
    requires ViewOk(g, c) && g.at.AtList? && Moved(g, c, n, Mine).at.AtNode?
    ensures var s' := Moved(g, c, n, Mine).s;
            Reading(s', c) && s' == g.s.(clients := s'.clients) && s'.clients[c].activity.cursor == |g.s.hist|
  {
    MineKeepsRest(g, c, n);
  }

  /** It goes down node by node, and not below the first version that the tree lacks. */
  lemma WalkGoesOn(g: View, c: Id, n: Name)
    requires ViewOk(g, c) && g.at.AtNode? && Moved(g, c, n, Mine).at.AtNode?
    ensures var s', v := Moved(g, c, n, Mine).s, g.s.clients[c].activity.cursor;
            && Reading(s', c) && s' == g.s.(clients := s'.clients) && 0 < v <= |g.s.hist| && v != g.s.primaryVsn + 1
            && s'.clients[c].activity.cursor == v - 1 && !NamesIt(g.s.hist[v - 1], n)
  {
    assert ClientOk(g.s, c);
    MineKeepsRest(g, c, n);
  }

  lemma ListKnowledge(g: View, c: Id, n: Name, s1: State, s2: State)
    requires ViewOk(g, c) && g.at.AtList? && Knows(g, c, n, s1, s2)
    ensures ViewOk(Moved(g, c, n, Mine), c) && Knows(Moved(g, c, n, Mine), c, n, s1, g.s)
  {
    MoveKeepsView(g, c, n, Mine);
    MoveKeepsSince(s1, g, c, n, Mine);
    if Moved(g, c, n, Mine).at.AtNode? {
      WalkBegins(g, c, n);
      SinceItself(g.s, c);
      MoveKeepsSince(g.s, g, c, n, Mine);
    }
  }

  lemma NodeKnowledge(g: View, c: Id, n: Name, s1: State, s2: State)
    requires ViewOk(g, c) && g.at.AtNode? && Knows(g, c, n, s1, s2)
    ensures ViewOk(Moved(g, c, n, Mine), c) && Knows(Moved(g, c, n, Mine), c, n, s1, s2)
  {
    MoveKeepsView(g, c, n, Mine);
    MoveKeepsSince(s1, g, c, n, Mine);
    MoveKeepsSince(s2, g, c, n, Mine);
    if Moved(g, c, n, Mine).at.AtNode? {
      WalkClears(g, c, n, |s2.hist|, s1.primaryVsn);
    }
  }

  lemma WalkClears(g: View, c: Id, n: Name, head: nat, p1: nat)
    requires ViewOk(g, c) && g.at.AtNode? && Moved(g, c, n, Mine).at.AtNode? && p1 <= g.s.primaryVsn
    requires Cleared(g.s.hist, g.s.clients[c].activity.cursor, head, n, p1, g.s.primaryVsn)
    ensures var s' := Moved(g, c, n, Mine).s;
            Reading(s', c) && Cleared(s'.hist, s'.clients[c].activity.cursor, head, n, p1, s'.primaryVsn)
  {
    WalkGoesOn(g, c, n);
    ClearedOneMore(g.s.hist, g.s.clients[c].activity.cursor, head, n, p1, g.s.primaryVsn);
  }

  lemma MineKeepsKnowledge(g: View, c: Id, n: Name, s1: State, s2: State)
    requires ViewOk(g, c) && CanMove(g, c, Mine) && Knows(g, c, n, s1, s2)
    ensures ViewOk(Moved(g, c, n, Mine), c)
    ensures Knows(Moved(g, c, n, Mine), c, n, if g.at.AtTree? then g.s else s1, if g.at.AtList? then g.s else s2)
  {
    match g.at
    case AtTree => FirstKnowledge(g, c, n);
    case AtList => ListKnowledge(g, c, n, s1, s2);
    case AtNode => NodeKnowledge(g, c, n, s1, s2);
    case _ =>
      MoveKeepsView(g, c, n, Mine);
      MoveKeepsSince(s1, g, c, n, Mine);
  }

  // ----- the instants

  /** No update above version `v` creates `n`. */
  predicate NoCreateSince(hist: seq<Update>, v: nat, n: Name) {
    forall i :: v <= i < |hist| ==> !(hist[i].Create? && hist[i].name == n)
  }

  /** The two states that a lookup remembers are instants of it, and whoever created the name since
      the head was read has found it missing. */
  ghost predicate Instants(g: View, c: Id, n: Name, moves: seq<Move>, s1: State, s2: State)
    requires ViewOk(g, c) && IsTrace(g, c, n, moves)
  {
    var g' := Then(g, c, n, moves);
    !g'.at.AtTree? && !g'.at.Answered? ==>
      && Inv(s1) && Sometime(g, c, n, moves, Find(s1, n))
      && (g'.at.AtNode? ==>
            && Inv(s2) && Sometime(g, c, n, moves, Find(s2, n))
            && (NoCreateSince(g'.s.hist, |s2.hist|, n) || Sometime(g, c, n, moves, Missing)))
  }

  lemma CreatorFoundNothing(s: State, step: Step, v: nat, n: Name)
    requires Inv(s) && Enabled(s, step) && NoCreateSince(s.hist, v, n) && Find(s, n) != Missing
    ensures NoCreateSince(Apply(s, step).hist, v, n)
  {
    match step
    case Do(c, act) => ClientCreates(s, c, act, v, n);
    case Vacuum(vac) => VacuumCreatesNone(s, vac, v, n);
  }

  lemma ClientCreates(s: State, c: Id, act: ClientStep, v: nat, n: Name)
    requires Inv(s) && ClientEnabled(s, c, act) && NoCreateSince(s.hist, v, n) && Find(s, n) != Missing
    ensures NoCreateSince(ApplyClient(s, c, act).hist, v, n)
  {
  }

  lemma VacuumCreatesNone(s: State, vac: VacuumStep, v: nat, n: Name)
    requires Inv(s) && VacuumEnabled(s, vac) && NoCreateSince(s.hist, v, n)
    ensures NoCreateSince(ApplyVacuum(s, vac).hist, v, n)
  {
  }

  lemma OneMoveLater(g: View, c: Id, n: Name, moves: seq<Move>, r: Lookup)
    requires ViewOk(g, c) && IsTrace(g, c, n, moves) && moves != []
    ensures var pre := moves[..|moves| - 1];
            && IsTrace(g, c, n, pre) && CanMove(Then(g, c, n, pre), c, moves[|moves| - 1])
            && Then(g, c, n, moves) == Moved(Then(g, c, n, pre), c, n, moves[|moves| - 1])
            && (Sometime(g, c, n, pre, r) ==> Sometime(g, c, n, moves, r))
            && Sometime(g, c, n, pre, Find(Then(g, c, n, pre).s, n))
  {
  }

  lemma {:induction false} TraceKnows(g: View, c: Id, n: Name, moves: seq<Move>) returns (s1: State, s2: State)
    requires ViewOk(g, c) && g.at.AtTree? && IsTrace(g, c, n, moves)
    ensures Knows(Then(g, c, n, moves), c, n, s1, s2) && Instants(g, c, n, moves, s1, s2)
    decreases |moves|
  {
    if moves == [] {
      s1, s2 := g.s, g.s;
    } else {
      var k := |moves| - 1;
      OneMoveLater(g, c, n, moves, Missing);
      s1, s2 := TraceKnows(g, c, n, moves[..k]);
      var g' := Then(g, c, n, moves[..k]);
      match moves[k] {
        case Mine =>
          MineKeepsKnowledge(g', c, n, s1, s2);
          MineKeepsInstants(g, c, n, moves, s1, s2);
          s1, s2 := if g'.at.AtTree? then g'.s else s1, if g'.at.AtList? then g'.s else s2;
        case Other(step) =>
          OtherKeepsKnowledge(g', c, n, step, s1, s2);
          OtherKeepsInstants(g, c, n, moves, s1, s2, step);
      }
    }
  }

  lemma MineKeepsInstants(g: View, c: Id, n: Name, moves: seq<Move>, s1: State, s2: State)
    requires ViewOk(g, c) && IsTrace(g, c, n, moves) && moves != [] && moves[|moves| - 1].Mine?
    requires IsTrace(g, c, n, moves[..|moves| - 1]) && Instants(g, c, n, moves[..|moves| - 1], s1, s2)
    ensures var g' := Then(g, c, n, moves[..|moves| - 1]);
            Instants(g, c, n, moves, if g'.at.AtTree? then g'.s else s1, if g'.at.AtList? then g'.s else s2)
  {
    var g' := Then(g, c, n, moves[..|moves| - 1]);
    OneMoveLater(g, c, n, moves, Missing);
    OneMoveLater(g, c, n, moves, Find(g'.s, n));
    MineKeepsRest(g', c, n);
    if !g'.at.AtTree? && !g'.at.Answered? {
      OneMoveLater(g, c, n, moves, Find(s1, n));
      if g'.at.AtNode? {
        OneMoveLater(g, c, n, moves, Find(s2, n));
      }
    }
  }

  lemma OtherKeepsInstants(g: View, c: Id, n: Name, moves: seq<Move>, s1: State, s2: State, step: Step)
    requires ViewOk(g, c) && IsTrace(g, c, n, moves) && moves != [] && moves[|moves| - 1] == Other(step)
    requires IsTrace(g, c, n, moves[..|moves| - 1]) && Instants(g, c, n, moves[..|moves| - 1], s1, s2)
    ensures Instants(g, c, n, moves, s1, s2)
  {
    var g' := Then(g, c, n, moves[..|moves| - 1]);
    OneMoveLater(g, c, n, moves, Missing);
    if !g'.at.AtTree? && !g'.at.Answered? {
      OneMoveLater(g, c, n, moves, Find(s1, n));
      if g'.at.AtNode? {
        OneMoveLater(g, c, n, moves, Find(s2, n));
        if NoCreateSince(g'.s.hist, |s2.hist|, n) && Find(g'.s, n) != Missing {
          CreatorFoundNothing(g'.s, step, |s2.hist|, n);
        }
      }
    }
  }
}
