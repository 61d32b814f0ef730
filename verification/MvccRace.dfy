/** A run in which a lookup misses a filter that is there all the time. */
module MvccRace {
  import opened Mvcc
  import opened MvccInvariant
  import opened MvccTheorems
  import opened MvccLookup
  import opened MvccAnswers
  import opened MvccEffects

  const NAME: Name := "a"
  const NONE: map<Name, Id> := map[]
  const ONE: map<Name, Id> := map[NAME := 0]

  /** No filters, no clients. */
  const START := State([], 0, 0, NONE, [NONE, NONE], 0, [], {}, map[], Idle)

  /** Client 1 has created the filter, reported the version of that, and begun its next operation. */
  const CREATED := State([Create(0, NAME)], 0, 0, NONE, [NONE, NONE], 0, [Wrapper(NAME, 1, 0, false, 0)], {},
                         map[1 := Client(1, Busy({}, 0, {}))], Idle)

  lemma StartRuns()
    ensures LeadsTo(START, [], START)
  {
    InitKeepsInv(START);
  }

  lemma NoName(s: State)
    requires Inv(s) && s.hist == [] && s.trees[s.primary] == NONE
    ensures Find(s, NAME) == Missing
  {
  }

  lemma CreateEffect(s: State)
    requires Inv(s) && s == Entered(START, 1, Client(0, Busy({}, 0, {})))
    ensures ClientEnabled(s, 1, CreateFilter(NAME))
    ensures ApplyClient(s, 1, CreateFilter(NAME)) == Entered(CREATED, 1, Client(0, Busy({}, 0, {})))
  {
    NoName(s);
  }

  lemma CreatedRuns() returns (steps: seq<Step>)
    ensures LeadsTo(START, steps, CREATED)
  {
    var busy := Client(0, Busy({}, 0, {}));
    StartRuns();
    NewcomerBegins(START, [], START, 1, busy);
    steps := [Do(1, Join), Do(1, Begin)];
    assert [] + steps == steps;
    var s := Entered(START, 1, busy);
    CreateEffect(s);
    var s' := Entered(CREATED, 1, busy);
    GoOn(START, steps, s, Do(1, CreateFilter(NAME)), s');
    steps := steps + [Do(1, CreateFilter(NAME))];
    AnyoneCanReport(START, steps, s', 1);
    steps := steps + [Do(1, End)] + [Do(1, Checkpoint)];
    s := Entered(s', 1, Client(1, Quiet));
    BeginEffect(s, 1);
    EnteredTwice(CREATED, 1, busy, Client(1, Quiet));
    EnteredTwice(CREATED, 1, Client(1, Quiet), Client(1, Busy({}, 0, {})));
    assert Entered(CREATED, 1, Client(1, Busy({}, 0, {}))) == CREATED;
    GoOn(START, steps, s, Do(1, Begin), CREATED);
    steps := steps + [Do(1, Begin)];
  }

  /** The vacuum is about to swap the trees. */
  const MERGED := CREATED.(trees := [NONE, ONE], phase := Swap(1))

  lemma ScanEffects(s: State)
    requires Inv(s)
    ensures s == CREATED ==> VacuumEnabled(s, Start) && ApplyVacuum(s, Start) == CREATED.(phase := ScanMin(1, {1}))
    ensures s == CREATED.(phase := ScanMin(1, {1})) ==>
              VacuumEnabled(s, ScanClient(1)) && ApplyVacuum(s, ScanClient(1)) == CREATED.(phase := ScanMin(1, {}))
    ensures s == CREATED.(phase := ScanMin(1, {})) ==>
              VacuumEnabled(s, ScanDone) && ApplyVacuum(s, ScanDone) == CREATED.(phase := MergeAlt(1, 0))
  {
    assert CREATED.clients.Keys == {1} && {1} - {1} == {};
  }

  lemma MergeEffects(s: State)
    requires Inv(s)
    ensures s == CREATED.(phase := MergeAlt(1, 0)) ==>
              VacuumEnabled(s, MergeNext) && ApplyVacuum(s, MergeNext) == MERGED.(phase := MergeAlt(1, 1))
    ensures s == MERGED.(phase := MergeAlt(1, 1)) ==>
              VacuumEnabled(s, MergeDone) && ApplyVacuum(s, MergeDone) == MERGED.(phase := Mark(1))
    ensures s == MERGED.(phase := Mark(1)) ==> VacuumEnabled(s, MarkPending) && ApplyVacuum(s, MarkPending) == MERGED
  {
    assert NONE[NAME := 0] == ONE;
    assert DeletedNames([Create(0, NAME)], 0, 1) == {};
  }

  lemma ScannedRuns() returns (steps: seq<Step>)
    ensures LeadsTo(START, steps, CREATED.(phase := MergeAlt(1, 0)))
  {
    steps := CreatedRuns();
    var s, s' := CREATED, CREATED.(phase := ScanMin(1, {1}));
    ScanEffects(s);
    GoOn(START, steps, s, Vacuum(Start), s');
    steps, s, s' := steps + [Vacuum(Start)], s', CREATED.(phase := ScanMin(1, {}));
    ScanEffects(s);
    GoOn(START, steps, s, Vacuum(ScanClient(1)), s');
    steps, s, s' := steps + [Vacuum(ScanClient(1))], s', CREATED.(phase := MergeAlt(1, 0));
    ScanEffects(s);
    GoOn(START, steps, s, Vacuum(ScanDone), s');
    steps := steps + [Vacuum(ScanDone)];
  }

  lemma MergedRuns() returns (steps: seq<Step>)
    ensures LeadsTo(START, steps, MERGED)
  {
    steps := ScannedRuns();
    var s, s' := CREATED.(phase := MergeAlt(1, 0)), MERGED.(phase := MergeAlt(1, 1));
    MergeEffects(s);
    GoOn(START, steps, s, Vacuum(MergeNext), s');
    steps, s, s' := steps + [Vacuum(MergeNext)], s', MERGED.(phase := Mark(1));
    MergeEffects(s);
    GoOn(START, steps, s, Vacuum(MergeDone), s');
    steps, s, s' := steps + [Vacuum(MergeDone)], s', MERGED;
    MergeEffects(s);
    GoOn(START, steps, s, Vacuum(MarkPending), s');
    steps := steps + [Vacuum(MarkPending)];
  }

  /** The lookup reads the tree pointer, the trees are swapped, the lookup finds nothing in the old
      tree, and then both versions equal. */
  const MOVES: seq<Move> := [Mine, Other(Vacuum(SwapTrees)), Mine, Mine]

  const BUSY := Client(1, Busy({0}, 0, {}))
  const READ := View(Entered(MERGED, 1, BUSY), AtSearch(0))
  const SWAPPED := Entered(MERGED, 1, BUSY).(primary := 1, primaryVsn := 1, phase := Announce(1))

  lemma FirstRead(g: View)
    requires ViewOk(g, 1) && g == View(MERGED, AtTree)
    ensures Moved(g, 1, NAME, Mine) == READ
  {
    assert {} + {0} == {0};
  }

  lemma ThenSwap(g: View)
    requires ViewOk(g, 1) && g == READ
    ensures CanMove(g, 1, Other(Vacuum(SwapTrees))) && Moved(g, 1, NAME, Other(Vacuum(SwapTrees))) == View(SWAPPED, AtSearch(0))
  {
  }

  lemma ThenMisses(g: View)
    requires ViewOk(g, 1)
    ensures g == View(SWAPPED, AtSearch(0)) ==> Moved(g, 1, NAME, Mine) == View(SWAPPED, AtCheck)
    ensures g == View(SWAPPED, AtCheck) ==> Moved(g, 1, NAME, Mine) == View(SWAPPED, Answered(Missing))
  {
  }

  /** The moves lead from `g` to `g'`. */
  ghost predicate TraceTo(g: View, moves: seq<Move>, g': View) {
    ViewOk(g, 1) && IsTrace(g, 1, NAME, moves) && Then(g, 1, NAME, moves) == g' && ViewOk(g', 1)
  }

  lemma TraceOn(g: View, moves: seq<Move>, g': View, mv: Move, g'': View)
    requires TraceTo(g, moves, g') && CanMove(g', 1, mv) && Moved(g', 1, NAME, mv) == g''
    ensures TraceTo(g, moves + [mv], g'')
  {
    MoveOn(g, 1, NAME, moves, mv);
  }

  lemma MovesRun(g: View)
    requires ViewOk(g, 1) && g == View(MERGED, AtTree)
    ensures TraceTo(g, MOVES, View(SWAPPED, Answered(Missing)))
  {
    var m1, m2 := [Mine], [Mine, Other(Vacuum(SwapTrees))];
    assert [] + [Mine] == m1 && m1 + [Other(Vacuum(SwapTrees))] == m2 && m2 + [Mine] + [Mine] == MOVES;
    FirstRead(g);
    TraceOn(g, [], g, Mine, READ);
    ThenSwap(READ);
    TraceOn(g, m1, READ, Other(Vacuum(SwapTrees)), View(SWAPPED, AtSearch(0)));
    ThenMisses(View(SWAPPED, AtSearch(0)));
    TraceOn(g, m2, View(SWAPPED, AtSearch(0)), Mine, View(SWAPPED, AtCheck));
    ThenMisses(View(SWAPPED, AtCheck));
    TraceOn(g, m2 + [Mine], View(SWAPPED, AtCheck), Mine, View(SWAPPED, Answered(Missing)));
  }

  /** A client looks up a filter that it has created and seen before, and is told that there is none,
      although a lookup in one go would have found it at every instant. */
  lemma MissedRun() returns (steps: seq<Step>)
    ensures LeadsTo(START, steps, MERGED) && ViewOk(View(MERGED, AtTree), 1)
    ensures var g := View(MERGED, AtTree);
            IsTrace(g, 1, NAME, MOVES) && Answers(g, 1, NAME, MOVES, Missing) && !Sometime(g, 1, NAME, MOVES, Missing)
  {
    steps := MergedRuns();
    var g := View(MERGED, AtTree);
    MovesRun(g);
    MissingIffNotInTree(g, 1, NAME, MOVES);
  }
}
