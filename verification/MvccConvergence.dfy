/** The vacuum catches up: once updates stop, two rounds and a barrier catch-up are enough. */
module MvccConvergence {
  import opened Mvcc
  import opened MvccInvariant
  import opened MvccTheorems

  // ----- the merged version only grows

  lemma PrimaryNeverDecreases(s: State, step: Step)
    requires Inv(s) && Enabled(s, step)
    ensures s.primaryVsn <= Apply(s, step).primaryVsn
  {
    match step
    case Do(c, act) => ClientKeepsPrimary(s, c, act);
    case Vacuum(vac) => VacuumRaisesPrimary(s, vac);
  }

  lemma ClientKeepsPrimary(s: State, c: Id, act: ClientStep)
    requires Inv(s) && ClientEnabled(s, c, act)
    ensures ApplyClient(s, c, act).primaryVsn == s.primaryVsn
    ensures ApplyClient(s, c, act).phase == s.phase
  {
  }

  lemma VacuumRaisesPrimary(s: State, vac: VacuumStep)
    requires Inv(s) && VacuumEnabled(s, vac)
    ensures s.primaryVsn <= ApplyVacuum(s, vac).primaryVsn
  {
  }

  // ----- runs without updates

  /** How many rounds the vacuum began. */
  function Rounds(steps: seq<Step>): nat {
    if steps == [] then 0
    else Rounds(steps[..|steps| - 1]) + if steps[|steps| - 1] == Vacuum(Start) then 1 else 0
  }

  /** Every client has seen every update. */
  predicate AllCurrent(s: State) {
    forall c :: c in s.clients ==> s.clients[c].vsn == |s.hist|
  }

  predicate LastIsBarrier(s: State) {
    |s.hist| > 0 && s.hist[|s.hist| - 1].Barrier?
  }

  /** What holds after `r` rounds began without further updates. */
  predicate Settled(s: State, r: nat) {
    && r <= 2
    && (r >= 1 ==>
          match s.phase
          case ScanMin(cur, _) => r == 2 ==> cur == |s.hist| && AllCurrent(s)
          case MergeAlt(m, _) => r == 2 ==> m == |s.hist|
          case Mark(m) => r == 2 ==> m == |s.hist|
          case Swap(m) => r == 2 ==> m == |s.hist|
          case Announce(m) => r == 2 ==> m == |s.hist|
          case Await(m, b, _, _) => b == |s.hist| && (r == 2 ==> m + 1 == |s.hist|)
          case _ => LastIsBarrier(s) && AllCurrent(s) && (r == 2 ==> |s.hist| <= s.primaryVsn + 1))
  }

  lemma ClientKeepsSettled(s: State, c: Id, act: ClientStep, r: nat)
    requires Inv(s) && ClientEnabled(s, c, act) && OnlyClients(act) && Settled(s, r)
    ensures Settled(ApplyClient(s, c, act), r)
  {
    var s' := ApplyClient(s, c, act);
    assert s' == s.(clients := s'.clients);
    if AllCurrent(s) {
      assert AllCurrent(s');
    }
  }

  lemma ConvergedMeansCurrent(s: State)
    requires Shape(s) && PhaseOk(s) && ClientsOk(s) && VacuumCanFinish(s)
    ensures forall c :: c in s.clients ==> s.phase.b <= s.clients[c].vsn <= |s.hist|
  {
    forall c | c in s.clients ensures s.phase.b <= s.clients[c].vsn <= |s.hist| { assert ClientOk(s, c); }
  }

  predicate VacuumCanFinish(s: State) {
    s.phase.Await? && s.phase.rem == {} && s.phase.b <= s.phase.cur
  }

  lemma VacuumKeepsSettled(s: State, vac: VacuumStep, r: nat)
    requires Inv(s) && VacuumEnabled(s, vac) && Settled(s, r)
    ensures Settled(ApplyVacuum(s, vac), r + if vac.Start? then 1 else 0)
  {
    if vac.AwaitDone? {
      ConvergedMeansCurrent(s);
    }
    if vac.ScanClient? && vac.x in s.clients {
      assert ClientOk(s, vac.x);
    }
  }

  lemma StepSettles(s: State, step: Step, r: nat)
    requires Inv(s) && Enabled(s, step) && NoUpdate(step) && Settled(s, r)
    ensures Settled(Apply(s, step), r + if step == Vacuum(Start) then 1 else 0)
  {
    match step
    case Do(c, act) => ClientKeepsSettled(s, c, act, r);
    case Vacuum(vac) => VacuumKeepsSettled(s, vac, r);
  }

  lemma {:induction false} QuietRunSettles(s: State, steps: seq<Step>)
    requires Inv(s) && IsQuietRun(s, steps)
    ensures Settled(AfterQuiet(s, steps), Rounds(steps))
    decreases |steps|
  {
    if steps != [] {
      var n := |steps| - 1;
      QuietRunSettles(s, steps[..n]);
      StepSettles(AfterQuiet(s, steps[..n]), steps[n], Rounds(steps[..n]));
    }
  }

  /** The primary tree has every update. */
  predicate Converged(s: State) { s.primaryVsn == |s.hist| }

  /** At rest after two rounds, everything is merged, at the latest with the catch-up step. */
  predicate Converging(s: State, rounds: nat)
    requires Inv(s)
  {
    && rounds <= 2
    && (rounds == 2 && s.phase.Idle? ==>
          Converged(s) || (VacuumEnabled(s, CatchUp) && Converged(ApplyVacuum(s, CatchUp))))
  }

  lemma SettledConverges(s: State, r: nat)
    requires Inv(s) && Settled(s, r)
    ensures Converging(s, r)
  {
  }

  /** After updates stop the vacuum begins at most two more rounds; when it rests after the second,
      everything is merged, at the latest with the catch-up step. */
  lemma TwoRoundsSuffice(s0: State, steps: seq<Step>, more: seq<Step>)
    requires IsRun(s0, steps) && IsQuietRun(After(s0, steps), more)
    ensures Converging(AfterQuiet(After(s0, steps), more), Rounds(more))
  {
    var s := After(s0, steps);
    QuietRunSettles(s, more);
    SettledConverges(AfterQuiet(s, more), Rounds(more));
  }

  // ----- progress

  /** How far the vacuum is through its round. */
  function PhaseRank(p: Phase): nat {
    match p
    case Idle => 0
    case ScanMin(_, _) => 10
    case MergeAlt(_, _) => 9
    case Mark(_) => 8
    case Swap(_) => 7
    case Announce(_) => 6
    case Await(_, _, _, _) => 5
    case MergeOld(_, _) => 4
    case Cut(_) => 3
    case Reclaim(_, _, _) => 2
    case Unmark(_) => 1
  }

  function Gap(from: nat, to: nat): nat {
    if from < to then to - from else 0
  }

  function Remaining(p: Phase, primaryVsn: nat, vsn: nat): nat {
    match p
    case Idle => Gap(primaryVsn, vsn)
    case ScanMin(_, rem) => |rem|
    case MergeAlt(m, at) => Gap(at, m)
    case Await(_, _, _, rem) => |rem|
    case MergeOld(m, at) => Gap(at, m)
    case Reclaim(_, base, at) => Gap(base, at)
    case _ => 0
  }

  ghost predicate Progresses(s: State, s': State) {
    (PhaseRank(s.phase), Remaining(s.phase, s.primaryVsn, |s.hist|) decreases to
     PhaseRank(s'.phase), Remaining(s'.phase, s'.primaryVsn, |s'.hist|))
  }

  lemma ProgressBeforeSwap(s: State, vac: VacuumStep)
    requires Inv(s) && VacuumEnabled(s, vac) && !vac.Start? && !Swapped(s.phase)
    ensures Progresses(s, ApplyVacuum(s, vac))
  {
    if s.phase.ScanMin? {
      var s' := ApplyVacuum(s, vac);
      assert s'.phase.ScanMin? ==> |s'.phase.rem| < |s.phase.rem|;
    }
  }

  lemma ProgressAfterSwap(s: State, vac: VacuumStep)
    requires Inv(s) && VacuumEnabled(s, vac) && !vac.AwaitAgain? && Swapped(s.phase)
    ensures Progresses(s, ApplyVacuum(s, vac))
  {
    if s.phase.Await? {
      var s' := ApplyVacuum(s, vac);
      assert s'.phase.Await? ==> |s'.phase.rem| < |s.phase.rem|;
    }
  }

  /** Within a round every vacuum step moves on, except looking at the clients once more while one
      of them has not reached the barrier; so does catching up. */
  lemma VacuumMakesProgress(s: State, vac: VacuumStep)
    requires Inv(s) && VacuumEnabled(s, vac) && !vac.Start? && !vac.AwaitAgain?
    ensures Progresses(s, ApplyVacuum(s, vac))
  {
    if Swapped(s.phase) {
      ProgressAfterSwap(s, vac);
    } else {
      ProgressBeforeSwap(s, vac);
    }
  }

  /** Unless everything is merged, the vacuum can move; it looks again only if some client that
      was asked had not reached the barrier. */
  lemma VacuumNeverStuck(s: State)
    requires Inv(s) && !(s.phase.Idle? && s.primaryVsn == |s.hist|)
    ensures exists vac :: VacuumEnabled(s, vac)
  {
    match s.phase
    case Idle => assert VacuumEnabled(s, if OnlyBarrierMissing(s) then CatchUp else Start);
    case ScanMin(cur, rem) =>
      if rem != {} { var x :| x in rem; assert VacuumEnabled(s, ScanClient(x)); } else { assert VacuumEnabled(s, ScanDone); }
    case MergeAlt(m, at) => assert VacuumEnabled(s, if at < m then MergeNext else MergeDone);
    case Mark(_) => assert VacuumEnabled(s, MarkPending);
    case Swap(_) => assert VacuumEnabled(s, SwapTrees);
    case Announce(_) => assert VacuumEnabled(s, AddBarrier);
    case Await(_, b, cur, rem) =>
      if rem != {} { var x :| x in rem; assert VacuumEnabled(s, AwaitScan(x)); }
      else { assert VacuumEnabled(s, if cur < b then AwaitAgain else AwaitDone); }
    case MergeOld(m, at) => assert VacuumEnabled(s, if at < m then MergeOldNext else MergeOldDone);
    case Cut(_) => assert VacuumEnabled(s, CutList);
    case Reclaim(_, base, at) => assert VacuumEnabled(s, if base < at then FreeNext else FreeDone);
    case Unmark(_) => assert VacuumEnabled(s, ClearPending);
  }
}
