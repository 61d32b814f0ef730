/** Which names are listed as pending deletes, and when a name can be created again. */
module MvccPending {
  import opened Mvcc
  import opened MvccInvariant
  import opened MvccTheorems
  import opened MvccLifecycle

  /** The names deleted by the updates that the current round merges are listed from marking to the
      end of the round; at all other times none is. */
  ghost predicate PendingExact(s: State)
    requires Shape(s) && PhaseOk(s)
  {
    match s.phase
    case Swap(m) => s.pending == DeletedNames(s.hist, s.low, m)
    case Announce(m) => s.pending == DeletedNames(s.hist, s.low, m)
    case Await(m, _, _, _) => s.pending == DeletedNames(s.hist, s.low, m)
    case MergeOld(m, _) => s.pending == DeletedNames(s.hist, s.low, m)
    case Cut(m) => s.pending == DeletedNames(s.hist, s.low, m)
    case Reclaim(m, base, _) => s.pending == DeletedNames(s.hist, base, m)
    case Unmark(m) => exists base :: 0 <= base <= m && s.pending == DeletedNames(s.hist, base, m)
    case _ => s.pending == {}
  }

  /** Updates that are made later do not change what a round deletes. */
  lemma DeletedStays(hist: seq<Update>, more: seq<Update>, low: nat, m: nat)
    requires low <= m <= |hist|
    ensures DeletedNames(hist + more, low, m) == DeletedNames(hist, low, m)
  {
    var all := hist + more;
    assert forall i :: 0 <= i < m ==> all[i] == hist[i];
    forall n
      ensures n in DeletedNames(all, low, m) <==> n in DeletedNames(hist, low, m)
    {
      if n in DeletedNames(all, low, m) {
        var i :| low <= i < m && all[i].Delete? && all[i].name == n;
        assert hist[i].Delete?;
      }
      if n in DeletedNames(hist, low, m) {
        var i :| low <= i < m && hist[i].Delete? && hist[i].name == n;
        assert all[i].Delete?;
      }
    }
  }

  lemma ClientKeepsListed(s: State, c: Id, act: ClientStep)
    requires Inv(s) && ClientEnabled(s, c, act) && PendingExact(s)
    ensures Inv(ApplyClient(s, c, act)) && PendingExact(ApplyClient(s, c, act))
  {
    StepKeepsInv(s, Do(c, act));
    var s' := ApplyClient(s, c, act);
    if act.CreateFilter? || act.RemoveFilter? {
      assert s'.hist == s.hist + s'.hist[|s.hist|..];
      forall low, m | 0 <= low <= m <= |s.hist|
        ensures DeletedNames(s'.hist, low, m) == DeletedNames(s.hist, low, m)
      {
        DeletedStays(s.hist, s'.hist[|s.hist|..], low, m);
      }
    }
  }

  lemma VacuumKeepsListed(s: State, vac: VacuumStep)
    requires Inv(s) && VacuumEnabled(s, vac) && PendingExact(s)
    ensures Inv(ApplyVacuum(s, vac)) && PendingExact(ApplyVacuum(s, vac))
  {
    StepKeepsInv(s, Vacuum(vac));
    if vac.AddBarrier? {
      DeletedStays(s.hist, [Barrier], s.low, s.phase.m);
    }
  }

  lemma StepKeepsListed(s: State, step: Step)
    requires Inv(s) && Enabled(s, step) && PendingExact(s)
    ensures Inv(Apply(s, step)) && PendingExact(Apply(s, step))
  {
    match step
    case Do(c, act) => ClientKeepsListed(s, c, act);
    case Vacuum(vac) => VacuumKeepsListed(s, vac);
  }

  /** In every run, a name is listed exactly if the round under way has marked a deletion of it. */
  lemma {:induction false} PendingInRuns(s0: State, steps: seq<Step>)
    requires IsRun(s0, steps)
    ensures PendingExact(After(s0, steps))
    decreases |steps|
  {
    if steps != [] {
      var n := |steps| - 1;
      PendingInRuns(s0, steps[..n]);
      StepKeepsListed(After(s0, steps[..n]), steps[n]);
    }
  }

  /** The vacuum has not marked the deletions of its round yet, or is between rounds. */
  predicate NothingMarked(p: Phase) {
    p.Idle? || p.ScanMin? || p.MergeAlt? || p.Mark?
  }

  /** In every run: outside the marked part of a round, a client can create a name if and only if every
      earlier filter of that name has died and been merged. */
  lemma BuriedCanBeCreated(s0: State, steps: seq<Step>, c: Id, n: Name)
    requires IsRun(s0, steps) && Reading(After(s0, steps), c) && NothingMarked(After(s0, steps).phase)
    ensures var s := After(s0, steps);
            ClientEnabled(s, c, CreateFilter(n)) <==> Buried(s.wrappers, s.primaryVsn, n)
  {
    PendingInRuns(s0, steps);
    MissingIffBuried(After(s0, steps), n);
  }
}
