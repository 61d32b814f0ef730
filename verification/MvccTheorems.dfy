/** What the protocol guarantees in every run. */
module MvccTheorems {
  import opened Mvcc
  import opened MvccInvariant

  // ----- runs

  /** `steps` is a run from `s0`: every step is enabled in the state the earlier ones lead to. */
  ghost predicate IsRun(s0: State, steps: seq<Step>)
    decreases |steps|, 0
  {
    && Init(s0)
    && (steps == [] ||
        var n := |steps| - 1;
        IsRun(s0, steps[..n]) && Enabled(After(s0, steps[..n]), steps[n]))
  }

  ghost function After(s0: State, steps: seq<Step>): (s: State)
    requires IsRun(s0, steps)
    ensures Inv(s) && s.loaded == s0.loaded
    decreases |steps|, 1
  {
    if steps == [] then
      InitKeepsInv(s0);
      s0
    else
      var n := |steps| - 1;
      StepKeepsInv(After(s0, steps[..n]), steps[n]);
      LoadedStays(After(s0, steps[..n]), steps[n]);
      Apply(After(s0, steps[..n]), steps[n])
  }

  lemma LoadedStays(s: State, step: Step)
    requires Inv(s) && Enabled(s, step)
    ensures Apply(s, step).loaded == s.loaded
  {
    match step
    case Do(c, act) => ClientLoadedStays(s, c, act);
    case Vacuum(vac) => VacuumLoadedStays(s, vac);
  }

  lemma ClientLoadedStays(s: State, c: Id, act: ClientStep)
    requires Inv(s) && ClientEnabled(s, c, act)
    ensures ApplyClient(s, c, act).loaded == s.loaded
  {
  }

  lemma VacuumLoadedStays(s: State, vac: VacuumStep)
    requires Inv(s) && VacuumEnabled(s, vac)
    ensures ApplyVacuum(s, vac).loaded == s.loaded
  {
  }

  /** What was loaded at start stays on record in every run. */
  lemma StartsFromLoaded(s0: State, steps: seq<Step>)
    requires IsRun(s0, steps)
    ensures After(s0, steps).loaded == s0.trees[0]
  {
    InitialRun(s0, steps);
  }

  lemma InitialRun(s0: State, steps: seq<Step>)
    requires IsRun(s0, steps)
    ensures Init(s0)
  {
  }

  /** `steps` leads on from `s`, and no client creates or removes a filter. */
  ghost predicate IsQuietRun(s: State, steps: seq<Step>)
    requires Inv(s)
    decreases |steps|, 0
  {
    steps == [] ||
    (var n := |steps| - 1;
     IsQuietRun(s, steps[..n]) && NoUpdate(steps[n]) && Enabled(AfterQuiet(s, steps[..n]), steps[n]))
  }

  ghost function AfterQuiet(s: State, steps: seq<Step>): (s': State)
    requires Inv(s) && IsQuietRun(s, steps)
    ensures Inv(s')
    decreases |steps|, 1
  {
    if steps == [] then s
    else
      var n := |steps| - 1;
      StepKeepsInv(AfterQuiet(s, steps[..n]), steps[n]);
      Apply(AfterQuiet(s, steps[..n]), steps[n])
  }

  predicate NoUpdate(step: Step) {
    step.Do? ==> !step.act.CreateFilter? && !step.act.RemoveFilter?
  }

  // ----- reclamation

  /** The node of version `v` has been unlinked and released. */
  predicate NodeReleased(s: State, v: nat) {
    v <= s.low && !(s.phase.Reclaim? && s.phase.base < v <= s.phase.at)
  }

  /** The tree a step writes to, if any. */
  predicate Mutates(s: State, step: Step, t: nat)
    requires Inv(s) && Enabled(s, step)
  {
    t < 2 && Apply(s, step).trees[t] != s.trees[t]
  }

  /** Nothing in a client's reach has been released: not the list node it looks at, not the filter
      that node names, not a filter it was handed. */
  predicate ReachIntact(s: State, cl: Client) {
    cl.activity.Busy? ==>
      var a := cl.activity;
      && (forall w :: w in a.held ==> w < |s.wrappers| && s.wrappers[w].frees == 0)
      && (a.cursor != 0 ==>
            && a.cursor <= |s.hist| && !NodeReleased(s, a.cursor)
            && var u := s.hist[a.cursor - 1];
               u.Barrier? || (u.filter < |s.wrappers| && s.wrappers[u.filter].frees == 0))
  }

  lemma InvKeepsReach(s: State, c: Id)
    requires Shape(s) && PhaseOk(s) && ClientsOk(s) && FreesOk(s)
    requires WrappersOk(s.hist, s.wrappers) && UpdatesOk(s.hist, s.wrappers)
    requires c in s.clients
    ensures ReachIntact(s, s.clients[c])
  {
    assert ClientOk(s, c);
    var a := s.clients[c].activity;
    if a.Busy? && a.cursor != 0 {
      var u := s.hist[a.cursor - 1];
      assert UpdateOk(s.wrappers, u, a.cursor);
      if !u.Barrier? {
        assert WrapperOk(s.hist, s.wrappers[u.filter], u.filter);
      }
    }
  }

  lemma ReachIsNeverReleased(s0: State, steps: seq<Step>, c: Id)
    requires IsRun(s0, steps) && c in After(s0, steps).clients
    ensures ReachIntact(After(s0, steps), After(s0, steps).clients[c])
  {
    InvKeepsReach(After(s0, steps), c);
  }

  /** No step writes to a tree that a client in an operation may be reading. */
  lemma TreesInUseAreNeverWritten(s0: State, steps: seq<Step>, step: Step, t: nat, c: Id)
    requires IsRun(s0, steps) && Enabled(After(s0, steps), step)
    requires Mutates(After(s0, steps), step, t)
    requires Reading(After(s0, steps), c)
    ensures t !in After(s0, steps).clients[c].activity.trees
  {
    OnlyMergesWrite(After(s0, steps), step, t);
    NobodyReadsAlt(After(s0, steps), c);
  }

  lemma NobodyReadsAlt(s: State, c: Id)
    requires Shape(s) && ClientsOk(s) && Reading(s, c) && (s.phase.MergeAlt? || s.phase.MergeOld?)
    ensures 1 - s.primary !in s.clients[c].activity.trees
  {
    assert ClientOk(s, c);
  }

  lemma OnlyMergesWrite(s: State, step: Step, t: nat)
    requires Inv(s) && Enabled(s, step) && Mutates(s, step, t)
    ensures s.phase.MergeAlt? || s.phase.MergeOld?
    ensures t == 1 - s.primary
  {
  }

  // ----- looking up

  /** The trees of a run, replayed from the start. */
  function Replay(start: map<Name, Id>, hist: seq<Update>): map<Name, Id> {
    if hist == [] then start else ApplyUpdate(Replay(start, hist[..|hist| - 1]), hist[|hist| - 1])
  }

  lemma {:induction false} ReplayShowsVersion(s: State, k: nat)
    requires k <= |s.hist| && TreeAt(s.wrappers, s.loaded, 0)
    requires WrappersOk(s.hist, s.wrappers) && UpdatesOk(s.hist, s.wrappers) && NamesOk(s.wrappers)
    ensures TreeAt(s.wrappers, Replay(s.loaded, s.hist[..k]), k)
  {
    if k != 0 {
      ReplayShowsVersion(s, k - 1);
      assert s.hist[..k][..k - 1] == s.hist[..k - 1];
      MergeStep(s.wrappers, s.hist, Replay(s.loaded, s.hist[..k - 1]), k - 1);
    }
  }

  lemma TreeAtIsUnique(wrappers: seq<Wrapper>, t: map<Name, Id>, t': map<Name, Id>, k: nat)
    requires TreeAt(wrappers, t, k) && TreeAt(wrappers, t', k)
    ensures t == t'
  {
    assert forall n :: n in t ==> LiveAt(wrappers[t[n]], k);
    assert forall n :: n in t' ==> LiveAt(wrappers[t'[n]], k);
  }

  /** Both trees hold every merged update, and no other. */
  predicate BetweenMerges(p: Phase) {
    p.Idle? || p.ScanMin? || p.Cut? || p.Reclaim? || p.Unmark?
  }

  lemma TreesAgree(s: State)
    requires Shape(s) && PhaseOk(s) && TreesOk(s) && WrappersOk(s.hist, s.wrappers) && BetweenMerges(s.phase)
    ensures s.trees[s.primary] == s.trees[1 - s.primary]
  {
    if s.phase.Idle? || s.phase.ScanMin? {
      BarriersChangeNothing(s.wrappers, s.hist, s.trees[s.primary], s.low, s.primaryVsn);
    }
    TreeAtIsUnique(s.wrappers, s.trees[s.primary], s.trees[1 - s.primary], AltVsn(s));
  }

  /** The tree that clients read is the replay of all updates up to `primaryVsn`, the other tree
      that of all updates up to the version it has reached, and the two agree again whenever no
      merge or swap is under way. */
  predicate TreesAreReplays(s: State, start: map<Name, Id>) {
    && Shape(s) && AltVsn(s) <= |s.hist|
    && s.trees[s.primary] == Replay(start, s.hist[..s.primaryVsn])
    && s.trees[1 - s.primary] == Replay(start, s.hist[..AltVsn(s)])
    && (BetweenMerges(s.phase) ==> s.trees[1 - s.primary] == s.trees[s.primary])
  }

  lemma InvKeepsReplays(s: State)
    requires Shape(s) && PhaseOk(s) && TreesOk(s) && LoadedOk(s)
    requires WrappersOk(s.hist, s.wrappers) && UpdatesOk(s.hist, s.wrappers) && NamesOk(s.wrappers)
    ensures TreesAreReplays(s, s.loaded)
  {
    ReplayShowsVersion(s, s.primaryVsn);
    TreeAtIsUnique(s.wrappers, s.trees[s.primary], Replay(s.loaded, s.hist[..s.primaryVsn]), s.primaryVsn);
    ReplayShowsVersion(s, AltVsn(s));
    TreeAtIsUnique(s.wrappers, s.trees[1 - s.primary], Replay(s.loaded, s.hist[..AltVsn(s)]), AltVsn(s));
    if BetweenMerges(s.phase) {
      TreesAgree(s);
    }
  }

  lemma PrimaryIsReplay(s0: State, steps: seq<Step>)
    requires IsRun(s0, steps)
    ensures TreesAreReplays(After(s0, steps), s0.trees[0])
  {
    StartsFromLoaded(s0, steps);
    InvKeepsReplays(After(s0, steps));
  }

  /** Tree first, then newest unmerged update: found exactly when the wrapper is not dead by
      `primaryVsn`. */
  lemma FindFindsVisible(s: State, n: Name, w: Id)
    requires Inv(s) && w < |s.wrappers| && s.wrappers[w].name == n
    requires s.wrappers[w].died == 0 || s.primaryVsn < s.wrappers[w].died
    ensures Find(s, n) == Found(w)
  {
    assert WrapperOk(s.hist, s.wrappers[w], w);
    if s.wrappers[w].born <= s.primaryVsn {
      assert LiveAt(s.wrappers[w], s.primaryVsn);
    } else if n in s.trees[s.primary] {
      BothVisible(s, w, s.trees[s.primary][n]);
    } else {
      var v := NewestUpdate(s.hist, s.primaryVsn, n);
      assert s.hist[s.wrappers[w].born - 1] == Create(w, n);
      var u := s.hist[v - 1];
      assert UpdateOk(s.wrappers, u, v);
      assert WrapperOk(s.hist, s.wrappers[u.filter], u.filter);
      BothVisible(s, w, u.filter);
    }
  }

  /** Two filters of one name that are both unmerged or merged but not dead are the same. */
  lemma BothVisible(s: State, v: Id, w: Id)
    requires Shape(s) && NamesOk(s.wrappers) && FreesOk(s) && PhaseOk(s)
    requires v < |s.wrappers| && w < |s.wrappers| && s.wrappers[v].name == s.wrappers[w].name
    requires s.wrappers[v].died == 0 || s.primaryVsn < s.wrappers[v].died
    requires s.wrappers[w].died == 0 || s.primaryVsn < s.wrappers[w].died
    ensures v == w
  {
    NamesApart(s.wrappers, v, w);
  }

  /** Lookups answer as lookups in `now` do. */
  ghost predicate LookupsMatch(s: State, now: map<Name, Id>)
    requires Inv(s)
  {
    forall n :: Take(s, n) == if n in now then Found(now[n]) else Missing
  }

  lemma InvKeepsLookups(s: State, n: Name)
    requires Inv(s)
    ensures var now := Replay(s.loaded, s.hist); Take(s, n) == if n in now then Found(now[n]) else Missing
  {
    var now := Replay(s.loaded, s.hist);
    assert s.hist[..|s.hist|] == s.hist;
    ReplayShowsVersion(s, |s.hist|);
    if n in now {
      FindFindsVisible(s, n, now[n]);
      assert LiveAt(s.wrappers[now[n]], |s.hist|);
      assert WrapperOk(s.hist, s.wrappers[now[n]], now[n]);
    } else if Take(s, n).Found? {
      var w := Take(s, n).filter;
      assert WrapperOk(s.hist, s.wrappers[w], w);
      assert LiveAt(s.wrappers[w], |s.hist|);
      assert false;
    }
  }

  /** A lookup without locks answers as a lookup in the replay of the whole history. */
  lemma TakeIsCurrent(s0: State, steps: seq<Step>)
    requires IsRun(s0, steps)
    ensures LookupsMatch(After(s0, steps), Replay(s0.trees[0], After(s0, steps).hist))
  {
    StartsFromLoaded(s0, steps);
    var s := After(s0, steps);
    forall n {
      InvKeepsLookups(s, n);
    }
  }
}
