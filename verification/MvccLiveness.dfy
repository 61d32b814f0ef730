/**
 The vacuum reaches the current version: once updates stop, every vacuum step that is not spent
 waiting for a client to checkpoint uses up a part of a fixed amount of work.
 */
module MvccLiveness {
  import opened Mvcc
  import opened MvccInvariant
  import opened MvccTheorems
  import opened MvccConvergence

  // ----- waiting for clients

  predicate AllPast(clients: map<Id, Client>, b: nat) {
    forall c :: c in clients ==> b <= clients[c].vsn
  }

  /** The vacuum waits for a client that has not checkpointed since the barrier was announced. */
  predicate Waiting(s: State) {
    s.phase.Await? && !AllPast(s.clients, s.phase.b)
  }

  /** The clients that it waits for. */
  function Lagging(s: State): set<Id> {
    set c | c in s.clients && s.phase.Await? && s.clients[c].vsn < s.phase.b
  }

  lemma WaitingMeansLagging(s: State)
    ensures Waiting(s) <==> Lagging(s) != {}
  {
    if Waiting(s) {
      var c :| c in s.clients && s.clients[c].vsn < s.phase.b;
      assert c in Lagging(s);
    }
  }

  /** During a wait nobody starts to lag, and a checkpoint or leaving ends it for the caller: the
      wait is over when each lagging client has done so once. */
  lemma LaggingShrinks(s: State, c: Id, act: ClientStep)
    requires Inv(s) && ClientEnabled(s, c, act) && OnlyClients(act) && s.phase.Await?
    ensures var s' := ApplyClient(s, c, act);
            && s'.phase == s.phase && Lagging(s') <= Lagging(s)
            && (act.Checkpoint? || act.Leave? ==> c !in Lagging(s'))
  {
  }

  // ----- the work that is left

  /** What is left of the current round, in vacuum steps that are not spent waiting; `n` bounds the
      clients and `h` the versions. */
  function PhaseCost(p: Phase, clients: map<Id, Client>, n: nat, h: nat): nat {
    match p
    case Idle => 0
    case Unmark(_) => 1
    case Reclaim(_, base, at) => Gap(base, at) + 2
    case Cut(_) => h + 3
    case MergeOld(m, at) => Gap(at, m) + h + 4
    case Await(_, b, cur, rem) => WaitCost(b, cur, rem, clients, n) + 2 * h + 4
    case Announce(_) => 2 * n + 2 * h + 7
    case Swap(_) => 2 * n + 2 * h + 8
    case Mark(_) => 2 * n + 2 * h + 9
    case MergeAlt(m, at) => Gap(at, m) + 2 * n + 2 * h + 10
    case ScanMin(_, rem) => |rem| + 2 * n + 3 * h + 11
  }

  /** Once everybody is past the barrier, the scan under way may still report an old version, but
      the next one does not. */
  function WaitCost(b: nat, cur: nat, rem: set<Id>, clients: map<Id, Client>, n: nat): nat {
    if !AllPast(clients, b) then 2 * n + 2
    else |rem| + if cur < b then n + 2 else 1
  }

  function RoundCost(n: nat, h: nat): nat { 3 * n + 3 * h + 12 }

  function RoundsLeft(r: nat, n: nat, h: nat): nat {
    if r == 0 then RoundCost(n, h) + RoundCost(n, h) else if r == 1 then RoundCost(n, h) else 0
  }

  /** Idle and up to date. */
  predicate Finished(s: State) { s.phase.Idle? && Converged(s) }

  function Cost(s: State, r: nat, n: nat, h: nat): nat {
    PhaseCost(s.phase, s.clients, n, h) + RoundsLeft(r, n, h) + if Finished(s) then 0 else 1
  }

  predicate WillAnnounce(p: Phase) {
    p.ScanMin? || p.MergeAlt? || p.Mark? || p.Swap? || p.Announce?
  }

  function Unseen(p: Phase): set<Id> {
    if p.ScanMin? || p.Await? then p.rem else {}
  }

  /** The bounds hold, also for the barriers that the remaining rounds add. */
  predicate Fits(s: State, r: nat, n: nat, h: nat) {
    && r <= 2 && |s.hist| + (2 - r) + (if WillAnnounce(s.phase) then 1 else 0) <= h
    && |s.clients| <= n && |Unseen(s.phase)| <= n
  }

  // ----- clients do not add work

  lemma ClientAddsNoWork(s: State, c: Id, act: ClientStep, r: nat, n: nat, h: nat)
    requires Inv(s) && ClientEnabled(s, c, act) && OnlyClients(act) && Fits(s, r, n, h)
    requires |ApplyClient(s, c, act).clients| <= n
    ensures var s' := ApplyClient(s, c, act);
            Fits(s', r, n, h) && Cost(s', r, n, h) <= Cost(s, r, n, h)
  {
    var s' := ApplyClient(s, c, act);
    assert s' == s.(clients := s'.clients);
    if s.phase.Await? && AllPast(s.clients, s.phase.b) {
      StaysPast(s, c, act);
    }
  }

  lemma StaysPast(s: State, c: Id, act: ClientStep)
    requires Inv(s) && ClientEnabled(s, c, act) && OnlyClients(act) && s.phase.Await? && AllPast(s.clients, s.phase.b)
    ensures AllPast(ApplyClient(s, c, act).clients, s.phase.b)
  {
  }

  // ----- the vacuum uses it up

  /** A state in which the vacuum does a step of the current round. */
  lemma WaitStepPays(s: State, vac: VacuumStep, n: nat, h: nat)
    requires Inv(s) && VacuumEnabled(s, vac) && s.phase.Await? && |s.clients| <= n && |s.phase.rem| <= n && |s.hist| <= h
    ensures var s' := ApplyVacuum(s, vac);
            PhaseCost(s'.phase, s'.clients, n, h) + (if Waiting(s) then 0 else 1) <= PhaseCost(s.phase, s.clients, n, h)
  {
    match vac
    case AwaitScan(x) =>
      assert |s.phase.rem - {x}| < |s.phase.rem|;
    case AwaitAgain =>
      assert |s.clients.Keys| == |s.clients|;
    case AwaitDone =>
      ConvergedMeansCurrent(s);
  }

  lemma ScanStepPays(s: State, vac: VacuumStep, n: nat, h: nat)
    requires Inv(s) && VacuumEnabled(s, vac) && s.phase.ScanMin? && |s.hist| <= h
    ensures var s' := ApplyVacuum(s, vac);
            PhaseCost(s'.phase, s'.clients, n, h) + 1 <= PhaseCost(s.phase, s.clients, n, h)
  {
    if vac.ScanClient? {
      assert |s.phase.rem - {vac.x}| < |s.phase.rem|;
    }
  }

  lemma EarlyStepPays(s: State, vac: VacuumStep, n: nat, h: nat)
    requires Inv(s) && VacuumEnabled(s, vac) && WillAnnounce(s.phase) && |s.clients| <= n && |s.hist| <= h
    ensures var s' := ApplyVacuum(s, vac);
            PhaseCost(s'.phase, s'.clients, n, h) + 1 <= PhaseCost(s.phase, s.clients, n, h)
  {
    if s.phase.ScanMin? {
      ScanStepPays(s, vac, n, h);
    } else {
      assert |s.clients.Keys| == |s.clients|;
    }
  }

  lemma LateStepPays(s: State, vac: VacuumStep, n: nat, h: nat)
    requires Inv(s) && VacuumEnabled(s, vac) && !WillAnnounce(s.phase) && !s.phase.Await? && !s.phase.Idle? && |s.hist| <= h
    ensures var s' := ApplyVacuum(s, vac);
            PhaseCost(s'.phase, s'.clients, n, h) + 1 <= PhaseCost(s.phase, s.clients, n, h)
  {
  }

  lemma IdleStepPays(s: State, vac: VacuumStep, r: nat, n: nat, h: nat)
    requires Inv(s) && VacuumEnabled(s, vac) && s.phase.Idle? && |s.clients| <= n && |s.hist| <= h
    requires r + (if vac.Start? then 1 else 0) <= 2
    ensures Cost(ApplyVacuum(s, vac), r + (if vac.Start? then 1 else 0), n, h) + 1 <= Cost(s, r, n, h)
  {
    assert |s.clients.Keys| == |s.clients|;
  }

  lemma VacuumFits(s: State, vac: VacuumStep, r: nat, n: nat, h: nat)
    requires Inv(s) && VacuumEnabled(s, vac) && Fits(s, r, n, h) && r + (if vac.Start? then 1 else 0) <= 2
    ensures Fits(ApplyVacuum(s, vac), r + (if vac.Start? then 1 else 0), n, h)
  {
    VacuumFitsVersions(s, vac, r, h);
    VacuumFitsClients(s, vac, n);
  }

  lemma VacuumFitsVersions(s: State, vac: VacuumStep, r: nat, h: nat)
    requires Inv(s) && VacuumEnabled(s, vac) && r + (if vac.Start? then 1 else 0) <= 2
    requires |s.hist| + (2 - r) + (if WillAnnounce(s.phase) then 1 else 0) <= h
    ensures var s', r' := ApplyVacuum(s, vac), r + (if vac.Start? then 1 else 0);
            |s'.hist| + (2 - r') + (if WillAnnounce(s'.phase) then 1 else 0) <= h
  {
  }

  lemma VacuumFitsClients(s: State, vac: VacuumStep, n: nat)
    requires Inv(s) && VacuumEnabled(s, vac) && |s.clients| <= n && |Unseen(s.phase)| <= n
    ensures var s' := ApplyVacuum(s, vac); |s'.clients| <= n && |Unseen(s'.phase)| <= n
  {
    assert |s.clients.Keys| == |s.clients|;
    if vac.ScanClient? || vac.AwaitScan? {
      assert |s.phase.rem - {vac.x}| < |s.phase.rem|;
    }
  }

  /** The ordinary steps of a round do not make a finished state unfinished. */
  lemma RoundStepCosts(s: State, vac: VacuumStep, r: nat, n: nat, h: nat, paid: nat)
    requires Inv(s) && VacuumEnabled(s, vac) && !s.phase.Idle?
    requires var s' := ApplyVacuum(s, vac);
             PhaseCost(s'.phase, s'.clients, n, h) + paid <= PhaseCost(s.phase, s.clients, n, h)
    ensures Cost(ApplyVacuum(s, vac), r, n, h) + paid <= Cost(s, r, n, h)
  {
  }

  /** Every vacuum step that is not spent waiting uses up some of the work. */
  lemma VacuumPays(s: State, vac: VacuumStep, r: nat, n: nat, h: nat)
    requires Inv(s) && VacuumEnabled(s, vac) && Fits(s, r, n, h) && r + (if vac.Start? then 1 else 0) <= 2
    ensures Cost(ApplyVacuum(s, vac), r + (if vac.Start? then 1 else 0), n, h) + (if Waiting(s) then 0 else 1) <= Cost(s, r, n, h)
  {
    if s.phase.Idle? {
      IdleStepPays(s, vac, r, n, h);
    } else {
      if s.phase.Await? {
        WaitStepPays(s, vac, n, h);
      } else if WillAnnounce(s.phase) {
        EarlyStepPays(s, vac, n, h);
      } else {
        LateStepPays(s, vac, n, h);
      }
      RoundStepCosts(s, vac, r, n, h, if Waiting(s) then 0 else 1);
    }
  }

  function Paid(s: State, step: Step): nat {
    if step.Vacuum? && !Waiting(s) then 1 else 0
  }

  function Begun(step: Step): nat {
    if step == Vacuum(Start) then 1 else 0
  }

  lemma StepPays(s: State, step: Step, r: nat, n: nat, h: nat)
    requires Inv(s) && Enabled(s, step) && NoUpdate(step) && Fits(s, r, n, h) && r + Begun(step) <= 2
    requires |Apply(s, step).clients| <= n
    ensures Fits(Apply(s, step), r + Begun(step), n, h)
    ensures Cost(Apply(s, step), r + Begun(step), n, h) + Paid(s, step) <= Cost(s, r, n, h)
  {
    match step
    case Do(c, act) => ClientAddsNoWork(s, c, act, r, n, h);
    case Vacuum(vac) =>
      VacuumFits(s, vac, r, n, h);
      VacuumPays(s, vac, r, n, h);
  }

  // ----- runs

  /** At most `n` clients at any time of the run. */
  ghost predicate FewClients(s: State, more: seq<Step>, n: nat)
    requires Inv(s) && IsQuietRun(s, more)
    decreases |more|
  {
    && |AfterQuiet(s, more).clients| <= n
    && (more == [] || FewClients(s, more[..|more| - 1], n))
  }

  /** The vacuum steps of the run that were not spent waiting for a client. */
  ghost function Effective(s: State, more: seq<Step>): nat
    requires Inv(s) && IsQuietRun(s, more)
    decreases |more|
  {
    if more == [] then 0
    else
      var k := |more| - 1;
      Effective(s, more[..k]) + Paid(AfterQuiet(s, more[..k]), more[k])
  }

  /** What was spent and what is left stay within the budget. */
  predicate Accounted(s: State, r: nat, n: nat, h: nat, spent: nat, budget: nat) {
    Fits(s, r, n, h) && Cost(s, r, n, h) + spent <= budget
  }

  lemma StepAccounts(s: State, step: Step, r: nat, n: nat, h: nat, spent: nat, budget: nat)
    requires Inv(s) && Enabled(s, step) && NoUpdate(step) && Accounted(s, r, n, h, spent, budget) && r + Begun(step) <= 2
    requires |Apply(s, step).clients| <= n
    ensures Accounted(Apply(s, step), r + Begun(step), n, h, spent + Paid(s, step), budget)
  {
    StepPays(s, step, r, n, h);
  }

  lemma AtMostTwoRounds(s: State, more: seq<Step>)
    requires Inv(s) && IsQuietRun(s, more)
    ensures Rounds(more) <= 2
  {
    QuietRunSettles(s, more);
  }

  lemma {:induction false} RunPays(s: State, more: seq<Step>, n: nat, h: nat, budget: nat)
    requires Inv(s) && IsQuietRun(s, more) && FewClients(s, more, n) && Accounted(s, 0, n, h, 0, budget)
    ensures Accounted(AfterQuiet(s, more), Rounds(more), n, h, Effective(s, more), budget)
    decreases |more|
  {
    if more != [] {
      var k := |more| - 1;
      RunPays(s, more[..k], n, h, budget);
      AtMostTwoRounds(s, more);
      StepAccounts(AfterQuiet(s, more[..k]), more[k], Rounds(more[..k]), n, h, Effective(s, more[..k]), budget);
    }
  }

  function CatchUps(more: seq<Step>): nat {
    if more == [] then 0
    else CatchUps(more[..|more| - 1]) + if more[|more| - 1] == Vacuum(CatchUp) then 1 else 0
  }

  lemma StaysFinished(s: State, step: Step)
    requires Inv(s) && Enabled(s, step) && NoUpdate(step)
    ensures Finished(s) ==> step.Do? && Finished(Apply(s, step))
    ensures step == Vacuum(CatchUp) ==> Finished(Apply(s, step))
  {
    if step.Do? {
      ClientKeepsPrimary(s, step.c, step.act);
    }
  }

  lemma {:induction false} OneCatchUp(s: State, more: seq<Step>)
    requires Inv(s) && IsQuietRun(s, more)
    ensures CatchUps(more) <= 1 && (CatchUps(more) == 1 ==> Finished(AfterQuiet(s, more)))
    decreases |more|
  {
    if more != [] {
      var k := |more| - 1;
      OneCatchUp(s, more[..k]);
      StaysFinished(AfterQuiet(s, more[..k]), more[k]);
    }
  }

  /** The vacuum is done, or it can take a step; and it has no more than `left` steps to take. */
  ghost predicate Nearing(s: State, left: int)
    requires Inv(s)
  {
    left >= 0 && (Finished(s) || exists vac :: VacuumEnabled(s, vac)) && (left == 0 ==> Finished(s))
  }

  function WorkBound(vsn: nat, n: nat): nat { 9 * n + 9 * vsn + 64 }

  lemma CostBound(s: State, n: nat)
    requires Inv(s) && |s.clients| <= n && |Unseen(s.phase)| <= n
    ensures Accounted(s, 0, n, |s.hist| + 3, 0, WorkBound(|s.hist|, n))
  {
  }

  /** From any reachable state, in every run without further updates and with at most `n` clients:
      the vacuum begins at most two rounds and catches up at most once, it is never stuck before it
      is done, and apart from steps spent waiting for a client to checkpoint it takes at most
      `9n + 9 vsn + 64` steps until every version is merged. */
  lemma ConvergenceIsReached(s0: State, steps: seq<Step>, more: seq<Step>, n: nat)
    requires IsRun(s0, steps) && IsQuietRun(After(s0, steps), more) && FewClients(After(s0, steps), more, n)
    requires |Unseen(After(s0, steps).phase)| <= n
    ensures Rounds(more) <= 2 && CatchUps(more) <= 1
    ensures Nearing(AfterQuiet(After(s0, steps), more),
                    WorkBound(|After(s0, steps).hist|, n) - Effective(After(s0, steps), more))
  {
    var s := After(s0, steps);
    FewAtStart(s, more, n);
    CostBound(s, n);
    RunPays(s, more, n, |s.hist| + 3, WorkBound(|s.hist|, n));
    AtMostTwoRounds(s, more);
    OneCatchUp(s, more);
    Nears(AfterQuiet(s, more), Rounds(more), n, |s.hist| + 3, WorkBound(|s.hist|, n) - Effective(s, more));
  }

  lemma Nears(s: State, r: nat, n: nat, h: nat, left: int)
    requires Inv(s) && Cost(s, r, n, h) <= left
    ensures Nearing(s, left)
  {
    if !Finished(s) {
      VacuumNeverStuck(s);
    }
  }

  lemma {:induction false} FewAtStart(s: State, more: seq<Step>, n: nat)
    requires Inv(s) && IsQuietRun(s, more) && FewClients(s, more, n)
    ensures |s.clients| <= n
    decreases |more|
  {
    if more != [] {
      FewAtStart(s, more[..|more| - 1], n);
    }
  }

  // ----- clients that keep checkpointing

  function VacuumSteps(more: seq<Step>): nat {
    if more == [] then 0
    else VacuumSteps(more[..|more| - 1]) + if more[|more| - 1].Vacuum? then 1 else 0
  }

  /** Whenever the vacuum looks, every client has passed the announced barrier. */
  ghost predicate PromptClients(s: State, more: seq<Step>)
    requires Inv(s) && IsQuietRun(s, more)
    decreases |more|
  {
    more == [] ||
    (var k := |more| - 1;
     PromptClients(s, more[..k]) && (more[k].Vacuum? ==> !Waiting(AfterQuiet(s, more[..k]))))
  }

  lemma {:induction false} PromptRunsAreEffective(s: State, more: seq<Step>)
    requires Inv(s) && IsQuietRun(s, more) && PromptClients(s, more)
    ensures VacuumSteps(more) == Effective(s, more)
    decreases |more|
  {
    if more != [] {
      PromptRunsAreEffective(s, more[..|more| - 1]);
    }
  }

  /** If clients checkpoint promptly, a run in which the vacuum takes that many steps is up to date at
      its end, and no run lets it take more. */
  lemma PromptClientsConverge(s0: State, steps: seq<Step>, more: seq<Step>, n: nat)
    requires IsRun(s0, steps) && IsQuietRun(After(s0, steps), more) && FewClients(After(s0, steps), more, n)
    requires |Unseen(After(s0, steps).phase)| <= n && PromptClients(After(s0, steps), more)
    ensures Nearing(AfterQuiet(After(s0, steps), more), WorkBound(|After(s0, steps).hist|, n) - VacuumSteps(more))
  {
    ConvergenceIsReached(s0, steps, more, n);
    PromptRunsAreEffective(After(s0, steps), more);
  }
}
