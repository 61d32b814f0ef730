/**
 The barrier that the worker threads reuse. Each call holds the mutex from entry until it either
 completes the round or starts to wait, and again each time a waiter looks at the cycle bit.
 */
module CycleBarrier {
  import opened Basics

  type Thread = nat

  /** `entered` counts the calls of the thread, `results` what those that returned gave it, `seen`
      is the cycle bit it remembers while it waits. */
  datatype Member = Member(entered: nat, waiting: bool, seen: bool, results: seq<int>)

  /** `last` names the thread that completed each round so far. */
  datatype State = State(threshold: nat, counter: nat, cycle: bool, members: map<Thread, Member>, last: seq<Thread>)

  datatype Step = Enter(t: Thread) | Look(t: Thread)

  predicate Enabled(s: State, step: Step) {
    match step
    case Enter(t) => t in s.members && !s.members[t].waiting
    case Look(t) => t in s.members && s.members[t].waiting
  }

  function Returned(m: Member, status: int): Member {
    m.(waiting := false, results := m.results + [status])
  }

  /** The last thread in flips the cycle, refills the counter and gets -1; the others wait. */
  function ApplyEnter(s: State, t: Thread): State
    requires t in s.members
  {
    var m := s.members[t].(entered := s.members[t].entered + 1);
    if s.counter == 1 then
      s.(counter := s.threshold, cycle := !s.cycle, members := s.members[t := Returned(m, -1)], last := s.last + [t])
    else
      s.(counter := if s.counter > 0 then s.counter - 1 else 0,
         members := s.members[t := m.(waiting := true, seen := s.cycle)])
  }

  /** A waiter leaves when the cycle bit is no longer the one it remembers. */
  function ApplyLook(s: State, t: Thread): State
    requires t in s.members
  {
    if s.members[t].seen == s.cycle then s
    else s.(members := s.members[t := Returned(s.members[t], 0)])
  }

  function Apply(s: State, step: Step): State
    requires Enabled(s, step)
  {
    match step
    case Enter(t) => ApplyEnter(s, t)
    case Look(t) => ApplyLook(s, t)
  }

  predicate Init(s: State) {
    && s.threshold == s.counter == |s.members| > 0 && !s.cycle && s.last == []
    && forall t :: t in s.members ==> s.members[t].entered == 0 && !s.members[t].waiting && s.members[t].results == []
  }

  // ----- the invariant

  /** The rounds completed so far. */
  function Round(s: State): nat { |s.last| }

  /** The threads that are in the round which is not complete yet. */
  function Inside(members: map<Thread, Member>, r: nat): (ts: set<Thread>)
    ensures forall t :: t in ts <==> t in members && members[t].entered == r + 1
  {
    set t | t in members && members[t].entered == r + 1
  }

  /** A waiter belongs to the current round or the one just completed, and its remembered bit tells
      the two apart; a thread that does not wait has been through every completed round. */
  predicate MemberOk(m: Member, cycle: bool, r: nat) {
    && (m.waiting ==> m.entered == r || m.entered == r + 1)
    && (!m.waiting ==> m.entered == r)
    && (m.waiting ==> (m.seen == cycle <==> m.entered == r + 1))
    && (m.waiting ==> m.entered > 0)
    && |m.results| == if m.waiting then m.entered - 1 else m.entered
  }

  /** A thread got -1 from a round exactly if it completed that round. */
  predicate ResultsOk(t: Thread, results: seq<int>, last: seq<Thread>) {
    |results| <= |last| && forall k :: 0 <= k < |results| ==> results[k] == if last[k] == t then -1 else 0
  }

  predicate Inv(s: State) {
    && s.threshold == |s.members|
    && (forall t :: t in s.members ==> MemberOk(s.members[t], s.cycle, Round(s)))
    && (forall t :: t in s.members ==> ResultsOk(t, s.members[t].results, s.last))
    && 0 < s.counter == s.threshold - |Inside(s.members, Round(s))|
    && (forall k :: 0 <= k < |s.last| ==> s.last[k] in s.members && k < |s.members[s.last[k]].results|)
  }

  lemma InitInv(s: State)
    requires Init(s)
    ensures Inv(s)
  {
    assert Inside(s.members, 0) == {};
  }

  /** The last thread to enter finds all others inside. */
  lemma OthersInside(s: State, t: Thread)
    requires Inv(s) && Enabled(s, Enter(t)) && s.counter == 1
    ensures forall u :: u in s.members && u != t ==> s.members[u].entered == Round(s) + 1
  {
    var ts := Inside(s.members, Round(s));
    var others := s.members.Keys - {t};
    assert ts <= others;
    SubsetSize(ts, others);
  }

  lemma EnterCompletes(s: State, t: Thread)
    requires Inv(s) && Enabled(s, Enter(t)) && s.counter == 1
    ensures Inv(ApplyEnter(s, t))
  {
    var s' := ApplyEnter(s, t);
    var r := Round(s);
    OthersInside(s, t);
    assert Inside(s'.members, r + 1) == {};
    assert s'.members.Keys == s.members.Keys;
    assert |s'.members| == |s'.members.Keys| && |s.members| == |s.members.Keys|;
    forall u | u in s'.members
      ensures MemberOk(s'.members[u], s'.cycle, r + 1) && ResultsOk(u, s'.members[u].results, s'.last)
    {
      assert MemberOk(s.members[u], s.cycle, r) && ResultsOk(u, s.members[u].results, s.last);
    }
  }

  lemma EnterWaits(s: State, t: Thread)
    requires Inv(s) && Enabled(s, Enter(t)) && s.counter > 1
    ensures Inv(ApplyEnter(s, t))
  {
    var s' := ApplyEnter(s, t);
    var r := Round(s);
    assert Inside(s'.members, r) == Inside(s.members, r) + {t};
    assert s'.members.Keys == s.members.Keys;
    assert |s'.members| == |s'.members.Keys| && |s.members| == |s.members.Keys|;
    forall u | u in s'.members
      ensures MemberOk(s'.members[u], s'.cycle, r) && ResultsOk(u, s'.members[u].results, s'.last)
    {
      assert MemberOk(s.members[u], s.cycle, r) && ResultsOk(u, s.members[u].results, s.last);
    }
  }

  lemma LookKeepsInv(s: State, t: Thread)
    requires Inv(s) && Enabled(s, Look(t))
    ensures Inv(ApplyLook(s, t))
  {
    if s.members[t].seen != s.cycle {
      var s' := ApplyLook(s, t);
      var r := Round(s);
      assert MemberOk(s.members[t], s.cycle, r) && ResultsOk(t, s.members[t].results, s.last);
      LastDidNotWait(s, t);
      assert MemberOk(s'.members[t], s.cycle, r) && ResultsOk(t, s'.members[t].results, s.last);
      SameRound(s, s', t);
    }
  }

  lemma SameRound(s: State, s': State, t: Thread)
    requires Inv(s) && t in s.members && t in s'.members && s' == s.(members := s.members[t := s'.members[t]])
    requires s'.members[t].entered == s.members[t].entered && s.members[t].results <= s'.members[t].results
    requires MemberOk(s'.members[t], s.cycle, Round(s)) && ResultsOk(t, s'.members[t].results, s.last)
    ensures Inv(s')
  {
    assert Inside(s'.members, Round(s)) == Inside(s.members, Round(s));
    assert s'.members.Keys == s.members.Keys;
    assert |s'.members| == |s'.members.Keys| && |s.members| == |s.members.Keys|;
  }

  /** A thread that still waits did not complete its round. */
  lemma LastDidNotWait(s: State, t: Thread)
    requires Inv(s) && t in s.members && s.members[t].waiting && s.members[t].entered == Round(s)
    ensures s.last[s.members[t].entered - 1] != t
  {
    assert MemberOk(s.members[t], s.cycle, Round(s));
    var k := s.members[t].entered - 1;
    assert k == |s.members[t].results|;
  }

  lemma StepKeepsInv(s: State, step: Step)
    requires Inv(s) && Enabled(s, step)
    ensures Inv(Apply(s, step))
  {
    match step
    case Enter(t) =>
      if s.counter == 1 {
        EnterCompletes(s, t);
      } else {
        EnterWaits(s, t);
      }
    case Look(t) => LookKeepsInv(s, t);
  }

  // ----- runs

  predicate IsRun(s0: State, steps: seq<Step>)
    decreases |steps|, 0
  {
    if steps == [] then Init(s0)
    else
      var n := |steps| - 1;
      IsRun(s0, steps[..n]) && Enabled(After(s0, steps[..n]), steps[n])
  }

  function After(s0: State, steps: seq<Step>): State
    requires IsRun(s0, steps)
    decreases |steps|, 1
  {
    if steps == [] then s0 else var n := |steps| - 1; Apply(After(s0, steps[..n]), steps[n])
  }

  lemma {:induction false} RunsKeepInv(s0: State, steps: seq<Step>)
    requires IsRun(s0, steps)
    ensures Inv(After(s0, steps))
    decreases |steps|
  {
    if steps == [] {
      InitInv(s0);
    } else {
      var n := |steps| - 1;
      RunsKeepInv(s0, steps[..n]);
      StepKeepsInv(After(s0, steps[..n]), steps[n]);
    }
  }

  /** What a barrier promises: a thread that has returned from its k-th call finds that every thread
      has made its k-th call, and of the threads that return from a round exactly the one that
      completed it gets -1, the others 0. */
  predicate Keeps(s: State) {
    && (forall t, u :: t in s.members && u in s.members ==> |s.members[t].results| <= s.members[u].entered)
    && (forall t, k :: t in s.members && 0 <= k < |s.members[t].results| ==>
          k < |s.last| && s.members[t].results[k] == if s.last[k] == t then -1 else 0)
    && (forall k :: 0 <= k < |s.last| ==> s.last[k] in s.members && k < |s.members[s.last[k]].results|)
  }

  lemma InvKeeps(s: State)
    requires Inv(s)
    ensures Keeps(s)
  {
    forall t, u | t in s.members && u in s.members
      ensures |s.members[t].results| <= s.members[u].entered
    {
      assert MemberOk(s.members[t], s.cycle, Round(s)) && MemberOk(s.members[u], s.cycle, Round(s));
    }
    forall t, k | t in s.members && 0 <= k < |s.members[t].results|
      ensures k < |s.last| && s.members[t].results[k] == if s.last[k] == t then -1 else 0
    {
      assert ResultsOk(t, s.members[t].results, s.last);
    }
  }

  /** In every run of exactly `threshold` threads, however often they reuse the barrier. */
  lemma BarrierHolds(s0: State, steps: seq<Step>)
    requires IsRun(s0, steps)
    ensures Keeps(After(s0, steps))
  {
    RunsKeepInv(s0, steps);
    InvKeeps(After(s0, steps));
  }

  /** The single bit never misleads a slow waiter: it lets a waiter go exactly if the waiter's round
      is complete. */
  lemma BitNeverAliases(s0: State, steps: seq<Step>, t: Thread)
    requires IsRun(s0, steps) && Enabled(After(s0, steps), Look(t))
    ensures var s := After(s0, steps);
            s.members[t].seen != s.cycle <==> s.members[t].entered <= Round(s)
  {
    RunsKeepInv(s0, steps);
    var s := After(s0, steps);
    assert MemberOk(s.members[t], s.cycle, Round(s));
  }

  /** Nobody is stuck: some thread can enter or leave. */
  lemma NeverStuck(s0: State, steps: seq<Step>)
    requires IsRun(s0, steps)
    ensures SomeoneMoves(After(s0, steps))
  {
    RunsKeepInv(s0, steps);
    InvMoves(After(s0, steps));
  }

  predicate SomeoneMoves(s: State) {
    exists t :: t in s.members && (!s.members[t].waiting || s.members[t].seen != s.cycle)
  }

  lemma Missing(a: set<Thread>, b: set<Thread>)
    requires |a| < |b|
    ensures exists x :: x in b && x !in a
  {
    if b <= a {
      SubsetSize(b, a);
    }
  }

  lemma InvMoves(s: State)
    requires Inv(s)
    ensures SomeoneMoves(s)
  {
    var ts := Inside(s.members, Round(s));
    assert |ts| < |s.members| == |s.members.Keys|;
    Missing(ts, s.members.Keys);
    var t :| t in s.members.Keys && t !in ts;
    assert MemberOk(s.members[t], s.cycle, Round(s));
  }

  // ----- every call counts and returns

  /** Everybody but `t` is in the current round already. */
  predicate OthersEntered(s: State, t: Thread) {
    forall u :: u in s.members && u != t ==> s.members[u].entered == Round(s) + 1
  }

  /** An entry counts, and it returns at once, with -1, exactly if all others are in the round. */
  lemma EnterReturnsIff(s0: State, steps: seq<Step>, t: Thread)
    requires IsRun(s0, steps) && Enabled(After(s0, steps), Enter(t))
    ensures var s := After(s0, steps); var m, m' := s.members[t], Apply(s, Enter(t)).members[t];
            && m'.entered == m.entered + 1 && m.entered == Round(s)
            && (!m'.waiting <==> OthersEntered(s, t))
            && m'.results == m.results + if OthersEntered(s, t) then [-1] else []
  {
    RunsKeepInv(s0, steps);
    EnterHere(After(s0, steps), t);
  }

  lemma EnterHere(s: State, t: Thread)
    requires Inv(s) && Enabled(s, Enter(t))
    ensures s.members[t].entered == Round(s) && (s.counter == 1 <==> OthersEntered(s, t))
  {
    assert MemberOk(s.members[t], s.cycle, Round(s));
    var inside, others := Inside(s.members, Round(s)), s.members.Keys - {t};
    assert inside <= others && |others| == |s.members| - 1;
    SubsetSize(inside, others);
    if OthersEntered(s, t) {
      assert others <= inside;
      SubsetSize(others, inside);
    }
    if s.counter == 1 {
      assert inside == others;
    }
  }

  /** A waiter returns, with 0, exactly if its round is complete. */
  lemma LookReturnsIff(s0: State, steps: seq<Step>, t: Thread)
    requires IsRun(s0, steps) && Enabled(After(s0, steps), Look(t))
    ensures var s := After(s0, steps); var m, m' := s.members[t], Apply(s, Look(t)).members[t];
            && m'.entered == m.entered && (!m'.waiting <==> m.entered <= Round(s))
            && m'.results == m.results + if m.entered <= Round(s) then [0] else []
  {
    BitNeverAliases(s0, steps, t);
  }

  /** `steps` is a run that leads to `s`. */
  ghost predicate LeadsTo(s0: State, steps: seq<Step>, s: State) {
    IsRun(s0, steps) && After(s0, steps) == s && Inv(s)
  }

  lemma GoOn(s0: State, steps: seq<Step>, s: State, step: Step)
    requires LeadsTo(s0, steps, s) && Enabled(s, step)
    ensures LeadsTo(s0, steps + [step], Apply(s, step))
  {
    var all := steps + [step];
    assert all[..|all| - 1] == steps && all[|all| - 1] == step;
    StepKeepsInv(s, step);
  }

  /** The threads that have not returned from call `r - 1`, not made call `r`, not returned from it. */
  function Late(s: State, r: nat): set<Thread> { set t | t in s.members && |s.members[t].results| + 1 < r }
  function Outside(s: State, r: nat): set<Thread> { set t | t in s.members && s.members[t].entered < r }
  function Behind(s: State, r: nat): set<Thread> { set t | t in s.members && |s.members[t].results| < r }

  function Pace(s: State, r: nat): nat { |Late(s, r)| + |Outside(s, r)| + |Behind(s, r)| }

  /** Somebody can bring call `r` closer to its end. */
  lemma NextMover(s: State, r: nat) returns (step: Step)
    requires Inv(s) && (Round(s) + 1 == r || Round(s) == r) && Behind(s, r) != {}
    ensures Enabled(s, step) && step.t in s.members
    ensures step.Enter? ==> Round(s) + 1 == r
    ensures step.Look? ==> s.members[step.t].seen != s.cycle && |s.members[step.t].results| < r
  {
    var t: Thread;
    if Round(s) + 1 == r {
      var inside := Inside(s.members, Round(s));
      assert |inside| < |s.members| == |s.members.Keys|;
      Missing(inside, s.members.Keys);
      t :| t in s.members.Keys && t !in inside;
    } else {
      t :| t in Behind(s, r);
    }
    assert MemberOk(s.members[t], s.cycle, Round(s));
    step := if s.members[t].waiting then Look(t) else Enter(t);
  }

  lemma MoverPays(s: State, r: nat, step: Step)
    requires Inv(s) && (Round(s) + 1 == r || Round(s) == r) && Enabled(s, step)
    requires step.Enter? ==> Round(s) + 1 == r
    requires step.Look? ==> s.members[step.t].seen != s.cycle && |s.members[step.t].results| < r
    ensures var s' := Apply(s, step); Pace(s', r) < Pace(s, r) && (Round(s') + 1 == r || Round(s') == r)
  {
    var s', t := Apply(s, step), step.t;
    assert MemberOk(s.members[t], s.cycle, Round(s));
    assert Late(s', r) <= Late(s, r) && Outside(s', r) <= Outside(s, r) && Behind(s', r) <= Behind(s, r);
    assert
      || (t !in Late(s', r) && t in Late(s, r))
      || (t !in Outside(s', r) && t in Outside(s, r))
      || (t !in Behind(s', r) && t in Behind(s, r));
    SubsetSize(Late(s', r), Late(s, r));
    SubsetSize(Outside(s', r), Outside(s, r));
    SubsetSize(Behind(s', r), Behind(s, r));
  }

  /** In every run: wherever the threads stand, they can go on until every one of them has returned
      from the round that is not complete yet. */
  lemma RoundsGoOn(s0: State, steps: seq<Step>) returns (all: seq<Step>, s: State)
    requires IsRun(s0, steps)
    ensures steps <= all && LeadsTo(s0, all, s)
    ensures forall t :: t in s.members ==> |s.members[t].results| > Round(After(s0, steps))
  {
    RunsKeepInv(s0, steps);
    s, all := After(s0, steps), steps;
    var r := Round(s) + 1;
    while Behind(s, r) != {}
      invariant steps <= all && LeadsTo(s0, all, s) && (Round(s) + 1 == r || Round(s) == r)
      decreases Pace(s, r)
    {
      all, s := MoveOnce(s0, all, s, r);
    }
    forall t | t in s.members ensures |s.members[t].results| >= r { assert t !in Behind(s, r); }
  }

  lemma MoveOnce(s0: State, steps: seq<Step>, s: State, r: nat) returns (all: seq<Step>, s': State)
    requires LeadsTo(s0, steps, s) && (Round(s) + 1 == r || Round(s) == r) && Behind(s, r) != {}
    ensures steps <= all && LeadsTo(s0, all, s') && (Round(s') + 1 == r || Round(s') == r) && Pace(s', r) < Pace(s, r)
  {
    var step := NextMover(s, r);
    MoverPays(s, r, step);
    GoOn(s0, steps, s, step);
    all, s' := steps + [step], Apply(s, step);
  }

  // ----- the barrier as an object

  class Barrier {
    var threshold: nat
    var counter: nat
    var cycle: bool
    ghost var model: State

    ghost predicate Valid()
      reads this
    {
      Inv(model) && threshold == model.threshold && counter == model.counter && cycle == model.cycle
    }

    constructor (count: nat, ghost threads: set<Thread>)
      requires count > 0 && |threads| == count
      ensures Valid() && Init(model) && model.members.Keys == threads
    {
      threshold, counter, cycle := count, count, false;
      ghost var members := map t | t in threads :: Member(0, false, false, []);
      assert members.Keys == threads && |members| == |members.Keys|;
      model := State(count, count, false, members, []);
      InitInv(State(count, count, false, members, []));
    }

    /** The part of a call up to its return or its first wait; `seen` is the bit it remembers. */
    method Arrive(ghost t: Thread) returns (done: bool, seen: bool)
      requires Valid() && Enabled(model, Enter(t))
      modifies this
      ensures Valid() && model == ApplyEnter(old(model), t)
      ensures done <==> !model.members[t].waiting
      ensures done <==> OthersEntered(old(model), t)
      ensures done ==> model.members[t].results == old(model).members[t].results + [-1]
      ensures !done ==> model.members[t].seen == seen
    {
      StepKeepsInv(model, Enter(t));
      EnterHere(model, t);
      seen := cycle;
      counter := counter - 1;
      done := counter == 0;
      if done {
        cycle := !cycle;
        counter := threshold;
      }
      model := ApplyEnter(model, t);
    }

    /** A waiter looks at the bit, holding the mutex. */
    method MayLeave(ghost t: Thread, seen: bool) returns (done: bool)
      requires Valid() && Enabled(model, Look(t)) && model.members[t].seen == seen
      modifies this`model
      ensures Valid() && model == ApplyLook(old(model), t)
      ensures done <==> !model.members[t].waiting
      ensures done <==> old(model).members[t].entered <= Round(old(model))
      ensures done ==> model.members[t].results == old(model).members[t].results + [0]
    {
      assert MemberOk(model.members[t], model.cycle, Round(model));
      StepKeepsInv(model, Look(t));
      done := seen != cycle;
      model := ApplyLook(model, t);
    }
  }
}
