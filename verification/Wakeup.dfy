/**
 Waking the event loop from other threads. A sender marks its watcher and writes to the loop's
 pipe only if the loop asked for that; the loop asks before it polls and looks for skipped writes
 around the poll. Every read and write of a shared variable is a step of its own; memory is
 sequentially consistent and any number of senders run at once.
 */
module Wakeup {

  type Thread = nat

  type Watcher = nat

  /** What a sending thread does next. */
  datatype Place =
    | ReadFlag
    | SetFlag
    | SetSkipped
    | ReadWanted
    | ClearSkipped
    | WritePipe

  /** A call in flight: its watcher, its place, and whether its mark is still uncollected. */
  datatype Call = Call(w: Watcher, at: Place, open: bool)

  /** What the loop does next. `readable` is whether the poll reported the pipe. */
  datatype Loop =
    | Working
    | ReadSkipped
    | Polling
    | Blocked
    | ClearWanted(readable: bool)
    | CheckSkipped(readable: bool)
    | ReadPipe(readable: bool)
    | ResetSkipped
    | CheckPending
    | ClearPending
    | Scan(rem: set<Watcher>)

  /** `sent` are the marked watchers. `owed` are those with a call that has returned and whose mark
      has not been collected since, each with the threads whose calls were in flight when that call
      returned and still are. */
  datatype State = State(
    wanted: bool,
    skipped: bool,
    pending: bool,
    pipe: nat,
    sent: set<Watcher>,
    watchers: set<Watcher>,
    senders: map<Thread, Call>,
    owed: map<Watcher, set<Thread>>,
    loop: Loop)

  datatype Step =
    | Send(c: Thread, w: Watcher)
    | Sending(c: Thread)
    | AskForWrites
    | LookForSkips(mayBlock: bool)
    | PollReturns
    | StopAsking
    | LookAgain
    | EmptyPipe(left: nat)
    | ForgetSkips
    | LookForPending
    | ForgetPending
    | Collect(w: Watcher)
    | Collected

  predicate Enabled(s: State, step: Step) {
    match step
    case Send(c, w) => c !in s.senders && w in s.watchers
    case Sending(c) => c in s.senders
    case AskForWrites => s.loop.Working?
    case LookForSkips(_) => s.loop.ReadSkipped?
    case PollReturns => s.loop.Polling? || s.loop.Blocked?
    case StopAsking => s.loop.ClearWanted?
    case LookAgain => s.loop.CheckSkipped?
    // one byte of a pipe, or the whole count of an eventfd
    case EmptyPipe(left) => s.loop.ReadPipe? && (if s.loop.readable && s.pipe > 0 then left < s.pipe else left == s.pipe)
    case ForgetSkips => s.loop.ResetSkipped?
    case LookForPending => s.loop.CheckPending?
    case ForgetPending => s.loop.ClearPending?
    case Collect(w) => s.loop.Scan? && w in s.loop.rem
    case Collected => s.loop.Scan? && s.loop.rem == {}
  }

  function Move(s: State, c: Thread, at: Place): State
    requires c in s.senders
  {
    s.(senders := s.senders[c := s.senders[c].(at := at)])
  }

  /** A call returns. */
  function Return(s: State, c: Thread): State
    requires c in s.senders
  {
    var rest := s.senders - {c};
    var owed := map w | w in s.owed :: s.owed[w] - {c};
    s.(senders := rest, owed := if s.senders[c].open then owed[s.senders[c].w := rest.Keys] else owed)
  }

  /** One step of a sending thread; a thread that is done is no longer listed. */
  function ApplySender(s: State, c: Thread): State
    requires c in s.senders
  {
    match s.senders[c].at
    case ReadFlag => if s.pending then Return(s, c) else Move(s, c, SetFlag)
    case SetFlag => Move(s, c, SetSkipped).(pending := true)
    case SetSkipped => Move(s, c, ReadWanted).(skipped := true)
    case ReadWanted => if s.wanted then Move(s, c, ClearSkipped) else Return(s, c)
    case ClearSkipped => Move(s, c, WritePipe).(skipped := false)
    case WritePipe => Return(s, c).(pipe := s.pipe + 1)
  }

  /** The mark of `w` is collected, whoever set it. */
  function Closed(senders: map<Thread, Call>, w: Watcher): map<Thread, Call> {
    map c | c in senders :: if senders[c].w == w then senders[c].(open := false) else senders[c]
  }

  function Apply(s: State, step: Step): State
    requires Enabled(s, step)
  {
    match step
    case Send(c, w) => s.(sent := s.sent + {w}, senders := s.senders[c := Call(w, ReadFlag, true)])
    case Sending(c) => ApplySender(s, c)
    case AskForWrites => s.(wanted := true, loop := ReadSkipped)
    case LookForSkips(mayBlock) => s.(loop := if s.skipped || !mayBlock then Polling else Blocked)
    case PollReturns => s.(loop := ClearWanted(s.pipe > 0))
    case StopAsking => s.(wanted := false, loop := CheckSkipped(s.loop.readable))
    case LookAgain =>
      s.(loop := if s.skipped || s.loop.readable then ReadPipe(s.loop.readable) else Working)
    case EmptyPipe(left) => s.(pipe := left, loop := ResetSkipped)
    case ForgetSkips => s.(skipped := false, loop := CheckPending)
    case LookForPending => s.(loop := if s.pending then ClearPending else Working)
    case ForgetPending => s.(pending := false, loop := Scan(s.watchers))
    case Collect(w) =>
      s.(sent := s.sent - {w}, senders := Closed(s.senders, w), owed := s.owed - {w}, loop := Scan(s.loop.rem - {w}))
    case Collected => s.(loop := Working)
  }

  predicate Init(s: State) {
    && !s.wanted && !s.skipped && !s.pending && s.pipe == 0 && s.sent == {}
    && s.senders == map[] && s.owed == map[] && s.loop == Working
  }

  /** `steps` is a run from an initial state; `After` is where it leads. */
  predicate IsRun(s0: State, steps: seq<Step>)
    decreases |steps|, 0
  {
    if steps == [] then Init(s0)
    else
      var n := |steps| - 1;
      IsRun(s0, steps[..n]) && Enabled(After(s0, steps[..n]), steps[n])
  }

  function After(s0: State, steps: seq<Step>): State
    requires IsRun(s0, steps)
    decreases |steps|, 1
  {
    if steps == [] then s0
    else
      var n := |steps| - 1;
      Apply(After(s0, steps[..n]), steps[n])
  }

  // ----- the invariant

  /** Some sender is about to do one of the two things. */
  predicate Someone(senders: map<Thread, Call>, p: Place, q: Place) {
    exists c :: c in senders && (senders[c].at == p || senders[c].at == q)
  }

  /** The loop is in its pipe callback and has yet to look at the pending flag. */
  predicate AboutToLook(l: Loop) {
    l.ReadPipe? || l.ResetSkipped? || l.CheckPending? || l.ClearPending?
  }

  /** The scan has yet to reach the watcher. */
  predicate InScan(l: Loop, w: Watcher) {
    l.Scan? && w in l.rem
  }

  /** The call has raised the flag and not written the pipe. */
  predicate PastFlag(at: Place) {
    at == SetSkipped || at == ReadWanted || at == ClearSkipped || at == WritePipe
  }

  /** A mark that was not collected: the flag is up, or its sender has yet to raise it, or the scan
      has yet to reach it. */
  predicate MarksSeen(s: State) {
    forall w :: w in s.sent ==>
      w in s.watchers && (s.pending || Someone(s.senders, ReadFlag, SetFlag) || InScan(s.loop, w))
  }

  /** A raised flag: something will make the loop look at it. */
  predicate FlagSeen(s: State) {
    s.pending ==>
      s.skipped || s.pipe > 0 || Someone(s.senders, SetSkipped, WritePipe) || AboutToLook(s.loop)
  }

  /** While the loop is blocked, a skipped write has not been decided yet. */
  predicate SkipUndecided(s: State) {
    s.loop.Blocked? && s.skipped ==> Someone(s.senders, ReadWanted, ClearSkipped)
  }

  predicate AskedWhilePolling(s: State) {
    s.loop.ReadSkipped? || s.loop.Polling? || s.loop.Blocked? || s.loop.ClearWanted? ==> s.wanted
  }

  /** A call in flight whose mark is uncollected; once it has raised the flag, the flag is up or the
      scan has yet to reach the mark. */
  predicate CallSeen(s: State, call: Call) {
    call.open ==> call.w in s.sent && (PastFlag(call.at) ==> s.pending || InScan(s.loop, call.w))
  }

  predicate CallsSeen(s: State) {
    forall c :: c in s.senders ==> CallSeen(s, s.senders[c])
  }

  /** A mark whose call has returned: the flag is up or the scan has yet to reach it. Unless the scan
      does, every call that got past its look at the flag was in flight when that call returned. */
  predicate DebtSeen(s: State, w: Watcher)
    requires w in s.owed
  {
    && w in s.sent && (s.pending || InScan(s.loop, w))
    && (!InScan(s.loop, w) ==> forall c :: c in s.senders && s.senders[c].at != ReadFlag ==> c in s.owed[w])
  }

  predicate DebtsSeen(s: State) {
    forall w :: w in s.owed ==> DebtSeen(s, w)
  }

  predicate Inv(s: State) {
    MarksSeen(s) && FlagSeen(s) && SkipUndecided(s) && AskedWhilePolling(s) && CallsSeen(s) && DebtsSeen(s)
  }

  // ----- senders that come, move on and go

  lemma OtherSender(senders: map<Thread, Call>, c: Thread, call: Call, p: Place, q: Place)
    requires Someone(senders, p, q)
    requires c in senders ==> (senders[c].at != p && senders[c].at != q) || call.at == p || call.at == q
    ensures Someone(senders[c := call], p, q)
  {
    var d :| d in senders && (senders[d].at == p || senders[d].at == q);
    assert d in senders[c := call];
    if d == c {
      assert senders[c := call][c] == call;
    }
  }

  lemma GoneSender(senders: map<Thread, Call>, c: Thread, p: Place, q: Place)
    requires Someone(senders, p, q) && (c in senders ==> senders[c].at != p && senders[c].at != q)
    ensures Someone(senders - {c}, p, q)
  {
    var d :| d in senders && (senders[d].at == p || senders[d].at == q);
    assert d in senders - {c};
  }

  lemma ClosedSenders(senders: map<Thread, Call>, w: Watcher, p: Place, q: Place)
    requires Someone(senders, p, q)
    ensures Someone(Closed(senders, w), p, q)
  {
    var d :| d in senders && (senders[d].at == p || senders[d].at == q);
    assert d in Closed(senders, w);
  }

  lemma SendKeepsInv(s: State, c: Thread, w: Watcher)
    requires Inv(s) && Enabled(s, Send(c, w))
    ensures Inv(Apply(s, Send(c, w)))
  {
    var s' := Apply(s, Send(c, w));
    assert s'.senders[c].at == ReadFlag;
    if Someone(s.senders, SetSkipped, WritePipe) {
      OtherSender(s.senders, c, s'.senders[c], SetSkipped, WritePipe);
    }
    if Someone(s.senders, ReadWanted, ClearSkipped) {
      OtherSender(s.senders, c, s'.senders[c], ReadWanted, ClearSkipped);
    }
    forall v | v in s'.owed ensures DebtSeen(s', v) { assert DebtSeen(s, v); }
    forall d | d in s'.senders ensures CallSeen(s', s'.senders[d]) { assert d != c ==> CallSeen(s, s.senders[d]); }
  }

  /** The places of the others are as they were. */
  lemma MovedOn(senders: map<Thread, Call>, c: Thread, call: Call, p: Place, q: Place)
    requires c in senders
    ensures Someone(senders, p, q) && senders[c].at != p && senders[c].at != q ==> Someone(senders[c := call], p, q)
    ensures call.at == p || call.at == q ==> Someone(senders[c := call], p, q)
  {
    if Someone(senders, p, q) && senders[c].at != p && senders[c].at != q {
      OtherSender(senders, c, call, p, q);
    }
    assert senders[c := call][c] == call;
  }

  lemma Left(senders: map<Thread, Call>, c: Thread, p: Place, q: Place)
    ensures c in senders && Someone(senders, p, q) && senders[c].at != p && senders[c].at != q ==> Someone(senders - {c}, p, q)
  {
    if c in senders && Someone(senders, p, q) && senders[c].at != p && senders[c].at != q {
      GoneSender(senders, c, p, q);
    }
  }

  /** The first four conjuncts of the invariant, which speak of places only. */
  predicate PlacesOk(s: State) {
    MarksSeen(s) && FlagSeen(s) && SkipUndecided(s) && AskedWhilePolling(s)
  }

  lemma SenderKeepsPlaces(s: State, c: Thread)
    requires Inv(s) && c in s.senders
    ensures PlacesOk(ApplySender(s, c))
  {
    var s' := ApplySender(s, c);
    if c in s'.senders {
      assert s'.senders == s.senders[c := s'.senders[c]];
      MovedOn(s.senders, c, s'.senders[c], ReadFlag, SetFlag);
      MovedOn(s.senders, c, s'.senders[c], SetSkipped, WritePipe);
      MovedOn(s.senders, c, s'.senders[c], ReadWanted, ClearSkipped);
    } else {
      Left(s.senders, c, ReadFlag, SetFlag);
      Left(s.senders, c, SetSkipped, WritePipe);
      Left(s.senders, c, ReadWanted, ClearSkipped);
    }
  }

  lemma SenderKeepsCalls(s: State, c: Thread)
    requires Inv(s) && c in s.senders
    ensures CallsSeen(ApplySender(s, c))
  {
    var s' := ApplySender(s, c);
    assert CallSeen(s, s.senders[c]);
    forall d | d in s'.senders ensures CallSeen(s', s'.senders[d]) { assert CallSeen(s, s.senders[d]); }
  }

  lemma MoveKeepsDebts(s: State, c: Thread)
    requires Inv(s) && c in s.senders && c in ApplySender(s, c).senders
    ensures DebtsSeen(ApplySender(s, c))
  {
    var s' := ApplySender(s, c);
    forall w | w in s'.owed ensures DebtSeen(s', w) { assert DebtSeen(s, w); }
  }

  /** A call that returns either sees the flag up or has raised it. */
  lemma ReturnKeepsDebts(s: State, c: Thread, s': State)
    requires Inv(s) && c in s.senders && (PastFlag(s.senders[c].at) || s.pending)
    requires s' == Return(s, c).(pipe := s'.pipe)
    ensures DebtsSeen(s')
  {
    var call := s.senders[c];
    assert CallSeen(s, call);
    forall w | w in s'.owed
      ensures DebtSeen(s', w)
    {
      if w in s.owed {
        assert DebtSeen(s, w);
      }
    }
  }

  lemma SenderKeepsInv(s: State, c: Thread)
    requires Inv(s) && c in s.senders
    ensures Inv(ApplySender(s, c))
  {
    SenderKeepsPlaces(s, c);
    SenderKeepsCalls(s, c);
    if c in ApplySender(s, c).senders {
      MoveKeepsDebts(s, c);
    } else {
      ReturnKeepsDebts(s, c, ApplySender(s, c));
    }
  }

  // ----- the loop

  lemma CollectKeepsInv(s: State, w: Watcher)
    requires Inv(s) && Enabled(s, Collect(w))
    ensures Inv(Apply(s, Collect(w)))
  {
    var s' := Apply(s, Collect(w));
    if Someone(s.senders, ReadFlag, SetFlag) {
      ClosedSenders(s.senders, w, ReadFlag, SetFlag);
    }
    if Someone(s.senders, SetSkipped, WritePipe) {
      ClosedSenders(s.senders, w, SetSkipped, WritePipe);
    }
    forall c | c in s'.senders ensures CallSeen(s', s'.senders[c]) { assert CallSeen(s, s.senders[c]); }
    forall v | v in s'.owed ensures DebtSeen(s', v) { assert DebtSeen(s, v); }
  }

  predicate LoopStep(step: Step) {
    !step.Send? && !step.Sending? && !step.Collect?
  }

  lemma LoopKeepsPlaces(s: State, step: Step)
    requires Inv(s) && Enabled(s, step) && LoopStep(step)
    ensures PlacesOk(Apply(s, step))
  {
  }

  lemma LoopKeepsCalls(s: State, step: Step)
    requires Inv(s) && Enabled(s, step) && LoopStep(step)
    ensures CallsSeen(Apply(s, step)) && DebtsSeen(Apply(s, step))
  {
    var s' := Apply(s, step);
    forall c | c in s'.senders ensures CallSeen(s', s'.senders[c]) { assert CallSeen(s, s.senders[c]); }
    forall w | w in s'.owed ensures DebtSeen(s', w) { assert DebtSeen(s, w); }
  }

  /** Every step of every thread keeps the invariant. */
  lemma StepKeepsInv(s: State, step: Step)
    requires Inv(s) && Enabled(s, step)
    ensures Inv(Apply(s, step))
  {
    match step
    case Send(c, w) => SendKeepsInv(s, c, w);
    case Sending(c) => SenderKeepsInv(s, c);
    case Collect(w) => CollectKeepsInv(s, w);
    case _ =>
      LoopKeepsPlaces(s, step);
      LoopKeepsCalls(s, step);
  }

  lemma {:induction false} RunsKeepInv(s0: State, steps: seq<Step>)
    requires IsRun(s0, steps)
    ensures Inv(After(s0, steps))
    decreases |steps|
  {
    if steps != [] {
      var n := |steps| - 1;
      RunsKeepInv(s0, steps[..n]);
      StepKeepsInv(After(s0, steps[..n]), steps[n]);
    }
  }

  // ----- no wakeup is lost

  /** The sender is on its way to write the pipe, as long as the loop stays blocked. */
  predicate Committed(s: State, c: Thread) {
    c in s.senders && (s.senders[c].at == ReadFlag ==> !s.pending)
  }

  lemma UndeliveredMeansCommitted(s: State, w: Watcher)
    requires Inv(s) && s.loop.Blocked? && s.pipe == 0 && w in s.sent
    ensures exists c :: Committed(s, c)
  {
    var c: Thread;
    if !s.pending {
      c :| c in s.senders && (s.senders[c].at == ReadFlag || s.senders[c].at == SetFlag);
    } else if s.skipped {
      c :| c in s.senders && (s.senders[c].at == ReadWanted || s.senders[c].at == ClearSkipped);
    } else {
      c :| c in s.senders && (s.senders[c].at == SetSkipped || s.senders[c].at == WritePipe);
    }
    assert Committed(s, c);
  }

  /** In every run: if the loop is blocked on an empty pipe while some mark is not collected, then
      a sender is on its way to write the pipe. */
  lemma NoLostWakeup(s0: State, steps: seq<Step>, w: Watcher)
    requires IsRun(s0, steps)
    requires After(s0, steps).loop.Blocked? && After(s0, steps).pipe == 0 && w in After(s0, steps).sent
    ensures exists c :: Committed(After(s0, steps), c)
  {
    RunsKeepInv(s0, steps);
    UndeliveredMeansCommitted(After(s0, steps), w);
  }

  /** In every run: once all calls have returned, the loop is not blocked on an empty pipe while
      some mark is not collected. */
  lemma ReturnedSendsWake(s0: State, steps: seq<Step>, w: Watcher)
    requires IsRun(s0, steps) && w in After(s0, steps).sent && After(s0, steps).senders == map[]
    ensures !(After(s0, steps).loop.Blocked? && After(s0, steps).pipe == 0)
  {
    if After(s0, steps).loop.Blocked? && After(s0, steps).pipe == 0 {
      NoLostWakeup(s0, steps, w);
    }
  }

  function StepsLeft(p: Place): nat {
    match p
    case ReadFlag => 6
    case SetFlag => 5
    case SetSkipped => 4
    case ReadWanted => 3
    case ClearSkipped => 2
    case WritePipe => 1
  }

  /** While the loop is blocked, each step of a committed sender brings it closer to the write. */
  lemma CommittedAdvances(s: State, c: Thread)
    requires Inv(s) && s.loop.Blocked? && Committed(s, c)
    ensures var s' := ApplySender(s, c);
            && s'.loop.Blocked?
            && (s'.pipe > 0 || (Committed(s', c) && StepsLeft(s'.senders[c].at) < StepsLeft(s.senders[c].at)))
  {
  }

  /** Some number of steps of one sender. */
  function Alone(s: State, c: Thread, n: nat): State
    decreases n
  {
    if n == 0 || c !in s.senders then s else Alone(ApplySender(s, c), c, n - 1)
  }

  lemma {:induction false} CommittedWrites(s: State, c: Thread, n: nat)
    requires Inv(s) && s.loop.Blocked? && s.pipe == 0 && Committed(s, c) && n == StepsLeft(s.senders[c].at)
    ensures exists k :: 0 <= k <= n && Alone(s, c, k).pipe > 0 && Alone(s, c, k).loop.Blocked?
    decreases n
  {
    var s' := ApplySender(s, c);
    CommittedAdvances(s, c);
    SenderKeepsInv(s, c);
    if s'.pipe > 0 {
      assert Alone(s, c, 1) == s';
    } else {
      CommittedWrites(s', c, StepsLeft(s'.senders[c].at));
      var k :| 0 <= k <= StepsLeft(s'.senders[c].at) && Alone(s', c, k).pipe > 0 && Alone(s', c, k).loop.Blocked?;
      assert Alone(s, c, k + 1) == Alone(s', c, k);
    }
  }

  /** In every run: a loop blocked on an empty pipe with an uncollected mark is at most six steps of
      one sender away from a readable pipe. */
  lemma WakeupIsNear(s0: State, steps: seq<Step>, w: Watcher)
    requires IsRun(s0, steps)
    requires After(s0, steps).loop.Blocked? && After(s0, steps).pipe == 0 && w in After(s0, steps).sent
    ensures exists c, k :: 0 <= k <= 6 && Alone(After(s0, steps), c, k).pipe > 0 && Alone(After(s0, steps), c, k).loop.Blocked?
  {
    RunsKeepInv(s0, steps);
    var s := After(s0, steps);
    UndeliveredMeansCommitted(s, w);
    var c :| Committed(s, c);
    CommittedWrites(s, c, StepsLeft(s.senders[c].at));
  }

  // ----- calls that have returned

  /** The loop is blocked on an empty pipe although a call for `w` has returned and its mark has not
      been collected. */
  predicate Overlooked(s: State, w: Watcher) {
    s.loop.Blocked? && s.pipe == 0 && w in s.owed
  }

  /** Another call is past raising the flag and has not written yet, and it was in flight when the
      overlooked call returned. */
  predicate Overlapped(s: State, w: Watcher)
    requires w in s.owed
  {
    exists c :: c in s.senders && c in s.owed[w] && PastFlag(s.senders[c].at)
  }

  lemma OverlookedMeansOverlapped(s: State, w: Watcher)
    requires Inv(s) && Overlooked(s, w)
    ensures s.pending && Overlapped(s, w)
  {
    assert DebtSeen(s, w);
    var c: Thread;
    if s.skipped {
      c :| c in s.senders && (s.senders[c].at == ReadWanted || s.senders[c].at == ClearSkipped);
    } else {
      c :| c in s.senders && (s.senders[c].at == SetSkipped || s.senders[c].at == WritePipe);
    }
    assert c in s.owed[w];
  }

  /** In every run: a returned call is overlooked only while the flag is up and a call that it
      overlapped has raised the flag and not written the pipe. */
  lemma OverlookedNeedsOverlap(s0: State, steps: seq<Step>, w: Watcher)
    requires IsRun(s0, steps) && Overlooked(After(s0, steps), w)
    ensures After(s0, steps).pending && Overlapped(After(s0, steps), w)
  {
    RunsKeepInv(s0, steps);
    OverlookedMeansOverlapped(After(s0, steps), w);
  }

  /** Calls do not overlap: each begins when none is in flight. */
  predicate Serial(s0: State, steps: seq<Step>)
    requires IsRun(s0, steps)
    decreases |steps|
  {
    steps == [] ||
    (var n := |steps| - 1;
     Serial(s0, steps[..n]) && (steps[n].Send? ==> After(s0, steps[..n]).senders == map[]))
  }

  predicate OneCall(s: State) {
    && (forall c, d :: c in s.senders && d in s.senders ==> c == d)
    && (forall w :: w in s.owed ==> s.owed[w] == {})
  }

  lemma StepKeepsOneCall(s: State, step: Step)
    requires Enabled(s, step) && OneCall(s) && (step.Send? ==> s.senders == map[])
    ensures OneCall(Apply(s, step))
  {
  }

  lemma {:induction false} SerialRunsKeepOneCall(s0: State, steps: seq<Step>)
    requires IsRun(s0, steps) && Serial(s0, steps)
    ensures OneCall(After(s0, steps))
    decreases |steps|
  {
    if steps != [] {
      var n := |steps| - 1;
      SerialRunsKeepOneCall(s0, steps[..n]);
      StepKeepsOneCall(After(s0, steps[..n]), steps[n]);
    }
  }

  /** In every run whose calls do not overlap, no returned call is ever overlooked. */
  lemma SerialCallsAreSeen(s0: State, steps: seq<Step>, w: Watcher)
    requires IsRun(s0, steps) && Serial(s0, steps)
    ensures !Overlooked(After(s0, steps), w)
  {
    if Overlooked(After(s0, steps), w) {
      OverlookedNeedsOverlap(s0, steps, w);
      SerialRunsKeepOneCall(s0, steps);
    }
  }

  lemma AloneDown(s: State, c: Thread, w: Watcher)
    requires Inv(s) && s.loop.Blocked? && Enabled(s, Send(c, w)) && !s.pending
    ensures var s' := Alone(Apply(s, Send(c, w)), c, 6);
            c !in s'.senders && w in s'.owed && s'.loop.Blocked? && s'.pipe == s.pipe + 1
  {
    var s1 := Apply(s, Send(c, w));
    var s2 := ApplySender(s1, c);
    var s3 := ApplySender(s2, c);
    var s4 := ApplySender(s3, c);
    var s5 := ApplySender(s4, c);
    var s6 := ApplySender(s5, c);
    assert Alone(s1, c, 6) == Alone(s2, c, 5) == Alone(s3, c, 4);
    assert Alone(s3, c, 4) == Alone(s4, c, 3) == Alone(s5, c, 2);
    assert Alone(s5, c, 2) == Alone(s6, c, 1) == ApplySender(s6, c);
  }

  /** Exactly when: in every run that leads to a loop blocked on an empty pipe, one more call that
      runs to its end is overlooked if and only if the flag is up. */
  lemma OverlookedIffFlagUp(s0: State, steps: seq<Step>, c: Thread, w: Watcher)
    requires IsRun(s0, steps) && After(s0, steps).loop.Blocked? && After(s0, steps).pipe == 0
    requires Enabled(After(s0, steps), Send(c, w))
    ensures var s' := Alone(Apply(After(s0, steps), Send(c, w)), c, 6);
            c !in s'.senders && (Overlooked(s', w) <==> After(s0, steps).pending)
  {
    RunsKeepInv(s0, steps);
    var s := After(s0, steps);
    var s1 := Apply(s, Send(c, w));
    if s.pending {
      assert Alone(s1, c, 6) == Alone(ApplySender(s1, c), c, 5);
    } else {
      AloneDown(s, c, w);
    }
  }

  // ----- delivery

  /** How far the loop is from collecting `w`, if no sender runs. */
  function Round(s: State, w: Watcher): nat {
    match s.loop
    case Scan(rem) => if w in rem then 1 else 3
    case ClearWanted(readable) => if readable || s.skipped then 2 else 3
    case CheckSkipped(readable) => if readable || s.skipped then 2 else 3
    case _ => 2
  }

  function Distance(l: Loop): nat {
    match l
    case Scan(rem) => |rem|
    case Working => 9
    case ReadSkipped => 8
    case Polling => 7
    case Blocked => 7
    case ClearWanted(_) => 6
    case CheckSkipped(_) => 5
    case ReadPipe(_) => 4
    case ResetSkipped => 3
    case CheckPending => 2
    case ClearPending => 1
  }

  /** Without senders, every step of the loop brings an uncollected mark closer to collection. */
  lemma LoopDelivers(s: State, step: Step, w: Watcher)
    requires Inv(s) && s.senders == map[] && w in s.sent && Enabled(s, step) && !step.Send?
    ensures var s' := Apply(s, step);
            w in s'.sent ==> (Round(s, w), Distance(s.loop) decreases to Round(s', w), Distance(s'.loop))
  {
    if step.Collect? {
      assert |s.loop.rem - {step.w}| < |s.loop.rem|;
    }
  }

  // ----- two ways to be overlooked

  /** `steps` is a run from START that leads to `s`. */
  predicate LeadsTo(steps: seq<Step>, s: State) {
    IsRun(START, steps) && After(START, steps) == s
  }

  const START := State(false, false, false, 0, {}, {0, 1}, map[], map[], Working)

  lemma Then(steps: seq<Step>, s: State, step: Step)
    requires LeadsTo(steps, s) && Enabled(s, step)
    ensures LeadsTo(steps + [step], Apply(s, step))
  {
    var all := steps + [step];
    assert all[..|all| - 1] == steps && all[|all| - 1] == step;
  }

  /** One thread has raised the flag and paused; another sees the flag up and returns; the loop then
      blocks on an empty pipe. */
  lemma OverlookedFlagUp() returns (steps: seq<Step>, s: State)
    ensures LeadsTo(steps, s) && Overlooked(s, 1) && s.senders.Keys == {1} && s.senders[1].at == SetSkipped
  {
    steps, s := [], START;
    steps, s := Go(steps, s, Send(1, 0));
    steps, s := Go(steps, s, Sending(1));
    steps, s := Go(steps, s, Sending(1));
    steps, s := Go(steps, s, Send(2, 1));
    steps, s := Go(steps, s, Sending(2));
    steps, s := Go(steps, s, AskForWrites);
    steps, s := Go(steps, s, LookForSkips(true));
  }

  lemma Go(steps: seq<Step>, s: State, step: Step) returns (steps': seq<Step>, s': State)
    requires LeadsTo(steps, s) && Enabled(s, step)
    ensures steps' == steps + [step] && s' == Apply(s, step) && LeadsTo(steps', s')
  {
    Then(steps, s, step);
    steps', s' := steps + [step], Apply(s, step);
  }

  /** A call is about to take its skipped write back and write, when the poll returns for another
      reason and the loop collects every mark. */
  lemma StaleSender() returns (steps: seq<Step>, s: State)
    ensures LeadsTo(steps, s) && !s.wanted && !s.skipped && !s.pending && s.pipe == 0 && s.owed == map[] && s.loop == Working
    ensures s.senders.Keys == {1} && s.senders[1].at == ClearSkipped && s.watchers == {0, 1}
  {
    steps, s := ScanBegins();
    steps, s := Go(steps, s, Collect(0));
    steps, s := Go(steps, s, Collect(1));
    assert s.loop.rem == {};
    steps, s := Go(steps, s, Collected);
  }

  lemma ScanBegins() returns (steps: seq<Step>, s: State)
    ensures LeadsTo(steps, s) && !s.wanted && !s.skipped && !s.pending && s.pipe == 0 && s.owed == map[] && s.loop == Scan({0, 1})
    ensures s.senders.Keys == {1} && s.senders[1].at == ClearSkipped && s.watchers == {0, 1}
  {
    steps, s := BlockedSender();
    steps, s := Go(steps, s, PollReturns);
    steps, s := Go(steps, s, StopAsking);
    steps, s := Go(steps, s, LookAgain);
    steps, s := Go(steps, s, EmptyPipe(0));
    steps, s := Go(steps, s, ForgetSkips);
    steps, s := Go(steps, s, LookForPending);
    steps, s := Go(steps, s, ForgetPending);
  }

  lemma BlockedSender() returns (steps: seq<Step>, s: State)
    ensures LeadsTo(steps, s) && s.wanted && s.skipped && s.pending && s.pipe == 0 && s.owed == map[] && s.loop == Blocked
    ensures s.senders.Keys == {1} && s.senders[1].at == ClearSkipped && s.watchers == {0, 1}
  {
    steps, s := [], START;
    steps, s := Go(steps, s, AskForWrites);
    steps, s := Go(steps, s, LookForSkips(true));
    steps, s := Go(steps, s, Send(1, 0));
    steps, s := Go(steps, s, Sending(1));
    steps, s := Go(steps, s, Sending(1));
    steps, s := Go(steps, s, Sending(1));
    steps, s := Go(steps, s, Sending(1));
  }

  /** A call that begins with the flag down raises it and returns, since nobody asks for writes; the
      stale sender then takes back its skip, and the loop blocks on an empty pipe. */
  lemma OverlookedFlagDown() returns (before: seq<Step>, steps: seq<Step>, s: State)
    ensures IsRun(START, before) && !After(START, before).pending
    ensures |before| < |steps| && steps[..|before|] == before && steps[|before|] == Send(2, 1)
    ensures LeadsTo(steps, s) && Overlooked(s, 1) && s.senders.Keys == {1} && s.senders[1].at == WritePipe
  {
    before, s := StaleSender();
    steps := before;
    steps, s := Go(steps, s, Send(2, 1));
    steps, s := Go(steps, s, Sending(2));
    steps, s := Go(steps, s, Sending(2));
    steps, s := Go(steps, s, Sending(2));
    steps, s := Go(steps, s, Sending(2));
    steps, s := Go(steps, s, Sending(1));
    steps, s := Go(steps, s, AskForWrites);
    steps, s := Go(steps, s, LookForSkips(true));
  }
}
