/**
 The multi-version protocol of the filter manager as a state machine.

 Clients read a primary tree and a list of not yet merged updates without locks; one vacuum
 thread merges updates into the other tree, swaps the trees, waits until every client has
 checkpointed past a barrier version, merges again and only then frees. Every shared access
 of a client (reading the tree pointer, taking a filter from a tree, stepping along the delta
 list) and every phase of the vacuum is a step of its own, and the scans of the client list
 visit one client per step.
 */
module Mvcc {
  import opened Basics

  type Name = string

  type Id = nat

  /** One update. The update at index `i` of the history has version `i + 1`. */
  datatype Update =
    | Create(filter: Id, name: Name)
    | Delete(filter: Id, name: Name)
    | Barrier

  /** A filter wrapper. `born` is the version of its creation (0 when it was loaded from disk at
      start), `died` the version of its deletion (0 while it is active), `frees` counts the calls
      that released it. */
  datatype Wrapper = Wrapper(name: Name, born: nat, died: nat, shouldDelete: bool, frees: nat)

  /** What a client thread can reach: the tree pointers it has read, the version of the delta node
      it is looking at (0 for none), and the wrappers it has been handed. */
  datatype Activity =
    | Quiet
    | Busy(trees: set<nat>, cursor: nat, held: set<Id>)

  datatype Client = Client(vsn: nat, activity: Activity)

  /** Where the vacuum thread stands; `m` is the version it merges up to in this round. */
  datatype Phase =
    | Idle
    | ScanMin(cur: nat, rem: set<Id>)
    | MergeAlt(m: nat, at: nat)
    | Mark(m: nat)
    | Swap(m: nat)
    | Announce(m: nat)
    | Await(m: nat, b: nat, cur: nat, rem: set<Id>)
    | MergeOld(m: nat, at: nat)
    | Cut(m: nat)
    | Reclaim(m: nat, base: nat, at: nat)
    | Unmark(m: nat)

  /** `hist` is every update ever made; the delta list holds those with a version above `low`.
      `loaded` is what the trees held at start. */
  datatype State = State(
    hist: seq<Update>,
    low: nat,
    primaryVsn: nat,
    loaded: map<Name, Id>,
    trees: seq<map<Name, Id>>,
    primary: nat,
    wrappers: seq<Wrapper>,
    pending: set<Name>,
    clients: map<Id, Client>,
    phase: Phase)

  /** Steps of client threads. Creation and removal hold the write lock throughout. */
  datatype ClientStep =
    | Join | Leave | Checkpoint
    | Begin | End
    | ReadTree | TakeFromTree(t: nat, n: Name)
    | ReadDelta | TakeFromNode | Advance
    | CreateFilter(n: Name) | RemoveFilter(n: Name, deleteFiles: bool)

  /** Steps of the vacuum thread. */
  datatype VacuumStep =
    | CatchUp | Start | ScanClient(x: Id) | ScanDone
    | MergeNext | MergeDone | MarkPending | SwapTrees | AddBarrier
    | AwaitScan(x: Id) | AwaitAgain | AwaitDone
    | MergeOldNext | MergeOldDone | CutList | FreeNext | FreeDone | ClearPending

  datatype Step = Do(c: Id, act: ClientStep) | Vacuum(vac: VacuumStep)

  // ----- looking filters up

  /** The version of the newest update above `upTo` that names `n`, or 0. */
  function NewestUpdate(hist: seq<Update>, upTo: nat, n: Name): (r: nat)
    requires upTo <= |hist|
    ensures r == 0 || upTo < r <= |hist|
    ensures r != 0 ==> !hist[r - 1].Barrier? && hist[r - 1].name == n
    ensures forall i :: (if r == 0 then upTo else r) <= i < |hist| ==> hist[i].Barrier? || hist[i].name != n
  {
    if |hist| == upTo then 0
    else if !hist[|hist| - 1].Barrier? && hist[|hist| - 1].name == n then |hist|
    else NewestUpdate(hist[..|hist| - 1], upTo, n)
  }

  datatype Lookup = Missing | Found(filter: Id)

  /** The tree first, then the updates the tree does not have yet, newest first. */
  function Find(s: State, n: Name): (r: Lookup)
    requires Inv(s)
    ensures r.Found? ==> r.filter < |s.wrappers| && s.wrappers[r.filter].name == n
  {
    if n in s.trees[s.primary] then Found(s.trees[s.primary][n])
    else
      var v := NewestUpdate(s.hist, s.primaryVsn, n);
      if v == 0 then Missing
      else
        assert UpdateOk(s.wrappers, s.hist[v - 1], v);
        Found(s.hist[v - 1].filter)
  }

  /** As `Find`, but only filters that have not been dropped or cleared. */
  function Take(s: State, n: Name): (r: Lookup)
    requires Inv(s)
    ensures r.Found? ==> Find(s, n) == r && s.wrappers[r.filter].died == 0
  {
    match Find(s, n)
    case Missing => Missing
    case Found(w) => if s.wrappers[w].died == 0 then Found(w) else Missing
  }

  // ----- well-formed states

  predicate Shape(s: State) {
    && |s.trees| == 2
    && s.primary < 2
    && s.low <= s.primaryVsn <= |s.hist|
  }

  predicate WrapperOk(hist: seq<Update>, x: Wrapper, w: Id) {
    && x.born <= |hist|
    && (x.born != 0 ==> hist[x.born - 1] == Create(w, x.name))
    && (x.died != 0 ==> x.born < x.died <= |hist| && hist[x.died - 1] == Delete(w, x.name))
  }

  predicate WrappersOk(hist: seq<Update>, wrappers: seq<Wrapper>) {
    forall w {:trigger WrapperOk(hist, wrappers[w], w)} :: 0 <= w < |wrappers| ==> WrapperOk(hist, wrappers[w], w)
  }

  /** The update of version `v` is the creation or deletion recorded in the wrapper it names. */
  predicate UpdateOk(wrappers: seq<Wrapper>, u: Update, v: nat) {
    match u
    case Create(w, n) => w < |wrappers| && wrappers[w].name == n && wrappers[w].born == v
    case Delete(w, n) => w < |wrappers| && wrappers[w].name == n && wrappers[w].died == v
    case Barrier => true
  }

  predicate UpdatesOk(hist: seq<Update>, wrappers: seq<Wrapper>) {
    forall i :: 0 <= i < |hist| ==> UpdateOk(wrappers, hist[i], i + 1)
  }

  predicate LiveAt(x: Wrapper, k: nat) {
    x.born <= k && (x.died == 0 || k < x.died)
  }

  /** `t` maps exactly the names live at version `k` to their wrappers. */
  predicate TreeAt(wrappers: seq<Wrapper>, t: map<Name, Id>, k: nat) {
    && (forall n :: n in t ==> t[n] < |wrappers| && wrappers[t[n]].name == n && LiveAt(wrappers[t[n]], k))
    && (forall w {:trigger LiveAt(wrappers[w], k)} :: 0 <= w < |wrappers| && LiveAt(wrappers[w], k) ==>
          wrappers[w].name in t && t[wrappers[w].name] == w)
  }

  /** The version whose content the tree that clients do not read has. */
  function AltVsn(s: State): nat {
    match s.phase
    case MergeAlt(_, at) => at
    case Mark(m) => m
    case Swap(m) => m
    case MergeOld(_, at) => at
    case Cut(m) => m
    case _ => s.low
  }

  predicate TreesOk(s: State)
    requires Shape(s)
  {
    && TreeAt(s.wrappers, s.trees[s.primary], s.primaryVsn)
    && TreeAt(s.wrappers, s.trees[1 - s.primary], AltVsn(s))
  }

  predicate LoadedOk(s: State) {
    TreeAt(s.wrappers, s.loaded, 0)
  }

  predicate Swapped(p: Phase) {
    p.Announce? || p.Await? || p.MergeOld? || p.Cut? || p.Reclaim? || p.Unmark?
  }

  /** How the versions of a round relate. Until the swap only barriers separate `low` from
      `primaryVsn`. */
  predicate PhaseOk(s: State)
    requires Shape(s)
  {
    && (!Swapped(s.phase) ==> forall i :: s.low <= i < s.primaryVsn ==> s.hist[i].Barrier?)
    && match s.phase
       case Idle => true
       case ScanMin(cur, rem) => s.primaryVsn <= cur <= |s.hist|
       case MergeAlt(m, at) => s.low <= at <= m && s.primaryVsn <= m <= |s.hist|
       case Mark(m) => s.primaryVsn <= m <= |s.hist|
       case Swap(m) => s.primaryVsn <= m <= |s.hist|
       case Announce(m) => s.primaryVsn == m
       case Await(m, b, cur, rem) => s.primaryVsn == m < b <= |s.hist| && cur <= |s.hist| && s.hist[b - 1].Barrier?
       case MergeOld(m, at) => s.primaryVsn == m < |s.hist| && s.low <= at <= m
       case Cut(m) => s.primaryVsn == m < |s.hist|
       case Reclaim(m, base, at) => s.primaryVsn == s.low == m < |s.hist| && base <= at <= m
       case Unmark(m) => s.primaryVsn == s.low == m < |s.hist|
  }

  // ----- clients

  /** Below this version nothing may be in reach of the client any more. */
  function Floor(s: State, cl: Client): nat {
    match s.phase
    case Await(m, b, _, _) => if b <= cl.vsn then m else s.low
    case MergeOld(m, _) => m
    case Cut(m) => m
    case _ => s.low
  }

  /** Whether the client may still be reading the tree that was swapped out. */
  predicate MayReadAlt(s: State, cl: Client) {
    s.phase.Announce? || (s.phase.Await? && cl.vsn < s.phase.b)
  }

  predicate ActivityOk(s: State, cl: Client) {
    cl.activity.Busy? ==>
      && (forall t :: t in cl.activity.trees ==> t == s.primary || (t == 1 - s.primary && MayReadAlt(s, cl)))
      && (cl.activity.cursor != 0 ==> Floor(s, cl) < cl.activity.cursor <= |s.hist|)
      && (forall w :: w in cl.activity.held ==>
            w < |s.wrappers| && (s.wrappers[w].died == 0 || Floor(s, cl) < s.wrappers[w].died))
  }

  /** The least version a client may report in this phase: what the primary has, or will have
      after the swap. */
  function Required(s: State): nat {
    match s.phase
    case MergeAlt(m, _) => m
    case Mark(m) => m
    case Swap(m) => m
    case _ => s.primaryVsn
  }

  predicate ClientOk(s: State, c: Id)
    requires c in s.clients
  {
    var cl := s.clients[c];
    && Required(s) <= cl.vsn <= |s.hist|
    && (s.phase.ScanMin? && c !in s.phase.rem ==> s.phase.cur <= cl.vsn)
    && (s.phase.Await? && c !in s.phase.rem ==> s.phase.cur <= cl.vsn)
    && ActivityOk(s, cl)
  }

  predicate ClientsOk(s: State) {
    forall c :: c in s.clients ==> ClientOk(s, c)
  }

  /** Every client has checkpointed past every barrier but the one being awaited. */
  predicate BarriersPassed(hist: seq<Update>, awaited: nat, vsn: nat) {
    forall i :: 0 <= i < |hist| && hist[i].Barrier? && i + 1 != awaited ==> i < vsn
  }

  function Awaited(p: Phase): nat {
    if p.Await? then p.b else 0
  }

  predicate BarriersOk(s: State) {
    forall c :: c in s.clients ==> BarriersPassed(s.hist, Awaited(s.phase), s.clients[c].vsn)
  }

  // ----- wrappers and names

  /** Released exactly when the deletion was merged into both trees and its node already visited. */
  function ExpectedFrees(s: State, x: Wrapper): nat {
    if x.died == 0 || s.low < x.died then 0
    else if s.phase.Reclaim? && s.phase.base < x.died <= s.phase.at then 0
    else 1
  }

  predicate FreesOk(s: State) {
    forall w :: 0 <= w < |s.wrappers| ==> s.wrappers[w].frees == ExpectedFrees(s, s.wrappers[w])
  }

  /** Two wrappers of one name have disjoint lives and are never both unreleased. */
  predicate NamesOk(wrappers: seq<Wrapper>) {
    forall v, w {:trigger Disjoint(wrappers[v], wrappers[w])} :: 0 <= v < |wrappers| && 0 <= w < |wrappers| && v != w && wrappers[v].name == wrappers[w].name ==>
      && Disjoint(wrappers[v], wrappers[w])
      && (wrappers[v].frees != 0 || wrappers[w].frees != 0)
  }

  predicate Disjoint(x: Wrapper, y: Wrapper) {
    (x.died != 0 && x.died <= y.born) || (y.died != 0 && y.died <= x.born)
  }

  /** A wrapper whose deletion the primary tree reflects, but which is not released yet, has its
      name on the list that creation consults. */
  predicate PendingOk(s: State) {
    forall w :: 0 <= w < |s.wrappers| && s.wrappers[w].died != 0 && s.wrappers[w].frees == 0 ==>
      match s.phase
      case Swap(m) => s.wrappers[w].died <= m ==> s.wrappers[w].name in s.pending
      case _ => s.wrappers[w].died <= s.primaryVsn ==> s.wrappers[w].name in s.pending
  }

  predicate Inv(s: State) {
    && Shape(s)
    && WrappersOk(s.hist, s.wrappers)
    && UpdatesOk(s.hist, s.wrappers)
    && TreesOk(s)
    && LoadedOk(s)
    && PhaseOk(s)
    && ClientsOk(s)
    && BarriersOk(s)
    && FreesOk(s)
    && NamesOk(s.wrappers)
    && PendingOk(s)
  }

  // ----- steps

  predicate Reading(s: State, c: Id) {
    c in s.clients && s.clients[c].activity.Busy?
  }

  /** The only update the primary tree lacks is a barrier. */
  predicate OnlyBarrierMissing(s: State)
    requires Shape(s)
  {
    |s.hist| - s.primaryVsn == 1 && s.hist[s.primaryVsn].Barrier?
  }

  predicate ClientEnabled(s: State, c: Id, act: ClientStep)
    requires Inv(s)
  {
    match act
    case Join => c !in s.clients
    case Leave => c in s.clients && s.clients[c].activity.Quiet?
    case Checkpoint => c in s.clients && s.clients[c].activity.Quiet?
    case Begin => c in s.clients && s.clients[c].activity.Quiet?
    case End => Reading(s, c)
    case ReadTree => Reading(s, c)
    case TakeFromTree(t, n) => Reading(s, c) && t in s.clients[c].activity.trees && t < 2 && n in s.trees[t]
    case ReadDelta => Reading(s, c) && s.low < |s.hist|
    case TakeFromNode => Reading(s, c) && s.clients[c].activity.cursor != 0 && !NodeAt(s, c).Barrier?
    case Advance => Reading(s, c) && s.clients[c].activity.cursor != 0
    case CreateFilter(n) => Reading(s, c) && Find(s, n) == Missing && n !in s.pending
    case RemoveFilter(n, _) => Reading(s, c) && Take(s, n).Found?
  }

  predicate VacuumEnabled(s: State, vac: VacuumStep)
    requires Inv(s)
  {
    match vac
    case CatchUp => s.phase.Idle? && OnlyBarrierMissing(s)
    case Start => s.phase.Idle? && s.primaryVsn != |s.hist| && !OnlyBarrierMissing(s)
    case ScanClient(x) => s.phase.ScanMin? && x in s.phase.rem
    case ScanDone => s.phase.ScanMin? && s.phase.rem == {}
    case MergeNext => s.phase.MergeAlt? && s.phase.at < s.phase.m
    case MergeDone => s.phase.MergeAlt? && s.phase.at == s.phase.m
    case MarkPending => s.phase.Mark?
    case SwapTrees => s.phase.Swap?
    case AddBarrier => s.phase.Announce?
    case AwaitScan(x) => s.phase.Await? && x in s.phase.rem
    case AwaitAgain => s.phase.Await? && s.phase.rem == {} && s.phase.cur < s.phase.b
    case AwaitDone => s.phase.Await? && s.phase.rem == {} && s.phase.b <= s.phase.cur
    case MergeOldNext => s.phase.MergeOld? && s.phase.at < s.phase.m
    case MergeOldDone => s.phase.MergeOld? && s.phase.at == s.phase.m
    case CutList => s.phase.Cut?
    case FreeNext => s.phase.Reclaim? && s.phase.base < s.phase.at
    case FreeDone => s.phase.Reclaim? && s.phase.base == s.phase.at
    case ClearPending => s.phase.Unmark?
  }

  predicate Enabled(s: State, step: Step)
    requires Inv(s)
  {
    match step
    case Do(c, act) => ClientEnabled(s, c, act)
    case Vacuum(vac) => VacuumEnabled(s, vac)
  }

  function NodeAt(s: State, c: Id): Update
    requires Inv(s) && Reading(s, c) && s.clients[c].activity.cursor != 0
  {
    assert ClientOk(s, c);
    s.hist[s.clients[c].activity.cursor - 1]
  }

  function SetActivity(s: State, c: Id, a: Activity): State
    requires c in s.clients
  {
    s.(clients := s.clients[c := s.clients[c].(activity := a)])
  }

  function ApplyUpdate(t: map<Name, Id>, u: Update): map<Name, Id> {
    match u
    case Create(w, n) => t[n := w]
    case Delete(w, n) => t - {n}
    case Barrier => t
  }

  /** The tree that clients do not read takes the update at index `at`. */
  function MergeInto(s: State, at: nat): State
    requires Shape(s) && at < |s.hist|
  {
    var t := 1 - s.primary;
    s.(trees := s.trees[t := ApplyUpdate(s.trees[t], s.hist[at])])
  }

  function DeletedNames(hist: seq<Update>, low: nat, m: nat): set<Name>
    requires low <= m <= |hist|
  {
    set i | low <= i < m && hist[i].Delete? :: hist[i].name
  }

  function FreeNode(s: State, v: nat): seq<Wrapper>
    requires 0 < v <= |s.hist| && UpdatesOk(s.hist, s.wrappers)
  {
    assert UpdateOk(s.wrappers, s.hist[v - 1], v);
    match s.hist[v - 1]
    case Delete(w, _) => s.wrappers[w := s.wrappers[w].(frees := s.wrappers[w].frees + 1)]
    case _ => s.wrappers
  }

  function AddWrapper(s: State, n: Name): State {
    s.(hist := s.hist + [Create(|s.wrappers|, n)],
       wrappers := s.wrappers + [Wrapper(n, |s.hist| + 1, 0, false, 0)])
  }

  function MarkDead(s: State, w: Id, deleteFiles: bool): State
    requires w < |s.wrappers|
  {
    s.(hist := s.hist + [Delete(w, s.wrappers[w].name)],
       wrappers := s.wrappers[w := s.wrappers[w].(died := |s.hist| + 1, shouldDelete := deleteFiles)])
  }

  function ApplyClient(s: State, c: Id, act: ClientStep): State
    requires Inv(s) && ClientEnabled(s, c, act)
  {
    match act
    case Join => s.(clients := s.clients[c := Client(|s.hist|, Quiet)])
    case Leave => s.(clients := s.clients - {c})
    case Checkpoint => s.(clients := s.clients[c := s.clients[c].(vsn := |s.hist|)])
    case Begin => SetActivity(s, c, Busy({}, 0, {}))
    case End => SetActivity(s, c, Quiet)
    case ReadTree =>
      var a := s.clients[c].activity;
      SetActivity(s, c, a.(trees := a.trees + {s.primary}))
    case TakeFromTree(t, n) =>
      var a := s.clients[c].activity;
      SetActivity(s, c, a.(held := a.held + {s.trees[t][n]}))
    case ReadDelta => SetActivity(s, c, s.clients[c].activity.(cursor := |s.hist|))
    case TakeFromNode =>
      var a := s.clients[c].activity;
      SetActivity(s, c, a.(held := a.held + {NodeAt(s, c).filter}))
    case Advance =>
      var a := s.clients[c].activity;
      // the walk stops after the first version the primary lacks, and at the end of the list
      SetActivity(s, c, a.(cursor := if a.cursor == s.primaryVsn + 1 || a.cursor == s.low + 1 then 0 else a.cursor - 1))
    case CreateFilter(n) => AddWrapper(s, n)
    case RemoveFilter(n, deleteFiles) => MarkDead(s, Take(s, n).filter, deleteFiles)
  }

  function ApplyMark(s: State): State
    requires Shape(s) && PhaseOk(s) && s.phase.Mark?
  {
    s.(pending := DeletedNames(s.hist, s.low, s.phase.m), phase := Swap(s.phase.m))
  }

  function ApplySwap(s: State): State
    requires Shape(s) && s.phase.Swap?
  {
    s.(primary := 1 - s.primary, primaryVsn := s.phase.m, phase := Announce(s.phase.m))
  }

  function ApplyBarrier(s: State): State
    requires s.phase.Announce?
  {
    s.(hist := s.hist + [Barrier],
       phase := Await(s.phase.m, |s.hist| + 1, |s.hist| + 1, s.clients.Keys))
  }

  function ApplyCut(s: State): State
    requires s.phase.Cut?
  {
    s.(low := s.phase.m, phase := Reclaim(s.phase.m, s.low, s.phase.m))
  }

  function ApplyVacuum(s: State, vac: VacuumStep): State
    requires Inv(s) && VacuumEnabled(s, vac)
  {
    match vac
    case CatchUp => s.(primaryVsn := |s.hist|)
    case Start => s.(phase := ScanMin(|s.hist|, s.clients.Keys))
    case ScanClient(x) => s.(phase := ScanMin(ScanOne(s, x, s.phase.cur), s.phase.rem - {x}))
    case ScanDone => s.(phase := MergeAlt(s.phase.cur, s.low))
    case MergeNext => MergeInto(s, s.phase.at).(phase := MergeAlt(s.phase.m, s.phase.at + 1))
    case MergeDone => s.(phase := Mark(s.phase.m))
    case MarkPending => ApplyMark(s)
    case SwapTrees => ApplySwap(s)
    case AddBarrier => ApplyBarrier(s)
    case AwaitScan(x) =>
      s.(phase := Await(s.phase.m, s.phase.b, ScanOne(s, x, s.phase.cur), s.phase.rem - {x}))
    case AwaitAgain => s.(phase := Await(s.phase.m, s.phase.b, |s.hist|, s.clients.Keys))
    case AwaitDone => s.(phase := MergeOld(s.phase.m, s.low))
    case MergeOldNext => MergeInto(s, s.phase.at).(phase := MergeOld(s.phase.m, s.phase.at + 1))
    case MergeOldDone => s.(phase := Cut(s.phase.m))
    case CutList => ApplyCut(s)
    case FreeNext => s.(wrappers := FreeNode(s, s.phase.at), phase := Reclaim(s.phase.m, s.phase.base, s.phase.at - 1))
    case FreeDone => s.(phase := Unmark(s.phase.m))
    case ClearPending => s.(pending := {}, phase := Idle)
  }

  function Apply(s: State, step: Step): State
    requires Inv(s) && Enabled(s, step)
  {
    match step
    case Do(c, act) => ApplyClient(s, c, act)
    case Vacuum(vac) => ApplyVacuum(s, vac)
  }

  /** A client that left since the scan began no longer counts. */
  function ScanOne(s: State, x: Id, cur: nat): nat {
    if x in s.clients then MinOf(cur, s.clients[x].vsn) else cur
  }

  // ----- runs

  predicate Init(s: State) {
    && s.hist == []
    && s.low == s.primaryVsn == 0
    && |s.trees| == 2 && s.primary < 2
    && s.trees[0] == s.trees[1] == s.loaded
    && TreeAt(s.wrappers, s.trees[0], 0)
    && (forall w :: 0 <= w < |s.wrappers| ==> s.wrappers[w].born == s.wrappers[w].died == s.wrappers[w].frees == 0)
    && s.pending == {}
    && s.clients == map[]
    && s.phase == Idle
  }

  lemma InitKeepsInv(s: State)
    requires Init(s)
    ensures Inv(s)
  {
    forall v, w | 0 <= v < |s.wrappers| && 0 <= w < |s.wrappers| && v != w && s.wrappers[v].name == s.wrappers[w].name
      ensures false
    {
      assert LiveAt(s.wrappers[v], 0) && LiveAt(s.wrappers[w], 0);
    }
  }
}
