/** Every step of the protocol keeps its invariant. */
module MvccInvariant {
  import opened Mvcc

  // ----- steps that change nothing but the client table

  predicate OnlyClients(act: ClientStep) {
    !act.CreateFilter? && !act.RemoveFilter?
  }

  lemma NewClientTable(s: State, clients: map<Id, Client>)
    requires Inv(s) && ClientsOk(s.(clients := clients))
    requires forall c :: c in clients ==>
               if c in s.clients then s.clients[c].vsn <= clients[c].vsn else clients[c].vsn == |s.hist|
    ensures Inv(s.(clients := clients))
  {
    NewTableKeepsBarriers(s, clients);
  }

  lemma NewTableKeepsBarriers(s: State, clients: map<Id, Client>)
    requires BarriersOk(s)
    requires forall c :: c in clients ==>
               if c in s.clients then s.clients[c].vsn <= clients[c].vsn else clients[c].vsn == |s.hist|
    ensures BarriersOk(s.(clients := clients))
  {
  }

  lemma OtherClients(s: State, c: Id, clients: map<Id, Client>)
    requires ClientsOk(s)
    requires clients.Keys <= s.clients.Keys + {c}
    requires forall d :: d in clients && d != c ==> clients[d] == s.clients[d]
    requires c in clients ==> ClientOk(s.(clients := clients), c)
    ensures ClientsOk(s.(clients := clients))
  {
    var s' := s.(clients := clients);
    forall d | d in clients && d != c
      ensures ClientOk(s', d)
    {
      assert ClientOk(s, d);
    }
  }

  lemma TakeFromTreeOk(s: State, cl: Client, t: nat, n: Name)
    requires Shape(s) && TreesOk(s) && PhaseOk(s) && ActivityOk(s, cl)
    requires cl.activity.Busy? && t in cl.activity.trees && t < 2 && n in s.trees[t]
    ensures ActivityOk(s, cl.(activity := cl.activity.(held := cl.activity.held + {s.trees[t][n]})))
  {
  }

  lemma TakeFromNodeOk(s: State, cl: Client)
    requires Shape(s) && WrappersOk(s.hist, s.wrappers) && UpdatesOk(s.hist, s.wrappers) && ActivityOk(s, cl)
    requires cl.activity.Busy? && cl.activity.cursor != 0 && !s.hist[cl.activity.cursor - 1].Barrier?
    ensures ActivityOk(s, cl.(activity :=
                         cl.activity.(held := cl.activity.held + {s.hist[cl.activity.cursor - 1].filter})))
  {
    var u := s.hist[cl.activity.cursor - 1];
    assert UpdateOk(s.wrappers, u, cl.activity.cursor);
    assert WrapperOk(s.hist, s.wrappers[u.filter], u.filter);
  }

  /** Walking the list never goes below what the client may still reach. */
  lemma WalkOk(s: State, cl: Client, v: nat)
    requires Shape(s) && PhaseOk(s) && ActivityOk(s, cl) && cl.activity.Busy?
    requires
      || v == 0
      || (v == |s.hist| && s.low < v)
      || (v + 1 == cl.activity.cursor && v != s.primaryVsn && v != s.low)
    ensures ActivityOk(s, cl.(activity := cl.activity.(cursor := v)))
  {
  }

  /** The table entry of a client after its own step. */
  lemma OwnStepKeepsClient(s: State, c: Id, act: ClientStep)
    requires Inv(s) && ClientEnabled(s, c, act) && OnlyClients(act) && c in s.clients && !act.Leave?
    ensures c in ApplyClient(s, c, act).clients
    ensures ActivityOk(s, ApplyClient(s, c, act).clients[c])
    ensures s.clients[c].vsn <= ApplyClient(s, c, act).clients[c].vsn <= |s.hist|
  {
    assert ClientOk(s, c);
    var cl := s.clients[c];
    var cl' := ApplyClient(s, c, act).clients[c];
    match act
    case TakeFromTree(t, n) => TakeFromTreeOk(s, cl, t, n);
    case TakeFromNode => TakeFromNodeOk(s, cl);
    case ReadDelta => WalkOk(s, cl, cl'.activity.cursor);
    case Advance => WalkOk(s, cl, cl'.activity.cursor);
    case _ =>
  }

  lemma OwnEntryOk(s: State, c: Id, clients: map<Id, Client>)
    requires c in clients && Shape(s) && PhaseOk(s)
    requires ActivityOk(s, clients[c])
    requires clients[c].vsn <= |s.hist|
    requires if c in s.clients then ClientOk(s, c) && s.clients[c].vsn <= clients[c].vsn else clients[c].vsn == |s.hist|
    ensures ClientOk(s.(clients := clients), c)
  {
  }

  lemma ClientTableStepKeepsInv(s: State, c: Id, act: ClientStep)
    requires Inv(s) && ClientEnabled(s, c, act) && OnlyClients(act)
    ensures Inv(ApplyClient(s, c, act))
  {
    var s' := ApplyClient(s, c, act);
    if c in s.clients && !act.Leave? {
      OwnStepKeepsClient(s, c, act);
      assert ClientOk(s, c);
    }
    if c in s'.clients {
      OwnEntryOk(s, c, s'.clients);
    }
    assert s' == s.(clients := s'.clients);
    OtherClients(s, c, s'.clients);
    NewClientTable(s, s'.clients);
  }

  // ----- creating and removing filters

  /** When creation is allowed, every earlier wrapper of the name has been released. */
  lemma OldWrappersReleased(s: State, n: Name, w: Id)
    requires Inv(s) && Find(s, n) == Missing && n !in s.pending
    requires w < |s.wrappers| && s.wrappers[w].name == n
    ensures s.wrappers[w].frees == 1
    ensures s.wrappers[w].died != 0 && s.wrappers[w].died <= s.low
  {
    var x := s.wrappers[w];
    assert WrapperOk(s.hist, x, w);
    if x.died == 0 || s.primaryVsn < x.died {
      assert x.born <= s.primaryVsn ==> LiveAt(x, s.primaryVsn);
      assert false;
    }
  }

  /** Clients do not notice a longer history, as long as wrappers are only added or given a
      deletion newer than everything so far. */
  lemma UpdateKeepsClients(s: State, hist: seq<Update>, wrappers: seq<Wrapper>)
    requires Shape(s) && PhaseOk(s) && ClientsOk(s)
    requires s.hist <= hist && |s.wrappers| <= |wrappers|
    requires forall w :: 0 <= w < |s.wrappers| ==>
               wrappers[w].died == s.wrappers[w].died || |s.hist| < wrappers[w].died
    ensures ClientsOk(s.(hist := hist, wrappers := wrappers))
  {
    var s' := s.(hist := hist, wrappers := wrappers);
    forall c | c in s'.clients
      ensures ClientOk(s', c)
    {
      assert ClientOk(s, c);
    }
  }

  lemma UpdateKeepsBarriers(s: State, u: Update, wrappers: seq<Wrapper>)
    requires BarriersOk(s) && !u.Barrier?
    ensures BarriersOk(s.(hist := s.hist + [u], wrappers := wrappers))
  {
    forall c | c in s.clients
      ensures BarriersPassed(s.hist + [u], Awaited(s.phase), s.clients[c].vsn)
    {
      assert BarriersPassed(s.hist, Awaited(s.phase), s.clients[c].vsn);
    }
  }

  /** A tree shows version `k`, whatever happens to wrappers at later versions. */
  lemma TreeIgnoresLater(wrappers: seq<Wrapper>, wrappers': seq<Wrapper>, t: map<Name, Id>, k: nat)
    requires TreeAt(wrappers, t, k) && |wrappers| <= |wrappers'|
    requires forall w :: 0 <= w < |wrappers| ==>
               && wrappers'[w].name == wrappers[w].name
               && (LiveAt(wrappers'[w], k) <==> LiveAt(wrappers[w], k))
    requires forall w :: |wrappers| <= w < |wrappers'| ==> !LiveAt(wrappers'[w], k)
    ensures TreeAt(wrappers', t, k)
  {
  }

  lemma CreateKeepsWrappers(s: State, n: Name)
    requires WrappersOk(s.hist, s.wrappers) && UpdatesOk(s.hist, s.wrappers)
    ensures var s' := AddWrapper(s, n); WrappersOk(s'.hist, s'.wrappers) && UpdatesOk(s'.hist, s'.wrappers)
  {
    var s' := AddWrapper(s, n);
    forall w | 0 <= w < |s'.wrappers| ensures WrapperOk(s'.hist, s'.wrappers[w], w) {
      if w < |s.wrappers| { assert WrapperOk(s.hist, s.wrappers[w], w); }
    }
    forall i | 0 <= i < |s'.hist| ensures UpdateOk(s'.wrappers, s'.hist[i], i + 1) {
      if i < |s.hist| { assert UpdateOk(s.wrappers, s.hist[i], i + 1); }
    }
  }

  lemma CreateKeepsTrees(s: State, n: Name)
    requires Shape(s) && PhaseOk(s) && TreesOk(s)
    ensures TreesOk(AddWrapper(s, n))
  {
    var s' := AddWrapper(s, n);
    TreeIgnoresLater(s.wrappers, s'.wrappers, s.trees[s.primary], s.primaryVsn);
    TreeIgnoresLater(s.wrappers, s'.wrappers, s.trees[1 - s.primary], AltVsn(s));
  }

  lemma CreateKeepsNames(s: State, n: Name)
    requires Shape(s) && NamesOk(s.wrappers) && FreesOk(s) && PendingOk(s)
    requires forall w :: 0 <= w < |s.wrappers| && s.wrappers[w].name == n ==>
               s.wrappers[w].frees == 1 && s.wrappers[w].died != 0 && s.wrappers[w].died <= s.low
    ensures NamesOk(AddWrapper(s, n).wrappers) && FreesOk(AddWrapper(s, n)) && PendingOk(AddWrapper(s, n))
  {
  }

  lemma CreateKeepsPhase(s: State, n: Name)
    requires Shape(s) && PhaseOk(s)
    ensures Shape(AddWrapper(s, n)) && PhaseOk(AddWrapper(s, n))
  {
  }

  lemma CreateKeepsInv(s: State, c: Id, n: Name)
    requires Inv(s) && ClientEnabled(s, c, CreateFilter(n))
    ensures Inv(ApplyClient(s, c, CreateFilter(n)))
  {
    var s' := AddWrapper(s, n);
    CreateKeepsWrappers(s, n);
    CreateKeepsTrees(s, n);
    TreeIgnoresLater(s.wrappers, s'.wrappers, s.loaded, 0);
    CreateKeepsPhase(s, n);
    UpdateKeepsClients(s, s'.hist, s'.wrappers);
    UpdateKeepsBarriers(s, Create(|s.wrappers|, n), s'.wrappers);
    forall w | 0 <= w < |s.wrappers| && s.wrappers[w].name == n
      ensures s.wrappers[w].frees == 1 && s.wrappers[w].died != 0 && s.wrappers[w].died <= s.low
    {
      OldWrappersReleased(s, n, w);
    }
    CreateKeepsNames(s, n);
  }

  lemma RemoveKeepsWrappers(s: State, w: Id, deleteFiles: bool)
    requires WrappersOk(s.hist, s.wrappers) && UpdatesOk(s.hist, s.wrappers)
    requires w < |s.wrappers| && s.wrappers[w].died == 0
    ensures var s' := MarkDead(s, w, deleteFiles); WrappersOk(s'.hist, s'.wrappers) && UpdatesOk(s'.hist, s'.wrappers)
  {
    var s' := MarkDead(s, w, deleteFiles);
    forall v | 0 <= v < |s'.wrappers| ensures WrapperOk(s'.hist, s'.wrappers[v], v) {
      assert WrapperOk(s.hist, s.wrappers[v], v);
    }
    forall i | 0 <= i < |s'.hist| ensures UpdateOk(s'.wrappers, s'.hist[i], i + 1) {
      if i < |s.hist| { assert UpdateOk(s.wrappers, s.hist[i], i + 1); }
    }
  }

  lemma RemoveKeepsTrees(s: State, w: Id, deleteFiles: bool)
    requires Shape(s) && PhaseOk(s) && TreesOk(s)
    requires w < |s.wrappers| && s.wrappers[w].died == 0
    ensures TreesOk(MarkDead(s, w, deleteFiles))
  {
    var s' := MarkDead(s, w, deleteFiles);
    TreeIgnoresLater(s.wrappers, s'.wrappers, s.trees[s.primary], s.primaryVsn);
    TreeIgnoresLater(s.wrappers, s'.wrappers, s.trees[1 - s.primary], AltVsn(s));
  }

  lemma RemoveKeepsNames(s: State, w: Id, deleteFiles: bool)
    requires Shape(s) && PhaseOk(s) && NamesOk(s.wrappers) && FreesOk(s) && PendingOk(s)
    requires w < |s.wrappers| && s.wrappers[w].died == 0
    ensures var s' := MarkDead(s, w, deleteFiles); Shape(s') && PhaseOk(s') && NamesOk(s'.wrappers) && FreesOk(s') && PendingOk(s')
  {
    forall u, v | 0 <= u < |s.wrappers| && 0 <= v < |s.wrappers| && u != v && s.wrappers[u].name == s.wrappers[v].name
      ensures Disjoint(s.wrappers[u], s.wrappers[v]) && (s.wrappers[u].frees != 0 || s.wrappers[v].frees != 0)
    {
    }
  }

  lemma RemoveKeepsInv(s: State, c: Id, n: Name, deleteFiles: bool)
    requires Inv(s) && ClientEnabled(s, c, RemoveFilter(n, deleteFiles))
    ensures Inv(ApplyClient(s, c, RemoveFilter(n, deleteFiles)))
  {
    var w := Take(s, n).filter;
    var s' := MarkDead(s, w, deleteFiles);
    RemoveKeepsWrappers(s, w, deleteFiles);
    RemoveKeepsTrees(s, w, deleteFiles);
    TreeIgnoresLater(s.wrappers, s'.wrappers, s.loaded, 0);
    RemoveKeepsNames(s, w, deleteFiles);
    UpdateKeepsClients(s, s'.hist, s'.wrappers);
    UpdateKeepsBarriers(s, Delete(w, s.wrappers[w].name), s'.wrappers);
  }

  // ----- vacuum steps

  lemma MergeStep(wrappers: seq<Wrapper>, hist: seq<Update>, t: map<Name, Id>, k: nat)
    requires WrappersOk(hist, wrappers) && UpdatesOk(hist, wrappers) && NamesOk(wrappers)
    requires k < |hist| && TreeAt(wrappers, t, k)
    ensures TreeAt(wrappers, ApplyUpdate(t, hist[k]), k + 1)
  {
    assert UpdateOk(wrappers, hist[k], k + 1);
    if !hist[k].Barrier? {
      assert WrapperOk(hist, wrappers[hist[k].filter], hist[k].filter);
      assert hist[k].Delete? ==> LiveAt(wrappers[hist[k].filter], k);
    }
    var t' := ApplyUpdate(t, hist[k]);
    forall n | n in t'
      ensures t'[n] < |wrappers| && wrappers[t'[n]].name == n && LiveAt(wrappers[t'[n]], k + 1)
    {
      assert WrapperOk(hist, wrappers[t'[n]], t'[n]);
    }
    forall w | 0 <= w < |wrappers| && LiveAt(wrappers[w], k + 1)
      ensures wrappers[w].name in t' && t'[wrappers[w].name] == w
    {
      assert WrapperOk(hist, wrappers[w], w);
      if wrappers[w].born <= k {
        assert LiveAt(wrappers[w], k);
        if hist[k].Create? {
          assert hist[k].name == wrappers[w].name ==> Disjoint(wrappers[w], wrappers[hist[k].filter]);
        }
      }
    }
  }

  lemma NamesApart(wrappers: seq<Wrapper>, v: Id, w: Id)
    requires NamesOk(wrappers) && v < |wrappers| && w < |wrappers| && wrappers[v].name == wrappers[w].name
    ensures v == w || (Disjoint(wrappers[v], wrappers[w]) && (wrappers[v].frees != 0 || wrappers[w].frees != 0))
  {
  }

  /** Barriers change no tree. */
  lemma BarriersChangeNothing(wrappers: seq<Wrapper>, hist: seq<Update>, t: map<Name, Id>, j: nat, k: nat)
    requires WrappersOk(hist, wrappers) && j <= k <= |hist|
    requires forall i :: j <= i < k ==> hist[i].Barrier?
    ensures TreeAt(wrappers, t, j) <==> TreeAt(wrappers, t, k)
  {
    forall w | 0 <= w < |wrappers|
      ensures LiveAt(wrappers[w], j) <==> LiveAt(wrappers[w], k)
    {
      assert WrapperOk(hist, wrappers[w], w);
    }
  }

  /** Steps that only move the vacuum from one phase to the next. */
  predicate OnlyPhase(vac: VacuumStep) {
    || vac.Start? || vac.ScanClient? || vac.ScanDone? || vac.MergeDone?
    || vac.AwaitScan? || vac.AwaitAgain? || vac.AwaitDone? || vac.MergeOldDone? || vac.FreeDone?
  }

  lemma PhaseStepKeepsClient(s: State, vac: VacuumStep, c: Id)
    requires Inv(s) && VacuumEnabled(s, vac) && OnlyPhase(vac) && c in s.clients
    ensures ClientOk(ApplyVacuum(s, vac), c)
  {
    assert ClientOk(s, c);
  }

  lemma ScanKeepsBounds(s: State, x: Id, cur: nat)
    requires ClientsOk(s) && Required(s) <= cur <= |s.hist|
    ensures Required(s) <= ScanOne(s, x, cur) <= cur
  {
    if x in s.clients { assert ClientOk(s, x); }
  }

  lemma PhaseStepKeepsPhase(s: State, vac: VacuumStep)
    requires Inv(s) && VacuumEnabled(s, vac) && OnlyPhase(vac)
    ensures PhaseOk(ApplyVacuum(s, vac)) && AltVsn(ApplyVacuum(s, vac)) == AltVsn(s)
  {
    if vac.ScanClient? {
      ScanKeepsBounds(s, vac.x, s.phase.cur);
    }
    NewPhaseOk(s, vac, ApplyVacuum(s, vac).phase);
  }

  lemma NewPhaseOk(s: State, vac: VacuumStep, p: Phase)
    requires Shape(s) && PhaseOk(s)
    requires
      match s.phase
      case Idle => p.ScanMin? && p.cur == |s.hist|
      case ScanMin(cur, _) => (p.ScanMin? && s.primaryVsn <= p.cur <= cur) || p == MergeAlt(cur, s.low)
      case MergeAlt(m, at) => at == m && p == Mark(m)
      case Await(m, b, cur, _) => (p.Await? && p.m == m && p.b == b && p.cur <= |s.hist|) || p == MergeOld(m, s.low)
      case MergeOld(m, at) => at == m && p == Cut(m)
      case Reclaim(m, _, _) => p == Unmark(m)
      case _ => false
    ensures PhaseOk(s.(phase := p)) && AltVsn(s.(phase := p)) == AltVsn(s)
  {
  }

  lemma NewPhaseKeepsBarriers(s: State, p: Phase)
    requires BarriersOk(s)
    requires
      || Awaited(p) == Awaited(s.phase)
      || forall c :: c in s.clients ==> Awaited(s.phase) <= s.clients[c].vsn
    ensures BarriersOk(s.(phase := p))
  {
    forall c | c in s.clients
      ensures BarriersPassed(s.hist, Awaited(p), s.clients[c].vsn)
    {
      assert BarriersPassed(s.hist, Awaited(s.phase), s.clients[c].vsn);
    }
  }

  lemma NewPhase(s: State, p: Phase)
    requires Inv(s)
    requires var s' := s.(phase := p); PhaseOk(s') && AltVsn(s') == AltVsn(s) && ClientsOk(s') && BarriersOk(s')
    requires s.phase.Swap? == p.Swap?
    requires s.phase.Reclaim? ==> s.phase.base == s.phase.at
    requires !p.Reclaim?
    ensures Inv(s.(phase := p))
  {
  }

  lemma PhaseStepKeepsInv(s: State, vac: VacuumStep)
    requires Inv(s) && VacuumEnabled(s, vac) && OnlyPhase(vac)
    ensures Inv(ApplyVacuum(s, vac))
  {
    var s' := ApplyVacuum(s, vac);
    PhaseStepKeepsPhase(s, vac);
    forall c | c in s.clients ensures ClientOk(s', c) { PhaseStepKeepsClient(s, vac, c); }
    if vac.AwaitDone? {
      forall c | c in s.clients ensures Awaited(s.phase) <= s.clients[c].vsn { assert ClientOk(s, c); }
    }
    NewPhaseKeepsBarriers(s, s'.phase);
    NewPhase(s, s'.phase);
  }

  lemma CatchUpKeepsClients(s: State)
    requires Shape(s) && PhaseOk(s) && ClientsOk(s) && BarriersOk(s) && s.phase.Idle? && OnlyBarrierMissing(s)
    ensures ClientsOk(s.(primaryVsn := |s.hist|))
  {
    var s' := s.(primaryVsn := |s.hist|);
    forall c | c in s.clients
      ensures ClientOk(s', c)
    {
      assert ClientOk(s, c);
      assert BarriersPassed(s.hist, 0, s.clients[c].vsn);
    }
  }

  lemma CatchUpKeepsPhase(s: State)
    requires Shape(s) && PhaseOk(s) && s.phase.Idle? && OnlyBarrierMissing(s)
    requires WrappersOk(s.hist, s.wrappers) && PendingOk(s)
    ensures var s' := s.(primaryVsn := |s.hist|); Shape(s') && PhaseOk(s') && PendingOk(s')
  {
    forall w | 0 <= w < |s.wrappers| ensures WrapperOk(s.hist, s.wrappers[w], w) {
    }
  }

  lemma CatchUpKeepsInv(s: State)
    requires Inv(s) && VacuumEnabled(s, CatchUp)
    ensures Inv(ApplyVacuum(s, CatchUp))
  {
    BarriersChangeNothing(s.wrappers, s.hist, s.trees[s.primary], s.primaryVsn, |s.hist|);
    CatchUpKeepsClients(s);
    CatchUpKeepsPhase(s);
  }

  // ----- merging, swapping and freeing

  lemma MergeKeepsClients(s: State, vac: VacuumStep, c: Id)
    requires Inv(s) && VacuumEnabled(s, vac) && (vac.MergeNext? || vac.MergeOldNext?) && c in s.clients
    ensures ClientOk(ApplyVacuum(s, vac), c)
  {
    assert ClientOk(s, c);
  }

  lemma MergeKeepsPhase(s: State, p: Phase)
    requires Shape(s) && PhaseOk(s)
    requires
      || (s.phase.MergeAlt? && s.phase.at < s.phase.m && p == MergeAlt(s.phase.m, s.phase.at + 1))
      || (s.phase.MergeOld? && s.phase.at < s.phase.m && p == MergeOld(s.phase.m, s.phase.at + 1))
    ensures s.phase.at < |s.hist| && AltVsn(s) == s.phase.at
    ensures var s' := MergeInto(s, s.phase.at).(phase := p); Shape(s') && PhaseOk(s') && AltVsn(s') == s.phase.at + 1
    ensures var s' := MergeInto(s, s.phase.at).(phase := p);
            && s'.trees[s'.primary] == s.trees[s.primary]
            && s'.trees[1 - s'.primary] == ApplyUpdate(s.trees[1 - s.primary], s.hist[s.phase.at])
  {
  }

  /** What has been released and what is pending does not depend on the trees. */
  lemma ReleasesUnchanged(s: State, s': State)
    requires FreesOk(s) && PendingOk(s)
    requires s' == s.(trees := s'.trees, primary := s'.primary, primaryVsn := s'.primaryVsn, phase := s'.phase)
    requires !s.phase.Reclaim? && !s'.phase.Reclaim?
    requires (if s'.phase.Swap? then s'.phase.m else s'.primaryVsn) == (if s.phase.Swap? then s.phase.m else s.primaryVsn)
    ensures FreesOk(s') && PendingOk(s')
  {
  }

  lemma MergeKeepsInv(s: State, vac: VacuumStep)
    requires Inv(s) && VacuumEnabled(s, vac) && (vac.MergeNext? || vac.MergeOldNext?)
    ensures Inv(ApplyVacuum(s, vac))
  {
    var s' := ApplyVacuum(s, vac);
    MergeKeepsPhase(s, s'.phase);
    MergeStep(s.wrappers, s.hist, s.trees[1 - s.primary], s.phase.at);
    forall c | c in s.clients ensures ClientOk(s', c) { MergeKeepsClients(s, vac, c); }
    NewPhaseKeepsBarriers(s, s'.phase);
    ReleasesUnchanged(s, s');
  }

  lemma MarkKeepsPending(s: State)
    requires Shape(s) && PhaseOk(s) && s.phase.Mark?
    requires WrappersOk(s.hist, s.wrappers) && FreesOk(s)
    ensures PendingOk(ApplyMark(s)) && FreesOk(ApplyMark(s)) && PhaseOk(ApplyMark(s))
  {
    var s' := ApplyMark(s);
    forall w | 0 <= w < |s.wrappers| && s.wrappers[w].died != 0 && s.wrappers[w].frees == 0 && s.wrappers[w].died <= s.phase.m
      ensures s.wrappers[w].name in s'.pending
    {
      assert WrapperOk(s.hist, s.wrappers[w], w);
      assert s.hist[s.wrappers[w].died - 1].name == s.wrappers[w].name;
    }
  }

  lemma MarkKeepsInv(s: State)
    requires Inv(s) && VacuumEnabled(s, MarkPending)
    ensures Inv(ApplyVacuum(s, MarkPending))
  {
    var s' := ApplyVacuum(s, MarkPending);
    MarkKeepsPending(s);
    forall c | c in s.clients ensures ClientOk(s', c) { assert ClientOk(s, c); }
    NewPhaseKeepsBarriers(s, s'.phase);
  }

  lemma SwapKeepsTrees(s: State)
    requires Shape(s) && PhaseOk(s) && TreesOk(s) && WrappersOk(s.hist, s.wrappers) && s.phase.Swap?
    ensures Shape(ApplySwap(s)) && PhaseOk(ApplySwap(s)) && TreesOk(ApplySwap(s))
  {
    BarriersChangeNothing(s.wrappers, s.hist, s.trees[s.primary], s.low, s.primaryVsn);
  }

  lemma SwapKeepsClients(s: State)
    requires Shape(s) && PhaseOk(s) && ClientsOk(s) && s.phase.Swap?
    ensures ClientsOk(ApplySwap(s))
  {
    var s' := ApplySwap(s);
    forall c | c in s.clients ensures ClientOk(s', c) { assert ClientOk(s, c); }
  }

  lemma SwapKeepsInv(s: State)
    requires Inv(s) && VacuumEnabled(s, SwapTrees)
    ensures Inv(ApplyVacuum(s, SwapTrees))
  {
    SwapKeepsTrees(s);
    SwapKeepsClients(s);
    NewPhaseKeepsBarriers(s, ApplySwap(s).phase);
    ReleasesUnchanged(s, ApplySwap(s));
  }

  lemma AddBarrierKeepsClients(s: State)
    requires Shape(s) && PhaseOk(s) && ClientsOk(s) && BarriersOk(s) && s.phase.Announce?
    ensures ClientsOk(ApplyBarrier(s)) && BarriersOk(ApplyBarrier(s))
  {
    var s' := ApplyBarrier(s);
    forall c | c in s.clients
      ensures ClientOk(s', c) && BarriersPassed(s'.hist, Awaited(s'.phase), s'.clients[c].vsn)
    {
      assert ClientOk(s, c);
      assert BarriersPassed(s.hist, 0, s.clients[c].vsn);
    }
  }

  lemma BarrierKeepsWrappers(hist: seq<Update>, wrappers: seq<Wrapper>)
    requires WrappersOk(hist, wrappers) && UpdatesOk(hist, wrappers)
    ensures WrappersOk(hist + [Barrier], wrappers) && UpdatesOk(hist + [Barrier], wrappers)
  {
    forall w | 0 <= w < |wrappers| ensures WrapperOk(hist + [Barrier], wrappers[w], w) {
      assert WrapperOk(hist, wrappers[w], w);
    }
  }

  lemma AddBarrierKeepsInv(s: State)
    requires Inv(s) && VacuumEnabled(s, AddBarrier)
    ensures Inv(ApplyVacuum(s, AddBarrier))
  {
    var s' := ApplyBarrier(s);
    AddBarrierKeepsClients(s);
    BarrierKeepsWrappers(s.hist, s.wrappers);
    ReleasesUnchanged(s, s.(phase := s'.phase));
    assert FreesOk(s') && PendingOk(s');
  }

  // ----- freeing

  lemma CutKeepsClients(s: State)
    requires Shape(s) && PhaseOk(s) && ClientsOk(s) && s.phase.Cut?
    ensures ClientsOk(ApplyCut(s))
  {
    var s' := ApplyCut(s);
    forall c | c in s.clients ensures ClientOk(s', c) { assert ClientOk(s, c); }
  }

  lemma CutKeepsReleases(s: State)
    requires Shape(s) && PhaseOk(s) && FreesOk(s) && PendingOk(s) && s.phase.Cut?
    ensures FreesOk(ApplyCut(s)) && PendingOk(ApplyCut(s)) && Shape(ApplyCut(s)) && PhaseOk(ApplyCut(s))
  {
  }

  lemma CutKeepsInv(s: State)
    requires Inv(s) && VacuumEnabled(s, CutList)
    ensures Inv(ApplyVacuum(s, CutList))
  {
    CutKeepsClients(s);
    CutKeepsReleases(s);
    NewPhaseKeepsBarriers(s, ApplyCut(s).phase);
  }

  /** The node of version `v` is released, and with a deletion the filter it removed. */
  lemma FreeKeepsWrappers(s: State, v: nat)
    requires 0 < v <= |s.hist| && WrappersOk(s.hist, s.wrappers) && UpdatesOk(s.hist, s.wrappers)
    ensures var ws := FreeNode(s, v);
            && |ws| == |s.wrappers|
            && (forall w :: 0 <= w < |ws| ==>
                  ws[w] == s.wrappers[w].(frees := s.wrappers[w].frees + if s.wrappers[w].died == v then 1 else 0))
  {
    var ws := FreeNode(s, v);
    assert UpdateOk(s.wrappers, s.hist[v - 1], v);
    forall w | 0 <= w < |ws|
      ensures ws[w] == s.wrappers[w].(frees := s.wrappers[w].frees + if s.wrappers[w].died == v then 1 else 0)
    {
      assert WrapperOk(s.hist, s.wrappers[w], w);
    }
  }

  /** Releasing wrappers leaves their names and lives as they are. */
  predicate SameLives(xs: seq<Wrapper>, ys: seq<Wrapper>) {
    |xs| == |ys| && forall w :: 0 <= w < |xs| ==>
      xs[w].name == ys[w].name && xs[w].born == ys[w].born && xs[w].died == ys[w].died && xs[w].frees <= ys[w].frees
  }

  lemma SameLivesKeepWrappers(hist: seq<Update>, xs: seq<Wrapper>, ys: seq<Wrapper>)
    requires WrappersOk(hist, xs) && UpdatesOk(hist, xs) && NamesOk(xs) && SameLives(xs, ys)
    ensures WrappersOk(hist, ys) && UpdatesOk(hist, ys) && NamesOk(ys)
  {
    forall w | 0 <= w < |ys| ensures WrapperOk(hist, ys[w], w) {
      assert WrapperOk(hist, xs[w], w);
    }
    forall i | 0 <= i < |hist| ensures UpdateOk(ys, hist[i], i + 1) {
      assert UpdateOk(xs, hist[i], i + 1);
    }
    forall v, w | 0 <= v < |ys| && 0 <= w < |ys| && v != w && ys[v].name == ys[w].name
      ensures Disjoint(ys[v], ys[w]) && (ys[v].frees != 0 || ys[w].frees != 0)
    {
      assert Disjoint(xs[v], xs[w]);
    }
  }

  lemma FreeKeepsClients(s: State, wrappers: seq<Wrapper>, p: Phase)
    requires Shape(s) && PhaseOk(s) && ClientsOk(s) && s.phase.Reclaim? && p.Reclaim? && SameLives(s.wrappers, wrappers)
    ensures ClientsOk(s.(wrappers := wrappers, phase := p))
  {
    var s' := s.(wrappers := wrappers, phase := p);
    forall c | c in s.clients ensures ClientOk(s', c) { assert ClientOk(s, c); }
  }

  lemma FreeKeepsReleases(s: State, wrappers: seq<Wrapper>)
    requires Shape(s) && PhaseOk(s) && FreesOk(s) && PendingOk(s) && s.phase.Reclaim? && s.phase.base < s.phase.at
    requires |wrappers| == |s.wrappers|
    requires forall w :: 0 <= w < |wrappers| ==>
               wrappers[w] == s.wrappers[w].(frees := s.wrappers[w].frees + if s.wrappers[w].died == s.phase.at then 1 else 0)
    ensures var s' := s.(wrappers := wrappers, phase := Reclaim(s.phase.m, s.phase.base, s.phase.at - 1));
            FreesOk(s') && PendingOk(s') && PhaseOk(s')
  {
  }

  lemma FreeKeepsTrees(s: State, wrappers: seq<Wrapper>, p: Phase)
    requires Shape(s) && TreesOk(s) && s.phase.Reclaim? && p.Reclaim? && SameLives(s.wrappers, wrappers)
    ensures TreesOk(s.(wrappers := wrappers, phase := p))
  {
    TreeIgnoresLater(s.wrappers, wrappers, s.trees[s.primary], s.primaryVsn);
    TreeIgnoresLater(s.wrappers, wrappers, s.trees[1 - s.primary], AltVsn(s));
  }

  lemma FreeKeepsInv(s: State)
    requires Inv(s) && VacuumEnabled(s, FreeNext)
    ensures Inv(ApplyVacuum(s, FreeNext))
  {
    var s' := ApplyVacuum(s, FreeNext);
    FreeKeepsWrappers(s, s.phase.at);
    SameLivesKeepWrappers(s.hist, s.wrappers, s'.wrappers);
    FreeKeepsTrees(s, s'.wrappers, s'.phase);
    TreeIgnoresLater(s.wrappers, s'.wrappers, s.loaded, 0);
    FreeKeepsClients(s, s'.wrappers, s'.phase);
    FreeKeepsReleases(s, s'.wrappers);
    NewPhaseKeepsBarriers(s, s'.phase);
  }

  lemma ClearKeepsPending(s: State)
    requires Shape(s) && PhaseOk(s) && FreesOk(s) && s.phase.Unmark?
    ensures var s' := s.(pending := {}, phase := Idle); FreesOk(s') && PendingOk(s') && PhaseOk(s')
  {
  }

  lemma ClearKeepsInv(s: State)
    requires Inv(s) && VacuumEnabled(s, ClearPending)
    ensures Inv(ApplyVacuum(s, ClearPending))
  {
    var s' := ApplyVacuum(s, ClearPending);
    ClearKeepsPending(s);
    forall c | c in s.clients ensures ClientOk(s', c) { assert ClientOk(s, c); }
    NewPhaseKeepsBarriers(s, s'.phase);
  }

  // ----- every step

  lemma VacuumStepKeepsInv(s: State, vac: VacuumStep)
    requires Inv(s) && VacuumEnabled(s, vac)
    ensures Inv(ApplyVacuum(s, vac))
  {
    match vac
    case CatchUp => CatchUpKeepsInv(s);
    case MergeNext => MergeKeepsInv(s, vac);
    case MergeOldNext => MergeKeepsInv(s, vac);
    case MarkPending => MarkKeepsInv(s);
    case SwapTrees => SwapKeepsInv(s);
    case AddBarrier => AddBarrierKeepsInv(s);
    case CutList => CutKeepsInv(s);
    case FreeNext => FreeKeepsInv(s);
    case ClearPending => ClearKeepsInv(s);
    case _ => PhaseStepKeepsInv(s, vac);
  }

  lemma StepKeepsInv(s: State, step: Step)
    requires Inv(s) && Enabled(s, step)
    ensures Inv(Apply(s, step))
  {
    match step
    case Vacuum(vac) => VacuumStepKeepsInv(s, vac);
    case Do(c, act) =>
      match act
      case CreateFilter(n) => CreateKeepsInv(s, c, n);
      case RemoveFilter(n, deleteFiles) => RemoveKeepsInv(s, c, n, deleteFiles);
      case _ => ClientTableStepKeepsInv(s, c, act);
  }
}
