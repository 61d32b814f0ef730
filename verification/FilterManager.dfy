/**
 The filter manager as an object: its fields, the loops over its lists, and the critical sections
 of its operations, each tied to the step of the multi-version protocol that it takes.
 */
module FilterManager {
  import opened Basics
  import opened Mvcc
  import opened MvccInvariant
  import opened MvccLifecycle

  /** An entry of the delta list. */
  datatype Delta = Delta(vsn: nat, update: Update)

  /** A filter wrapper as the program stores it. */
  datatype Filter = Filter(name: Name, isActive: bool, shouldDelete: bool)

  datatype ClientEntry = ClientEntry(id: Id, vsn: nat)

  // ----- what the fields stand for

  /** The delta list: the updates above `low`, newest first. */
  function Listed(hist: seq<Update>, low: nat): (r: seq<Delta>)
    requires low <= |hist|
    ensures |r| == |hist| - low
    ensures forall i :: 0 <= i < |r| ==> r[i] == Delta(|hist| - i, hist[|hist| - i - 1])
  {
    seq(|hist| - low, i requires 0 <= i < |hist| - low => Delta(|hist| - i, hist[|hist| - i - 1]))
  }

  predicate FiltersMatch(filters: seq<Filter>, wrappers: seq<Wrapper>) {
    && |filters| == |wrappers|
    && forall w :: 0 <= w < |filters| ==>
         filters[w] == Filter(wrappers[w].name, wrappers[w].died == 0, wrappers[w].shouldDelete)
  }

  /** The client list holds every client once, with its version. */
  predicate ClientsMatch(list: seq<ClientEntry>, clients: map<Id, Client>) {
    && (forall i :: 0 <= i < |list| ==> list[i].id in clients && clients[list[i].id].vsn == list[i].vsn)
    && (forall i, j :: 0 <= i < j < |list| ==> list[i].id != list[j].id)
    && (forall c :: c in clients ==> exists i :: 0 <= i < |list| && list[i].id == c)
  }

  ghost predicate PendingMatch(list: seq<Name>, pending: set<Name>) {
    forall n :: n in list <==> n in pending
  }

  // ----- starting up

  function LoadedTree(names: seq<Name>): (t: map<Name, Id>)
    requires NoDup(names)
    ensures forall n :: n in t <==> n in names
    ensures forall i :: 0 <= i < |names| ==> t[names[i]] == i
  {
    map i: nat | i < |names| :: names[i] := i
  }

  function StartState(names: seq<Name>): State
    requires NoDup(names)
  {
    var t := LoadedTree(names);
    State([], 0, 0, t, [t, t], 0,
          seq(|names|, i requires 0 <= i < |names| => Wrapper(names[i], 0, 0, false, 0)), {}, map[], Idle)
  }

  /** The names that load, of those in `found`, each once. */
  ghost predicate ThoseThatLoad(names: seq<Name>, found: seq<Name>, loads: Name -> bool) {
    NoDup(names) && forall n :: n in names <==> n in found && loads(n)
  }

  lemma OneLoaded(names: seq<Name>, found: seq<Name>, loads: Name -> bool, n: Name)
    requires ThoseThatLoad(names, found, loads) && n !in found
    ensures ThoseThatLoad(if loads(n) then names + [n] else names, found + [n], loads)
    ensures loads(n) ==> LoadedTree(names + [n]) == LoadedTree(names)[n := |names|]
  {
    if loads(n) {
      NoDupConcat(names, [n]);
      TreeLoaded(names, n);
    }
  }

  lemma NextIsNew(found: seq<Name>, i: nat)
    requires NoDup(found) && i < |found|
    ensures found[i] !in found[..i] && found[..i + 1] == found[..i] + [found[i]]
  {
  }

  lemma TreeLoaded(names: seq<Name>, n: Name)
    requires NoDup(names) && n !in names && NoDup(names + [n])
    ensures LoadedTree(names + [n]) == LoadedTree(names)[n := |names|]
  {
    var t, t' := LoadedTree(names)[n := |names|], LoadedTree(names + [n]);
    forall m | m in t'
      ensures m in t && t'[m] == t[m]
    {
      var i :| 0 <= i < |names + [n]| && (names + [n])[i] == m;
    }
  }

  /** Loads the filters found on disk one by one; those that fail to load are passed over. */
  method LoadExisting(found: seq<Name>, loads: Name -> bool) returns (tree: map<Name, Id>, filters: seq<Filter>, ghost names: seq<Name>)
    requires NoDup(found)
    ensures forall n :: n in tree <==> n in found && loads(n)
    ensures forall n :: n in tree ==> tree[n] < |filters| && filters[tree[n]] == Filter(n, true, false)
    ensures ThoseThatLoad(names, found, loads) && tree == LoadedTree(names)
    ensures |filters| == |names| && forall i :: 0 <= i < |names| ==> filters[i] == Filter(names[i], true, false)
  {
    tree, filters, names := map[], [], [];
    var i := 0;
    while i < |found|
      invariant 0 <= i <= |found| && ThoseThatLoad(names, found[..i], loads) && tree == LoadedTree(names)
      invariant |filters| == |names| && forall j :: 0 <= j < |names| ==> filters[j] == Filter(names[j], true, false)
    {
      var n := found[i];
      NextIsNew(found, i);
      OneLoaded(names, found[..i], loads, n);
      if loads(n) {
        tree, filters, names := tree[n := |filters|], filters + [Filter(n, true, false)], names + [n];
      }
      i := i + 1;
    }
    assert found[..i] == found;
  }

  lemma StartIsInit(names: seq<Name>)
    requires NoDup(names)
    ensures Init(StartState(names)) && StartState(names).loaded.Keys == (set n | n in names)
  {
    var s := StartState(names);
    assert TreeAt(s.wrappers, s.trees[0], 0);
  }

  // ----- facts about the lists

  /** The first match on the way down is the newest update. */
  lemma NewestIs(hist: seq<Update>, upTo: nat, n: Name, v: nat)
    requires upTo < v <= |hist| && !hist[v - 1].Barrier? && hist[v - 1].name == n
    requires forall i :: v <= i < |hist| ==> hist[i].Barrier? || hist[i].name != n
    ensures NewestUpdate(hist, upTo, n) == v
  {
    var u := hist[v - 1];
  }

  lemma NoneNewer(hist: seq<Update>, upTo: nat, n: Name)
    requires upTo <= |hist| && forall i :: upTo <= i < |hist| ==> hist[i].Barrier? || hist[i].name != n
    ensures NewestUpdate(hist, upTo, n) == 0
  {
  }

  lemma ListedAfter(hist: seq<Update>, low: nat, u: Update)
    requires low <= |hist|
    ensures Listed(hist + [u], low) == [Delta(|hist| + 1, u)] + Listed(hist, low)
  {
  }

  /** The fields stand for the state. */
  ghost predicate Fields(s: State, delta: seq<Delta>, filters: seq<Filter>) {
    s.low <= |s.hist| && delta == Listed(s.hist, s.low) && FiltersMatch(filters, s.wrappers)
  }

  lemma FieldsAfterCreate(s: State, n: Name, delta: seq<Delta>, filters: seq<Filter>)
    requires Fields(s, delta, filters)
    ensures Fields(AddWrapper(s, n), [Delta(|s.hist| + 1, Create(|filters|, n))] + delta,
                   filters + [Filter(n, true, false)])
  {
    ListedAfter(s.hist, s.low, Create(|filters|, n));
  }

  lemma FieldsAfterRemove(s: State, w: Id, deleteFiles: bool, delta: seq<Delta>, filters: seq<Filter>)
    requires Fields(s, delta, filters) && w < |filters|
    ensures var f := filters[w];
            Fields(MarkDead(s, w, deleteFiles), [Delta(|s.hist| + 1, Delete(w, f.name))] + delta,
                   filters[w := Filter(f.name, false, deleteFiles)])
  {
    ListedAfter(s.hist, s.low, Delete(w, filters[w].name));
  }

  /** Creation and removal are steps of the protocol, so they keep its invariant. */
  lemma CreateStep(s: State, c: Id, n: Name)
    requires Inv(s) && ClientEnabled(s, c, CreateFilter(n))
    ensures ApplyClient(s, c, CreateFilter(n)) == AddWrapper(s, n) && Inv(AddWrapper(s, n))
  {
    StepKeepsInv(s, Do(c, CreateFilter(n)));
  }

  lemma RemoveStep(s: State, c: Id, n: Name, w: Id, deleteFiles: bool)
    requires Inv(s) && Reading(s, c) && Take(s, n) == Found(w)
    ensures ClientEnabled(s, c, RemoveFilter(n, deleteFiles)) && w < |s.wrappers|
    ensures ApplyClient(s, c, RemoveFilter(n, deleteFiles)) == MarkDead(s, w, deleteFiles) && Inv(MarkDead(s, w, deleteFiles))
  {
    StepKeepsInv(s, Do(c, RemoveFilter(n, deleteFiles)));
  }

  lemma TreeStep(s: State, keys: seq<Name>, i: nat, names: seq<Name>, whole: seq<Name>)
    requires Inv(s) && i < |keys| && forall n :: n in keys ==> n in s.trees[s.primary]
    requires names + ListTree(s, keys[i..]) == whole
    ensures keys[i] in keys
    ensures var more := if s.wrappers[s.trees[s.primary][keys[i]]].died == 0 then [keys[i]] else [];
            names + more + ListTree(s, keys[i + 1..]) == whole
  {
    assert keys[i..][1..] == keys[i + 1..];
  }

  /** Every update names a filter that exists. */
  predicate NamesFilters(delta: seq<Delta>, filters: seq<Filter>) {
    forall i :: 0 <= i < |delta| && delta[i].update.Create? ==> delta[i].update.filter < |filters|
  }

  /** The name of the filter that the update created, if it is active and has the prefix. */
  function Created(u: Update, filters: seq<Filter>, prefix: Name): seq<Name>
    requires u.Create? ==> u.filter < |filters|
  {
    if u.Create? && prefix <= filters[u.filter].name && filters[u.filter].isActive then [filters[u.filter].name] else []
  }

  /** The active filters created by the updates from entry `i` on down to what the tree has. */
  function CreatedFrom(delta: seq<Delta>, filters: seq<Filter>, prefix: Name, primaryVsn: nat, i: nat): seq<Name>
    requires i <= |delta| && NamesFilters(delta, filters)
    decreases |delta| - i
  {
    if i == |delta| then []
    else
      Created(delta[i].update, filters, prefix) +
      if delta[i].vsn == primaryVsn + 1 then [] else CreatedFrom(delta, filters, prefix, primaryVsn, i + 1)
  }

  lemma Regroup<T>(a: seq<T>, b: seq<T>, c: seq<T>)
    ensures a + (b + c) == (a + b) + c
  {
  }

  method ScanCreated(delta: seq<Delta>, filters: seq<Filter>, prefix: Name, primaryVsn: nat) returns (names: seq<Name>)
    requires NamesFilters(delta, filters)
    ensures names == CreatedFrom(delta, filters, prefix, primaryVsn, 0)
  {
    names := [];
    var i := 0;
    ghost var all := CreatedFrom(delta, filters, prefix, primaryVsn, 0);
    ghost var rest := all;
    while i < |delta|
      invariant 0 <= i <= |delta|
      invariant rest == CreatedFrom(delta, filters, prefix, primaryVsn, i)
      invariant names + rest == all
    {
      var more := Created(delta[i].update, filters, prefix);
      ghost var tail := if delta[i].vsn == primaryVsn + 1 then [] else CreatedFrom(delta, filters, prefix, primaryVsn, i + 1);
      Regroup(names, more, tail);
      names, rest := names + more, tail;
      if delta[i].vsn == primaryVsn + 1 {
        return;
      }
      i := i + 1;
    }
  }

  lemma FiltersNamed(s: State, delta: seq<Delta>, filters: seq<Filter>)
    requires UpdatesOk(s.hist, s.wrappers) && Fields(s, delta, filters)
    ensures NamesFilters(delta, filters)
  {
    forall j | 0 <= j < |delta| && delta[j].update.Create?
      ensures delta[j].update.filter < |filters|
    {
      assert UpdateOk(s.wrappers, s.hist[|s.hist| - j - 1], |s.hist| - j);
    }
  }

  /** An entry of the list is the update of its version and names a filter that exists. */
  lemma EntryNamed(s: State, delta: seq<Delta>, filters: seq<Filter>, i: nat)
    requires UpdatesOk(s.hist, s.wrappers) && Fields(s, delta, filters) && i < |delta|
    ensures i < |s.hist| && delta[i] == Delta(|s.hist| - i, s.hist[|s.hist| - i - 1])
    ensures var u := delta[i].update; !u.Barrier? ==> u.filter < |filters| && filters[u.filter].name == u.name
  {
    assert UpdateOk(s.wrappers, s.hist[|s.hist| - i - 1], |s.hist| - i);
  }

  lemma ListDeltaUnfolds(s: State, filters: seq<Filter>, prefix: Name, v: nat)
    requires Inv(s) && s.primaryVsn < v <= |s.hist| && FiltersMatch(filters, s.wrappers)
    ensures s.hist[v - 1].Create? ==> s.hist[v - 1].filter < |filters|
    ensures ListDelta(s, prefix, v) == Created(s.hist[v - 1], filters, prefix) + ListDelta(s, prefix, v - 1)
  {
    assert UpdateOk(s.wrappers, s.hist[v - 1], v);
  }

  lemma CreatedUnfolds(delta: seq<Delta>, filters: seq<Filter>, prefix: Name, primaryVsn: nat, i: nat, v: nat, u: Update)
    requires NamesFilters(delta, filters) && i < |delta| && delta[i] == Delta(v, u)
    ensures u.Create? ==> u.filter < |filters|
    ensures CreatedFrom(delta, filters, prefix, primaryVsn, i) ==
              Created(u, filters, prefix) +
              if v == primaryVsn + 1 then [] else CreatedFrom(delta, filters, prefix, primaryVsn, i + 1)
  {
  }

  lemma {:induction false} CreatedIsListed(s: State, delta: seq<Delta>, filters: seq<Filter>, prefix: Name, i: nat, v: nat)
    requires Inv(s) && FiltersMatch(filters, s.wrappers) && delta == Listed(s.hist, s.low) && NamesFilters(delta, filters)
    requires v == |s.hist| - i && s.primaryVsn < v <= |s.hist|
    ensures CreatedFrom(delta, filters, prefix, s.primaryVsn, i) == ListDelta(s, prefix, v)
    decreases v
  {
    CreatedUnfolds(delta, filters, prefix, s.primaryVsn, i, v, s.hist[v - 1]);
    ListDeltaUnfolds(s, filters, prefix, v);
    if v != s.primaryVsn + 1 {
      CreatedIsListed(s, delta, filters, prefix, i + 1, v - 1);
    }
  }

  // ----- clients

  lemma ClientUpdated(list: seq<ClientEntry>, clients: map<Id, Client>, i: nat, v: nat)
    requires ClientsMatch(list, clients) && i < |list|
    ensures var c := list[i].id;
            c in clients && ClientsMatch(list[i := ClientEntry(c, v)], clients[c := clients[c].(vsn := v)])
  {
    var c := list[i].id;
    var list', clients' := list[i := ClientEntry(c, v)], clients[c := clients[c].(vsn := v)];
    forall d | d in clients'
      ensures exists j :: 0 <= j < |list'| && list'[j].id == d
    {
      var j :| 0 <= j < |list| && list[j].id == d;
      assert list'[j].id == d;
    }
  }

  lemma ClientAdded(list: seq<ClientEntry>, clients: map<Id, Client>, c: Id, v: nat)
    requires ClientsMatch(list, clients) && c !in clients
    ensures ClientsMatch([ClientEntry(c, v)] + list, clients[c := Client(v, Quiet)])
  {
    var list', clients' := [ClientEntry(c, v)] + list, clients[c := Client(v, Quiet)];
    forall d | d in clients'
      ensures exists j :: 0 <= j < |list'| && list'[j].id == d
    {
      if d == c {
        assert list'[0].id == d;
      } else {
        var j :| 0 <= j < |list| && list[j].id == d;
        assert list'[j + 1].id == d;
      }
    }
  }

  lemma ClientRemoved(list: seq<ClientEntry>, clients: map<Id, Client>, i: nat)
    requires ClientsMatch(list, clients) && i < |list|
    ensures ClientsMatch(list[..i] + list[i + 1..], clients - {list[i].id})
  {
    var list', clients' := list[..i] + list[i + 1..], clients - {list[i].id};
    forall d | d in clients'
      ensures exists j :: 0 <= j < |list'| && list'[j].id == d
    {
      var j :| 0 <= j < |list| && list[j].id == d;
      assert list'[if j < i then j else j - 1].id == d;
    }
  }

  lemma ClientAbsent(list: seq<ClientEntry>, clients: map<Id, Client>, c: Id)
    requires ClientsMatch(list, clients) && forall j :: 0 <= j < |list| ==> list[j].id != c
    ensures c !in clients
  {
  }

  /** Steps that change only the client table. */
  lemma TableStep(s: State, c: Id, act: ClientStep)
    requires Inv(s) && ClientEnabled(s, c, act) && (act.Join? || act.Leave? || act.Checkpoint?)
    ensures var s' := ApplyClient(s, c, act); Inv(s') && s' == s.(clients := s'.clients)
  {
    StepKeepsInv(s, Do(c, act));
  }

  // ----- the vacuum

  /** The tree after the updates between two versions, oldest first. */
  function Applied(t: map<Name, Id>, hist: seq<Update>, lo: nat, hi: nat): map<Name, Id>
    requires lo <= hi <= |hist|
  {
    if lo == hi then t else ApplyUpdate(Applied(t, hist, lo, hi - 1), hist[hi - 1])
  }

  predicate Merging(s: State, m: nat) {
    (s.phase.MergeAlt? || s.phase.MergeOld?) && s.phase.m == m
  }

  function MergeStepOf(s: State): VacuumStep {
    if s.phase.MergeAlt? then MergeNext else MergeOldNext
  }

  function PhaseAt(p: Phase, k: nat): Phase
    requires p.MergeAlt? || p.MergeOld?
  {
    if p.MergeAlt? then MergeAlt(p.m, k) else MergeOld(p.m, k)
  }

  lemma {:induction false} AppliedShift(t: map<Name, Id>, hist: seq<Update>, lo: nat, hi: nat)
    requires lo < hi <= |hist|
    ensures Applied(t, hist, lo, hi) == Applied(ApplyUpdate(t, hist[lo]), hist, lo + 1, hi)
  {
    if lo + 1 < hi {
      AppliedShift(t, hist, lo, hi - 1);
    } else {
      assert Applied(t, hist, lo, lo) == t;
    }
  }

  /** Only the tree that clients do not read and the place in the merge differ. */
  ghost predicate MergedTo(s: State, s': State, k: nat) {
    && Shape(s) && (s.phase.MergeAlt? || s.phase.MergeOld?) && s.phase.at <= k <= |s.hist|
    && s' == s.(trees := s'.trees, phase := PhaseAt(s.phase, k))
    && s'.trees == s.trees[1 - s.primary := Applied(s.trees[1 - s.primary], s.hist, s.phase.at, k)]
  }

  lemma MergeOne(s: State, m: nat)
    requires Inv(s) && Merging(s, m) && s.phase.at < m
    ensures VacuumEnabled(s, MergeStepOf(s))
    ensures var s' := ApplyVacuum(s, MergeStepOf(s)); Inv(s') && MergedTo(s, s', s.phase.at + 1)
  {
    StepKeepsInv(s, Vacuum(MergeStepOf(s)));
    var at := s.phase.at;
    assert Applied(s.trees[1 - s.primary], s.hist, at, at) == s.trees[1 - s.primary];
  }

  lemma MergedOn(s: State, s1: State, s2: State, k: nat)
    requires Shape(s) && (s.phase.MergeAlt? || s.phase.MergeOld?) && s.phase.at < k
    requires MergedTo(s, s1, s.phase.at + 1) && MergedTo(s1, s2, k)
    ensures MergedTo(s, s2, k)
  {
    var alt := 1 - s.primary;
    var at := s.phase.at;
    AppliedShift(s.trees[alt], s.hist, at, k);
    assert Applied(s.trees[alt], s.hist, at, at) == s.trees[alt];
    assert s1.trees[alt] == ApplyUpdate(s.trees[alt], s.hist[at]);
    assert s2.trees == s.trees[alt := Applied(s.trees[alt], s.hist, s.phase.at, k)];
  }

  /** Merging up to any version is a run of the protocol. */
  lemma {:induction false} MergeRun(s: State, m: nat, k: nat) returns (s': State)
    requires Inv(s) && Merging(s, m) && s.phase.at <= k <= m
    ensures Inv(s') && MergedTo(s, s', k)
    decreases k - s.phase.at
  {
    if s.phase.at == k {
      s' := s;
      assert s.trees[1 - s.primary := s.trees[1 - s.primary]] == s.trees;
    } else {
      MergeOne(s, m);
      var s1 := ApplyVacuum(s, MergeStepOf(s));
      s' := MergeRun(s1, m, k);
      MergedOn(s, s1, s', k);
    }
  }

  lemma MergeBounds(s: State, m: nat)
    requires Inv(s) && Merging(s, m)
    ensures s.low <= s.phase.at <= m <= |s.hist|
  {
  }

  /** Applies the updates from list entry `i` down, oldest first, that are not newer than `m`. */
  method MergeList(delta: seq<Delta>, i: nat, m: nat, t: map<Name, Id>, ghost hist: seq<Update>, ghost low: nat)
    returns (r: map<Name, Id>)
    requires low <= m <= |hist| && delta == Listed(hist, low) && i < |delta|
    ensures r == Applied(t, hist, low, MinOf(m, |hist| - i))
    decreases |delta| - i
  {
    r := t;
    if i + 1 < |delta| {
      r := MergeList(delta, i + 1, m, t, hist, low);
    }
    if delta[i].vsn > m {
      return;
    }
    match delta[i].update
    case Create(w, n) => r := r[n := w];
    case Delete(_, n) => r := r - {n};
    case Barrier =>
  }

  /** The names of the deletions in the list that are not newer than `m`. */
  method CollectDeletes(delta: seq<Delta>, m: nat, ghost hist: seq<Update>, ghost low: nat) returns (names: seq<Name>)
    requires low <= m <= |hist| && delta == Listed(hist, low)
    ensures PendingMatch(names, DeletedNames(hist, low, m))
  {
    names := [];
    var i := 0;
    while i < |delta|
      invariant 0 <= i <= |delta|
      invariant forall n :: n in names <==> exists k :: |hist| - i <= k < m && hist[k].Delete? && hist[k].name == n
    {
      var u := delta[i].update;
      assert u == hist[|hist| - i - 1];
      if delta[i].vsn <= m && u.Delete? {
        names := [u.name] + names;
      }
      i := i + 1;
    }
  }

  /** The deletions among the entries from `i` on release their filters. */
  method ReleaseFrom(old': seq<Delta>, ghost hist: seq<Update>, ghost base: nat) returns (released: seq<Id>)
    requires base <= |hist| && old' == Listed(hist, base)
    ensures released == DeletedFilters(hist, base, |hist|)
  {
    released := [];
    var i := 0;
    ghost var all := DeletedFilters(hist, base, |hist|);
    ghost var v, rest := |hist|, all;
    while i < |old'|
      invariant 0 <= i <= |old'| && v == |hist| - i
      invariant rest == DeletedFilters(hist, base, v)
      invariant released + rest == all
    {
      var u := old'[i].update;
      var more := if u.Delete? then [u.filter] else [];
      v, rest := v - 1, DeletedFilters(hist, base, v - 1);
      Regroup(released, more, rest);
      released := released + more;
      i := i + 1;
    }
  }

  /** The filters whose deletions lie between two versions, newest first. */
  function DeletedFilters(hist: seq<Update>, lo: nat, hi: nat): seq<Id>
    requires lo <= hi <= |hist|
  {
    if lo == hi then []
    else (if hist[hi - 1].Delete? then [hist[hi - 1].filter] else []) + DeletedFilters(hist, lo, hi - 1)
  }

  /** Where the list is cut: after the entries newer than `m`. */
  method FindCut(delta: seq<Delta>, m: nat, ghost hist: seq<Update>, ghost low: nat) returns (i: nat)
    requires low <= m <= |hist| && delta == Listed(hist, low)
    ensures i == |hist| - m && delta[..i] == Listed(hist, m) && delta[i..] == Listed(hist[..m], low)
  {
    i := 0;
    while i < |delta| && delta[i].vsn > m
      invariant 0 <= i <= |hist| - m
    {
      i := i + 1;
    }
  }

  // ----- reclaiming

  predicate SameFilters(xs: seq<Wrapper>, ys: seq<Wrapper>) {
    |xs| == |ys| && forall w :: 0 <= w < |xs| ==>
      xs[w].name == ys[w].name && xs[w].died == ys[w].died && xs[w].shouldDelete == ys[w].shouldDelete
  }

  lemma {:induction false} DeletedAt(hist: seq<Update>, lo: nat, hi: nat, w: Id)
    requires lo <= hi <= |hist|
    ensures w in DeletedFilters(hist, lo, hi) <==> exists i :: lo <= i < hi && hist[i].Delete? && hist[i].filter == w
  {
    if lo != hi {
      var u, rest := hist[hi - 1], DeletedFilters(hist, lo, hi - 1);
      DeletedAt(hist, lo, hi - 1, w);
      InConcat(w, if u.Delete? then [u.filter] else [], rest);
    }
  }

  lemma DeletedHas(hist: seq<Update>, wrappers: seq<Wrapper>, lo: nat, hi: nat, w: Id)
    requires WrappersOk(hist, wrappers) && UpdatesOk(hist, wrappers) && lo <= hi <= |hist|
    ensures w in DeletedFilters(hist, lo, hi) <==> w < |wrappers| && lo < wrappers[w].died <= hi
  {
    DeletedAt(hist, lo, hi, w);
    if i :| lo <= i < hi && hist[i].Delete? && hist[i].filter == w {
      assert UpdateOk(wrappers, hist[i], i + 1);
    }
    if w < |wrappers| && lo < wrappers[w].died <= hi {
      assert WrapperOk(hist, wrappers[w], w);
      assert hist[wrappers[w].died - 1].Delete?;
    }
  }

  lemma {:induction false} DeletedOnce(hist: seq<Update>, wrappers: seq<Wrapper>, lo: nat, hi: nat)
    requires WrappersOk(hist, wrappers) && UpdatesOk(hist, wrappers) && lo <= hi <= |hist|
    ensures NoDup(DeletedFilters(hist, lo, hi))
  {
    if lo != hi {
      DeletedOnce(hist, wrappers, lo, hi - 1);
      if hist[hi - 1].Delete? {
        assert UpdateOk(wrappers, hist[hi - 1], hi);
        DeletedHas(hist, wrappers, lo, hi - 1, hist[hi - 1].filter);
        NoDupConcat([hist[hi - 1].filter], DeletedFilters(hist, lo, hi - 1));
      }
    }
  }

  /** The list names each filter whose deletion lies between the versions, once. */
  ghost predicate ReleasesExactly(released: seq<Id>, wrappers: seq<Wrapper>, lo: nat, hi: nat) {
    NoDup(released) && forall w: Id :: w in released <==> w < |wrappers| && lo < wrappers[w].died <= hi
  }

  lemma DeletedExact(hist: seq<Update>, wrappers: seq<Wrapper>, lo: nat, hi: nat)
    requires WrappersOk(hist, wrappers) && UpdatesOk(hist, wrappers) && lo <= hi <= |hist|
    ensures ReleasesExactly(DeletedFilters(hist, lo, hi), wrappers, lo, hi)
  {
    forall w: Id
      ensures w in DeletedFilters(hist, lo, hi) <==> w < |wrappers| && lo < wrappers[w].died <= hi
    {
      DeletedHas(hist, wrappers, lo, hi, w);
    }
    DeletedOnce(hist, wrappers, lo, hi);
  }

  lemma {:induction false} DeletedPrefix(hist: seq<Update>, older: seq<Update>, lo: nat, hi: nat)
    requires lo <= hi <= |older| && older <= hist
    ensures DeletedFilters(older, lo, hi) == DeletedFilters(hist, lo, hi)
  {
    if lo != hi {
      DeletedPrefix(hist, older, lo, hi - 1);
      assert older[hi - 1] == hist[hi - 1];
    }
  }

  lemma CutStep(s: State)
    requires Inv(s) && s.phase.Cut?
    ensures s.low <= s.phase.m <= |s.hist| && Inv(ApplyCut(s))
  {
    StepKeepsInv(s, Vacuum(CutList));
  }

  /** Releasing the nodes below `at` one by one down to `k`. */
  lemma {:induction false} ReclaimRun(s: State, k: nat) returns (s': State)
    requires Inv(s) && s.phase.Reclaim? && s.phase.base <= k <= s.phase.at
    ensures Inv(s') && s' == s.(wrappers := s'.wrappers, phase := Reclaim(s.phase.m, s.phase.base, k))
    ensures SameFilters(s.wrappers, s'.wrappers)
    decreases s.phase.at - k
  {
    if k == s.phase.at {
      return s;
    }
    var s1 := ApplyVacuum(s, FreeNext);
    StepKeepsInv(s, Vacuum(FreeNext));
    FreeKeepsLives(s);
    s' := ReclaimRun(s1, k);
  }

  lemma FreeKeepsLives(s: State)
    requires Inv(s) && VacuumEnabled(s, FreeNext)
    ensures SameFilters(s.wrappers, ApplyVacuum(s, FreeNext).wrappers)
  {
    assert UpdateOk(s.wrappers, s.hist[s.phase.at - 1], s.phase.at);
  }

  class Manager {
    var vsn: nat
    var primaryVsn: nat
    var trees: seq<map<Name, Id>>
    var filterMap: nat
    var delta: seq<Delta>
    var filters: seq<Filter>
    var clients: seq<ClientEntry>
    var pending: seq<Name>
    ghost var model: State

    ghost predicate Valid()
      reads this
    {
      && Inv(model)
      && vsn == |model.hist| && primaryVsn == model.primaryVsn
      && trees == model.trees && filterMap == model.primary
      && Fields(model, delta, filters)
      && ClientsMatch(clients, model.clients)
      && PendingMatch(pending, model.pending)
    }

    /** Every filter found on disk that loads goes into the tree, and the other tree starts as a copy of it. */
    constructor (found: seq<Name>, loads: Name -> bool)
      requires NoDup(found)
      ensures Valid() && Init(model) && model.loaded.Keys == (set n | n in found && loads(n))
    {
      var tree, loaded, names := LoadExisting(found, loads);
      ghost var s := StartState(names);
      StartIsInit(names);
      InitKeepsInv(s);
      vsn, primaryVsn := 0, 0;
      trees, filterMap := [tree, tree], 0;
      delta, filters, clients, pending := [], loaded, [], [];
      model := s;
    }

    // ----- lookups

    /** Searches the tree, then the delta list down to what the tree incorporates. */
    method FindFilter(n: Name) returns (r: Lookup)
      requires Valid()
      ensures r == Find(model, n)
    {
      if n in trees[filterMap] {
        return Found(trees[filterMap][n]);
      }
      if primaryVsn == vsn {
        NoneNewer(model.hist, primaryVsn, n);
        return Missing;
      }
      var i := 0;
      while i < |delta|
        invariant 0 <= i <= |delta| && i <= vsn - primaryVsn
        invariant i == vsn - primaryVsn ==> i == |delta|
        invariant forall j :: vsn - i <= j < vsn ==> model.hist[j].Barrier? || model.hist[j].name != n
      {
        var u := delta[i].update;
        EntryNamed(model, delta, filters, i);
        if !u.Barrier? {
          if filters[u.filter].name == n {
            NewestIs(model.hist, primaryVsn, n, vsn - i);
            return Found(u.filter);
          }
        }
        if delta[i].vsn == primaryVsn + 1 {
          NoneNewer(model.hist, primaryVsn, n);
          return Missing;
        }
        i := i + 1;
      }
      NoneNewer(model.hist, primaryVsn, n);
      return Missing;
    }

    /** As `FindFilter`, but only active filters. */
    method TakeFilter(n: Name) returns (r: Lookup)
      requires Valid()
      ensures r == Take(model, n)
    {
      r := FindFilter(n);
      if r.Found? && !filters[r.filter].isActive {
        r := Missing;
      }
    }

    // ----- updates

    /** Puts an update at the head of the delta list under a new version. */
    method CreateDelta(u: Update) returns (v: nat)
      modifies this`vsn, this`delta
      ensures v == vsn == old(vsn) + 1 && delta == [Delta(v, u)] + old(delta)
    {
      vsn := vsn + 1;
      delta := [Delta(vsn, u)] + delta;
      return vsn;
    }

    /** Scans the list of pending deletes. */
    method IsPending(n: Name) returns (r: bool)
      ensures r <==> n in pending
    {
      var i := 0;
      while i < |pending|
        invariant 0 <= i <= |pending|
        invariant forall j :: 0 <= j < i ==> pending[j] != n
      {
        if pending[i] == n {
          return true;
        }
        i := i + 1;
      }
      return false;
    }

    /** Creates a filter: 0 on success, -1 if it exists, -3 while an earlier one of the name still
        awaits its release, -2 if the filter itself cannot be set up. */
    method CreateFilter(c: Id, n: Name, initOk: bool) returns (res: int)
      requires Valid() && Reading(model, c)
      modifies this
      ensures Valid()
      ensures res == -1 <==> Take(old(model), n).Found?
      ensures res == -3 <==> !Take(old(model), n).Found? && !ClientEnabled(old(model), c, ClientStep.CreateFilter(n))
      ensures res == -2 <==> ClientEnabled(old(model), c, ClientStep.CreateFilter(n)) && !initOk
      ensures res == 0 <==> ClientEnabled(old(model), c, ClientStep.CreateFilter(n)) && initOk
      ensures model == if res == 0 then ApplyClient(old(model), c, ClientStep.CreateFilter(n)) else old(model)
    {
      var filt := FindFilter(n);
      if filt.Found? {
        return if filters[filt.filter].isActive then -1 else -3;
      }
      var awaited := IsPending(n);
      if awaited {
        return -3;
      }
      if !initOk {
        return -2;
      }
      CreateStep(model, c, n);
      FieldsAfterCreate(model, n, delta, filters);
      model := AddWrapper(model, n);
      AddFilter(n);
      return 0;
    }

    /** A new active filter under a new version. */
    method AddFilter(n: Name)
      modifies this`filters, this`vsn, this`delta
      ensures vsn == old(vsn) + 1 && filters == old(filters) + [Filter(n, true, false)]
      ensures delta == [Delta(vsn, Create(|old(filters)|, n))] + old(delta)
    {
      filters := filters + [Filter(n, true, false)];
      var v := CreateDelta(Create(|filters| - 1, n));
    }

    /** Marks the filter inactive and records its deletion. */
    method Retire(c: Id, n: Name, w: Id, deleteFiles: bool)
      requires Valid() && Reading(model, c) && Take(model, n) == Found(w)
      modifies this
      ensures Valid() && model == ApplyClient(old(model), c, RemoveFilter(n, deleteFiles))
    {
      RemoveStep(model, c, n, w, deleteFiles);
      FieldsAfterRemove(model, w, deleteFiles, delta, filters);
      model := MarkDead(model, w, deleteFiles);
      filters := filters[w := Filter(filters[w].name, false, deleteFiles)];
      var v := CreateDelta(Delete(w, filters[w].name));
    }

    /** Drops a filter and its files: -1 if there is no active filter of the name. */
    method DropFilter(c: Id, n: Name) returns (res: int)
      requires Valid() && Reading(model, c)
      modifies this
      ensures Valid()
      ensures res == if Take(old(model), n).Found? then 0 else -1
      ensures model == if res == 0 then ApplyClient(old(model), c, RemoveFilter(n, true)) else old(model)
    {
      var filt := TakeFilter(n);
      if filt.Missing? {
        return -1;
      }
      Retire(c, n, filt.filter, true);
      return 0;
    }

    /** Clears a proxied filter but leaves its files: -1 if there is no active filter of the name,
        -2 if it is not proxied. */
    method ClearFilter(c: Id, n: Name, proxied: Id -> bool) returns (res: int)
      requires Valid() && Reading(model, c)
      modifies this
      ensures Valid()
      ensures res == var f := Take(old(model), n); if f.Missing? then -1 else if !proxied(f.filter) then -2 else 0
      ensures model == if res == 0 then ApplyClient(old(model), c, RemoveFilter(n, false)) else old(model)
    {
      var filt := TakeFilter(n);
      if filt.Missing? {
        return -1;
      }
      if !proxied(filt.filter) {
        return -2;
      }
      Retire(c, n, filt.filter, false);
      return 0;
    }

    method ListFromTree(keys: seq<Name>) returns (names: seq<Name>)
      requires Valid() && forall n :: n in keys ==> n in trees[filterMap]
      ensures names == ListTree(model, keys)
    {
      names := [];
      var i := 0;
      assert keys[0..] == keys;
      while i < |keys|
        invariant 0 <= i <= |keys|
        invariant names + ListTree(model, keys[i..]) == ListTree(model, keys)
      {
        TreeStep(model, keys, i, names, ListTree(model, keys));
        if filters[trees[filterMap][keys[i]]].isActive {
          names := names + [keys[i]];
        }
        i := i + 1;
      }
      assert names + [] == names;
    }

    /** The filters created by updates that the tree lacks. */
    method ListFromDelta(prefix: Name) returns (names: seq<Name>)
      requires Valid() && primaryVsn != vsn
      ensures names == ListDelta(model, prefix, vsn)
    {
      FiltersNamed(model, delta, filters);
      CreatedIsListed(model, delta, filters, prefix, 0, vsn);
      names := ScanCreated(delta, filters, prefix, primaryVsn);
    }

    /** Lists the active filters: those that the walk of the tree visits, in that order, then those
        with the prefix created by updates that the tree lacks. */
    method ListFilters(keys: seq<Name>, prefix: Name) returns (names: seq<Name>)
      requires Valid() && forall n :: n in keys ==> n in trees[filterMap]
      ensures names == Listing(model, keys, prefix)
    {
      names := ListFromTree(keys);
      if primaryVsn != vsn {
        var more := ListFromDelta(prefix);
        names := names + more;
      }
    }

    // ----- clients

    method FindClient(c: Id) returns (i: nat)
      ensures i <= |clients| && (i < |clients| ==> clients[i].id == c)
      ensures forall j :: 0 <= j < i ==> clients[j].id != c
    {
      i := 0;
      while i < |clients| && clients[i].id != c
        invariant 0 <= i <= |clients|
        invariant forall j :: 0 <= j < i ==> clients[j].id != c
      {
        i := i + 1;
      }
    }

    /** A client reports the current version; on its first call it joins. */
    method Checkpoint(c: Id)
      requires Valid() && (c in model.clients ==> model.clients[c].activity.Quiet?)
      modifies this`clients, this`model
      ensures Valid()
      ensures model == ApplyClient(old(model), c, if c in old(model).clients then ClientStep.Checkpoint else Join)
      ensures model == old(model).(clients := old(model).clients[c := Client(vsn, Quiet)])
    {
      var i := FindClient(c);
      if i < |clients| {
        ClientUpdated(clients, model.clients, i, vsn);
        TableStep(model, c, ClientStep.Checkpoint);
        clients := clients[i := ClientEntry(c, vsn)];
        model := ApplyClient(model, c, ClientStep.Checkpoint);
      } else {
        ClientAbsent(clients, model.clients, c);
        ClientAdded(clients, model.clients, c, vsn);
        TableStep(model, c, Join);
        clients := [ClientEntry(c, vsn)] + clients;
        model := ApplyClient(model, c, Join);
      }
    }

    /** A client leaves; a thread that never joined may call this too. */
    method Leave(c: Id)
      requires Valid() && (c in model.clients ==> model.clients[c].activity.Quiet?)
      modifies this`clients, this`model
      ensures Valid()
      ensures model == if c in old(model).clients then ApplyClient(old(model), c, ClientStep.Leave) else old(model)
      ensures model == old(model).(clients := old(model).clients - {c})
    {
      var i := FindClient(c);
      if i < |clients| {
        ClientRemoved(clients, model.clients, i);
        TableStep(model, c, ClientStep.Leave);
        clients := clients[..i] + clients[i + 1..];
        model := ApplyClient(model, c, ClientStep.Leave);
      } else {
        ClientAbsent(clients, model.clients, c);
      }
    }

    /** The least version that a client reports, or the current one. */
    method ClientMinVsn() returns (m: nat)
      requires Valid()
      ensures m <= vsn && forall c :: c in model.clients ==> m <= model.clients[c].vsn
      ensures m == vsn || exists c :: c in model.clients && model.clients[c].vsn == m
    {
      m := vsn;
      var i := 0;
      while i < |clients|
        invariant 0 <= i <= |clients| && m <= vsn
        invariant forall j :: 0 <= j < i ==> m <= clients[j].vsn
        invariant m == vsn || exists c :: c in model.clients && model.clients[c].vsn == m
      {
        if clients[i].vsn < m {
          m := clients[i].vsn;
          assert clients[i].id in model.clients;
        }
        i := i + 1;
      }
      forall c | c in model.clients
        ensures m <= model.clients[c].vsn
      {
        var j :| 0 <= j < |clients| && clients[j].id == c;
        assert m <= clients[j].vsn;
      }
    }

    // ----- the vacuum

    /** Brings the tree that clients do not read up to version `m`. */
    method MergeOldVersions(m: nat)
      requires Valid() && delta != [] && Merging(model, m) && model.phase.at == model.low
      modifies this`trees, this`model
      ensures Valid() && MergedTo(old(model), model, m)
    {
      MergeBounds(model, m);
      ghost var s' := MergeRun(model, m, m);
      var t := MergeList(delta, 0, m, trees[1 - filterMap], model.hist, model.low);
      trees := trees[1 - filterMap := t];
      assert trees == s'.trees;
      model := s';
    }

    /** Lists the deletions that the next primary tree will reflect. */
    method MarkPendingDeletes(m: nat)
      requires Valid() && model.phase == Mark(m)
      modifies this`pending, this`model
      ensures Valid() && model == ApplyVacuum(old(model), MarkPending)
    {
      StepKeepsInv(model, Vacuum(MarkPending));
      pending := CollectDeletes(delta, m, model.hist, model.low);
      model := ApplyMark(model);
    }

    method ClearPendingDeletes()
      requires Valid() && model.phase.Unmark?
      modifies this`pending, this`model
      ensures Valid() && model == ApplyVacuum(old(model), ClearPending) && pending == [] && model.pending == {}
    {
      StepKeepsInv(model, Vacuum(ClearPending));
      pending := [];
      model := ApplyVacuum(model, ClearPending);
    }

    method SwapFilterMaps(m: nat)
      requires Valid() && model.phase == Swap(m)
      modifies this`filterMap, this`primaryVsn, this`model
      ensures Valid() && model == ApplyVacuum(old(model), SwapTrees)
    {
      StepKeepsInv(model, Vacuum(SwapTrees));
      filterMap := 1 - filterMap;
      primaryVsn := m;
      model := ApplySwap(model);
    }

    /** The version that every client has to reach before the old tree is touched. */
    method AnnounceBarrier() returns (v: nat)
      requires Valid() && model.phase.Announce?
      modifies this`vsn, this`delta, this`model
      ensures Valid() && model == ApplyVacuum(old(model), AddBarrier) && v == vsn
    {
      StepKeepsInv(model, Vacuum(AddBarrier));
      ListedAfter(model.hist, model.low, Barrier);
      v := CreateDelta(Barrier);
      model := ApplyBarrier(model);
    }

    /** If only a barrier is missing from the primary tree, it counts as merged. */
    method CatchUpBarrier() returns (done: bool)
      requires Valid() && model.phase.Idle?
      modifies this`primaryVsn, this`model
      ensures Valid() && done == VacuumEnabled(old(model), CatchUp)
      ensures model == if done then ApplyVacuum(old(model), CatchUp) else old(model)
    {
      done := vsn - primaryVsn == 1 && delta[0].update.Barrier?;
      if done {
        StepKeepsInv(model, Vacuum(CatchUp));
        model := ApplyVacuum(model, CatchUp);
        primaryVsn := vsn;
      }
    }

    /** Cuts what both trees have off the delta list and releases the filters deleted there. */
    method DeleteOldVersions(m: nat) returns (released: seq<Id>)
      requires Valid() && model.phase == Cut(m)
      modifies this`delta, this`model
      ensures Valid() && model.low == m && model.phase == Reclaim(m, old(model).low, old(model).low)
      ensures model.hist == old(model).hist && SameFilters(old(model).wrappers, model.wrappers)
      ensures ReleasesExactly(released, old(model).wrappers, old(model).low, m)
    {
      CutStep(model);
      DeletedExact(model.hist, model.wrappers, model.low, m);
      DeletedPrefix(model.hist, model.hist[..m], model.low, m);
      ghost var base := model.low;
      var i := FindCut(delta, m, model.hist, base);
      released := ReleaseFrom(delta[i..], model.hist[..m], base);
      delta := delta[..i];
      model := ReclaimRun(ApplyCut(model), base);
    }
  }
}
