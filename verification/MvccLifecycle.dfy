/** Names, listings and the release of filters in every run. */
module MvccLifecycle {
  import opened Mvcc
  import opened MvccInvariant
  import opened MvccTheorems
  import opened MvccConvergence

  predicate NoDup<T(==)>(xs: seq<T>) {
    forall i, j :: 0 <= i < j < |xs| ==> xs[i] != xs[j]
  }

  lemma NoDupConcat<T>(xs: seq<T>, ys: seq<T>)
    requires NoDup(xs) && NoDup(ys) && forall x :: x in xs ==> x !in ys
    ensures NoDup(xs + ys)
  {
    var zs := xs + ys;
    forall i, j | 0 <= i < j < |zs|
      ensures zs[i] != zs[j]
    {
      if i < |xs| <= j {
        assert zs[i] in xs && zs[j] in ys;
      }
    }
  }

  lemma InConcat<T>(x: T, xs: seq<T>, ys: seq<T>)
    ensures x in xs + ys <==> x in xs || x in ys
  {
  }

  // ----- listing

  /** The active filters of the tree, in the order in which the tree is walked. */
  function ListTree(s: State, keys: seq<Name>): (r: seq<Name>)
    requires Inv(s)
    requires forall n :: n in keys ==> n in s.trees[s.primary]
    ensures forall n :: n in r <==> n in keys && s.wrappers[s.trees[s.primary][n]].died == 0
  {
    if keys == [] then []
    else
      var rest := ListTree(s, keys[1..]);
      if s.wrappers[s.trees[s.primary][keys[0]]].died == 0 then [keys[0]] + rest else rest
  }

  /** The active filters with the prefix that the updates from version `v` down to the first the tree
      lacks have created. */
  function ListDelta(s: State, prefix: Name, v: nat): (r: seq<Name>)
    requires Inv(s) && s.primaryVsn <= v <= |s.hist|
  {
    if v == s.primaryVsn then []
    else
      assert UpdateOk(s.wrappers, s.hist[v - 1], v);
      var u := s.hist[v - 1];
      (if u.Create? && prefix <= u.name && s.wrappers[u.filter].died == 0 then [u.name] else []) + ListDelta(s, prefix, v - 1)
  }

  /** `keys` is what the walk of the tree visits; without a prefix, `prefix` is empty. */
  function Listing(s: State, keys: seq<Name>, prefix: Name): seq<Name>
    requires Inv(s)
    requires forall n :: n in keys ==> n in s.trees[s.primary]
  {
    ListTree(s, keys) + ListDelta(s, prefix, |s.hist|)
  }

  /** Name `n` belongs to an active filter created after version `k` and not after `v`. */
  predicate ActiveSince(s: State, n: Name, k: nat, v: nat) {
    exists w :: 0 <= w < |s.wrappers| && s.wrappers[w].name == n && s.wrappers[w].died == 0 && k < s.wrappers[w].born <= v
  }

  lemma {:induction false} ListTreeNoDup(s: State, keys: seq<Name>)
    requires Inv(s) && NoDup(keys)
    requires forall n :: n in keys ==> n in s.trees[s.primary]
    ensures NoDup(ListTree(s, keys))
  {
    if keys != [] {
      assert NoDup(keys[1..]);
      ListTreeNoDup(s, keys[1..]);
      assert keys[0] !in keys[1..];
    }
  }

  lemma {:induction false} ListDeltaExact(s: State, prefix: Name, v: nat)
    requires Inv(s) && s.primaryVsn <= v <= |s.hist|
    ensures NoDup(ListDelta(s, prefix, v))
    ensures forall n :: n in ListDelta(s, prefix, v) <==> prefix <= n && ActiveSince(s, n, s.primaryVsn, v)
  {
    if v == s.primaryVsn {
    } else {
      ListDeltaExact(s, prefix, v - 1);
      var u := s.hist[v - 1];
      assert UpdateOk(s.wrappers, u, v);
      forall n
        ensures n in ListDelta(s, prefix, v) <==> prefix <= n && ActiveSince(s, n, s.primaryVsn, v)
      {
        if ActiveSince(s, n, s.primaryVsn, v) {
          var w :| 0 <= w < |s.wrappers| && s.wrappers[w].name == n && s.wrappers[w].died == 0 && s.primaryVsn < s.wrappers[w].born <= v;
          assert WrapperOk(s.hist, s.wrappers[w], w);
        }
      }
      if u.Create? && s.wrappers[u.filter].died == 0 {
        if ActiveSince(s, u.name, s.primaryVsn, v - 1) {
          OneActive(s, u.name, v);
        }
      }
    }
  }

  /** No second active filter of that name was created earlier. */
  lemma OneActive(s: State, n: Name, v: nat)
    requires Shape(s) && PhaseOk(s) && NamesOk(s.wrappers) && FreesOk(s) && UpdatesOk(s.hist, s.wrappers)
    requires 0 < v <= |s.hist| && s.hist[v - 1].Create? && s.hist[v - 1].name == n
    requires UpdateOk(s.wrappers, s.hist[v - 1], v) && s.wrappers[s.hist[v - 1].filter].died == 0
    ensures !ActiveSince(s, n, s.primaryVsn, v - 1)
  {
    if ActiveSince(s, n, s.primaryVsn, v - 1) {
      var w :| 0 <= w < |s.wrappers| && s.wrappers[w].name == n && s.wrappers[w].died == 0 && s.primaryVsn < s.wrappers[w].born < v;
      BothVisible(s, w, s.hist[v - 1].filter);
      assert false;
    }
  }

  /** The walk of the tree visits names of the tree, none twice, and all that have the prefix. */
  ghost predicate Walked(s: State, keys: seq<Name>, prefix: Name) {
    && Shape(s) && NoDup(keys) && (forall n :: n in keys ==> n in s.trees[s.primary])
    && forall n :: n in s.trees[s.primary] && prefix <= n ==> n in keys
  }

  /** Each name once: those that are live and either have the prefix or were visited all the same. */
  ghost predicate ListsExactly(names: seq<Name>, now: map<Name, Id>, keys: seq<Name>, prefix: Name) {
    NoDup(names) && forall n :: n in names <==> n in now && (prefix <= n || n in keys)
  }

  lemma ListingIsExact(s: State, keys: seq<Name>, prefix: Name)
    requires Inv(s) && Walked(s, keys, prefix)
    ensures ListsExactly(Listing(s, keys, prefix), Replay(s.loaded, s.hist), keys, prefix)
  {
    ListTreeNoDup(s, keys);
    ListDeltaExact(s, prefix, |s.hist|);
    forall n | n in ListTree(s, keys)
      ensures n !in ListDelta(s, prefix, |s.hist|)
    {
      TreeNamesNotCreatedSince(s, n);
    }
    NoDupConcat(ListTree(s, keys), ListDelta(s, prefix, |s.hist|));
    forall n
      ensures n in Listing(s, keys, prefix) <==> n in Replay(s.loaded, s.hist) && (prefix <= n || n in keys)
    {
      InvKeepsLookups(s, n);
      ListedIffActive(s, keys, prefix, n);
    }
  }

  lemma TreeNamesNotCreatedSince(s: State, n: Name)
    requires Shape(s) && PhaseOk(s) && NamesOk(s.wrappers) && FreesOk(s) && TreesOk(s)
    requires n in s.trees[s.primary]
    ensures !ActiveSince(s, n, s.primaryVsn, |s.hist|)
  {
    if ActiveSince(s, n, s.primaryVsn, |s.hist|) {
      var w :| 0 <= w < |s.wrappers| && s.wrappers[w].name == n && s.wrappers[w].died == 0 && s.primaryVsn < s.wrappers[w].born;
      BothVisible(s, w, s.trees[s.primary][n]);
      assert false;
    }
  }

  lemma ListedIffActive(s: State, keys: seq<Name>, prefix: Name, n: Name)
    requires Inv(s) && Walked(s, keys, prefix)
    requires forall n :: n in ListDelta(s, prefix, |s.hist|) <==> prefix <= n && ActiveSince(s, n, s.primaryVsn, |s.hist|)
    ensures n in Listing(s, keys, prefix) <==> Take(s, n).Found? && (prefix <= n || n in keys)
  {
    InConcat(n, ListTree(s, keys), ListDelta(s, prefix, |s.hist|));
    if Take(s, n).Found? {
      var w := Take(s, n).filter;
      assert WrapperOk(s.hist, s.wrappers[w], w);
      if s.wrappers[w].born <= s.primaryVsn {
        assert LiveAt(s.wrappers[w], s.primaryVsn);
      } else {
        assert ActiveSince(s, n, s.primaryVsn, |s.hist|);
      }
    }
    if ActiveSince(s, n, s.primaryVsn, |s.hist|) {
      var w :| 0 <= w < |s.wrappers| && s.wrappers[w].name == n && s.wrappers[w].died == 0;
      FindFindsVisible(s, n, w);
    }
  }

  /** In every run, a listing gives each live name with the prefix once; it gives no other live name
      exactly if the walk of the tree visits none. */
  lemma ListingInRuns(s0: State, steps: seq<Step>, keys: seq<Name>, prefix: Name)
    requires IsRun(s0, steps) && Walked(After(s0, steps), keys, prefix)
    ensures var s := After(s0, steps); var names, now := Listing(s, keys, prefix), Replay(s0.trees[0], s.hist);
            && ListsExactly(names, now, keys, prefix)
            && ((forall n :: n in names ==> prefix <= n) <==> forall n :: n in keys && n in now ==> prefix <= n)
  {
    StartsFromLoaded(s0, steps);
    ListingIsExact(After(s0, steps), keys, prefix);
  }

  // ----- release

  /** Every name has at most one wrapper that is not released, and no wrapper is released twice. */
  predicate ReleasedOnce(wrappers: seq<Wrapper>) {
    && (forall w :: 0 <= w < |wrappers| ==> wrappers[w].frees <= 1)
    && (forall v, w | 0 <= v < |wrappers| && 0 <= w < |wrappers| ::
          wrappers[v].name == wrappers[w].name && wrappers[v].frees == 0 && wrappers[w].frees == 0 ==> v == w)
  }

  lemma OneWrapperPerName(s0: State, steps: seq<Step>)
    requires IsRun(s0, steps)
    ensures ReleasedOnce(After(s0, steps).wrappers)
  {
    InvReleasedOnce(After(s0, steps));
  }

  lemma InvReleasedOnce(s: State)
    requires FreesOk(s) && NamesOk(s.wrappers)
    ensures ReleasedOnce(s.wrappers)
  {
    var ws := s.wrappers;
    forall v, w | 0 <= v < |ws| && 0 <= w < |ws| && ws[v].name == ws[w].name && ws[v].frees == 0 && ws[w].frees == 0
      ensures v == w
    {
      NamesApart(ws, v, w);
    }
  }

  /** Every wrapper of the name was deleted by an update that the primary tree has. */
  predicate Buried(wrappers: seq<Wrapper>, primaryVsn: nat, n: Name) {
    forall w :: 0 <= w < |wrappers| && wrappers[w].name == n ==> wrappers[w].died != 0 && wrappers[w].died <= primaryVsn
  }

  /** A lookup finds nothing exactly if every wrapper of the name is buried. */
  lemma MissingIffBuried(s: State, n: Name)
    requires Inv(s)
    ensures Find(s, n) == Missing <==> Buried(s.wrappers, s.primaryVsn, n)
  {
    if Find(s, n) == Missing {
      forall w | 0 <= w < |s.wrappers| && s.wrappers[w].name == n
        ensures s.wrappers[w].died != 0 && s.wrappers[w].died <= s.primaryVsn
      {
        if s.wrappers[w].died == 0 || s.primaryVsn < s.wrappers[w].died {
          FindFindsVisible(s, n, w);
        }
      }
    }
    if Find(s, n).Found? {
      FoundNotBuried(s, n);
    }
  }

  lemma FoundNotBuried(s: State, n: Name)
    requires Inv(s) && Find(s, n).Found?
    ensures !Buried(s.wrappers, s.primaryVsn, n)
  {
    var w := Find(s, n).filter;
    assert WrapperOk(s.hist, s.wrappers[w], w);
    if n in s.trees[s.primary] {
      assert LiveAt(s.wrappers[w], s.primaryVsn);
    } else {
      var v := NewestUpdate(s.hist, s.primaryVsn, n);
      assert UpdateOk(s.wrappers, s.hist[v - 1], v);
    }
  }

  /** Without updates by clients, names, deletions and what the tree has only move on. */
  lemma QuietStepKeepsBuried(s: State, step: Step, n: Name)
    requires Inv(s) && Enabled(s, step) && NoUpdate(step) && Buried(s.wrappers, s.primaryVsn, n)
    ensures Buried(Apply(s, step).wrappers, Apply(s, step).primaryVsn, n)
  {
    PrimaryNeverDecreases(s, step);
    if step == Vacuum(FreeNext) {
      assert UpdateOk(s.wrappers, s.hist[s.phase.at - 1], s.phase.at);
    } else {
      QuietStepKeepsWrappers(s, step);
    }
  }

  lemma QuietStepKeepsWrappers(s: State, step: Step)
    requires Inv(s) && Enabled(s, step) && NoUpdate(step) && step != Vacuum(FreeNext)
    ensures Apply(s, step).wrappers == s.wrappers
  {
  }

  lemma {:induction false} QuietRunKeepsBuried(s: State, more: seq<Step>, n: Name)
    requires Inv(s) && IsQuietRun(s, more) && Buried(s.wrappers, s.primaryVsn, n)
    ensures Buried(AfterQuiet(s, more).wrappers, AfterQuiet(s, more).primaryVsn, n)
    decreases |more|
  {
    if more != [] {
      var k := |more| - 1;
      QuietRunKeepsBuried(s, more[..k], n);
      QuietStepKeepsBuried(AfterQuiet(s, more[..k]), more[k], n);
    }
  }

  /** Creation looks the name up at one instant and scans the pending deletes at a later one; under
      the write lock no client updates in between, but the vacuum goes on. If neither finds the
      name, every earlier wrapper of it has been released once, and the lookup would still find
      nothing, so that creating now is the one step of the protocol. */
  lemma CreateWaitsForRelease(s0: State, steps: seq<Step>, more: seq<Step>, c: Id, n: Name)
    requires IsRun(s0, steps) && Find(After(s0, steps), n) == Missing && IsQuietRun(After(s0, steps), more)
    requires n !in AfterQuiet(After(s0, steps), more).pending && Reading(AfterQuiet(After(s0, steps), more), c)
    ensures ClientEnabled(AfterQuiet(After(s0, steps), more), c, CreateFilter(n))
    ensures AllReleased(AfterQuiet(After(s0, steps), more).wrappers, n)
  {
    var s := After(s0, steps);
    MissingIffBuried(s, n);
    QuietRunKeepsBuried(s, more, n);
    BuriedReleased(AfterQuiet(s, more), n);
  }

  predicate AllReleased(wrappers: seq<Wrapper>, n: Name) {
    forall w :: 0 <= w < |wrappers| && wrappers[w].name == n ==> wrappers[w].frees == 1
  }

  lemma BuriedReleased(s: State, n: Name)
    requires Inv(s) && Buried(s.wrappers, s.primaryVsn, n) && n !in s.pending
    ensures Find(s, n) == Missing && AllReleased(s.wrappers, n)
  {
    MissingIffBuried(s, n);
    forall w | 0 <= w < |s.wrappers| && s.wrappers[w].name == n ensures s.wrappers[w].frees == 1 { OldWrappersReleased(s, n, w); }
  }

  // ----- shutdown

  /** The filters that the updates between two versions created, newest first. */
  function CreatedBetween(hist: seq<Update>, low: nat, v: nat): (r: seq<Id>)
    requires low <= v <= |hist|
  {
    if v == low then []
    else (if hist[v - 1].Create? then [hist[v - 1].filter] else []) + CreatedBetween(hist, low, v - 1)
  }

  /** What shutdown releases: everything in the primary tree, then every creation still listed. */
  function ShutdownReleases(s: State, keys: seq<Name>): seq<Id>
    requires Shape(s)
    requires forall n :: n in keys ==> n in s.trees[s.primary]
  {
    seq(|keys|, i requires 0 <= i < |keys| => s.trees[s.primary][keys[i]]) + CreatedBetween(s.hist, s.low, |s.hist|)
  }

  lemma {:induction false} CreatedExact(hist: seq<Update>, wrappers: seq<Wrapper>, low: nat, v: nat)
    requires WrappersOk(hist, wrappers) && UpdatesOk(hist, wrappers) && low <= v <= |hist|
    ensures NoDup(CreatedBetween(hist, low, v))
    ensures forall w: Id :: w in CreatedBetween(hist, low, v) <==> w < |wrappers| && low < wrappers[w].born <= v
  {
    forall w: Id
      ensures w in CreatedBetween(hist, low, v) <==> w < |wrappers| && low < wrappers[w].born <= v
    {
      CreatedHas(hist, wrappers, low, v, w);
    }
    CreatedOnce(hist, wrappers, low, v);
  }

  lemma {:induction false} CreatedAt(hist: seq<Update>, low: nat, v: nat, w: Id)
    requires low <= v <= |hist|
    ensures w in CreatedBetween(hist, low, v) <==> exists i :: low <= i < v && hist[i].Create? && hist[i].filter == w
  {
    if v != low {
      var u, rest := hist[v - 1], CreatedBetween(hist, low, v - 1);
      CreatedAt(hist, low, v - 1, w);
      InConcat(w, if u.Create? then [u.filter] else [], rest);
      CreatedOneMore(hist, low, v, w);
    }
  }

  lemma CreatedOneMore(hist: seq<Update>, low: nat, v: nat, w: Id)
    requires low < v <= |hist|
    ensures (exists i :: low <= i < v && hist[i].Create? && hist[i].filter == w) <==>
              (exists i :: low <= i < v - 1 && hist[i].Create? && hist[i].filter == w) || (hist[v - 1].Create? && hist[v - 1].filter == w)
  {
  }

  lemma CreatedHas(hist: seq<Update>, wrappers: seq<Wrapper>, low: nat, v: nat, w: Id)
    requires WrappersOk(hist, wrappers) && UpdatesOk(hist, wrappers) && low <= v <= |hist|
    ensures w in CreatedBetween(hist, low, v) <==> w < |wrappers| && low < wrappers[w].born <= v
  {
    CreatedAt(hist, low, v, w);
    if i :| low <= i < v && hist[i].Create? && hist[i].filter == w {
      assert UpdateOk(wrappers, hist[i], i + 1);
    }
    if w < |wrappers| && low < wrappers[w].born <= v {
      assert WrapperOk(hist, wrappers[w], w);
      assert hist[wrappers[w].born - 1].Create?;
    }
  }

  lemma {:induction false} CreatedOnce(hist: seq<Update>, wrappers: seq<Wrapper>, low: nat, v: nat)
    requires WrappersOk(hist, wrappers) && UpdatesOk(hist, wrappers) && low <= v <= |hist|
    ensures NoDup(CreatedBetween(hist, low, v))
  {
    if v != low {
      CreatedOnce(hist, wrappers, low, v - 1);
      if hist[v - 1].Create? {
        assert UpdateOk(wrappers, hist[v - 1], v);
        CreatedHas(hist, wrappers, low, v - 1, hist[v - 1].filter);
        NoDupConcat([hist[v - 1].filter], CreatedBetween(hist, low, v - 1));
      }
    }
  }

  /** The list releases each wrapper that is not released yet, once, and no other. */
  ghost predicate ReleasesRest(wrappers: seq<Wrapper>, list: seq<Id>) {
    NoDup(list) && forall w: Id :: w in list <==> w < |wrappers| && wrappers[w].frees == 0
  }

  /** The names of the tree that clients read. */
  ghost predicate NamesOfPrimary(s: State, keys: seq<Name>) {
    Shape(s) && NoDup(keys) && forall n :: n in keys <==> n in s.trees[s.primary]
  }

  /** With the vacuum stopped between rounds, shutdown releases every remaining wrapper, once. */
  lemma ShutdownReleasesRest(s0: State, steps: seq<Step>, keys: seq<Name>)
    requires IsRun(s0, steps) && After(s0, steps).phase.Idle? && NamesOfPrimary(After(s0, steps), keys)
    ensures ReleasesRest(After(s0, steps).wrappers, ShutdownReleases(After(s0, steps), keys))
  {
    InvShutdown(After(s0, steps), keys);
  }

  lemma InvShutdown(s: State, keys: seq<Name>)
    requires Shape(s) && PhaseOk(s) && TreesOk(s) && FreesOk(s) && s.phase.Idle? && NamesOfPrimary(s, keys)
    requires WrappersOk(s.hist, s.wrappers) && UpdatesOk(s.hist, s.wrappers)
    ensures ReleasesRest(s.wrappers, ShutdownReleases(s, keys))
  {
    var t := s.trees[s.primary];
    var inTree := seq(|keys|, i requires 0 <= i < |keys| => t[keys[i]]);
    var created := CreatedBetween(s.hist, s.low, |s.hist|);
    CreatedExact(s.hist, s.wrappers, s.low, |s.hist|);
    BarriersChangeNothing(s.wrappers, s.hist, t, s.low, s.primaryVsn);
    InTreeExact(s.wrappers, t, s.low, keys, inTree);
    NoDupConcat(inTree, created);
    forall w: Id | w < |s.wrappers|
      ensures w in inTree + created <==> s.wrappers[w].frees == 0
    {
      assert WrapperOk(s.hist, s.wrappers[w], w);
    }
  }

  lemma InTreeExact(wrappers: seq<Wrapper>, t: map<Name, Id>, k: nat, keys: seq<Name>, ids: seq<Id>)
    requires TreeAt(wrappers, t, k) && NoDup(keys) && |ids| == |keys|
    requires forall n :: n in keys <==> n in t
    requires forall i :: 0 <= i < |keys| ==> ids[i] == t[keys[i]]
    ensures NoDup(ids)
    ensures forall w: Id :: w in ids <==> w < |wrappers| && LiveAt(wrappers[w], k)
  {
    assert forall i :: 0 <= i < |keys| ==> keys[i] in t && wrappers[ids[i]].name == keys[i];
    forall w: Id | w < |wrappers| && LiveAt(wrappers[w], k)
      ensures w in ids
    {
      assert wrappers[w].name in keys;
      var i :| 0 <= i < |keys| && keys[i] == wrappers[w].name;
      assert ids[i] == w;
    }
  }
}
