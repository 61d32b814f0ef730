/**
 The timers of the event loop: a 4-ary heap whose first element sits at index 3, with a pointer
 from every active timer back to its place.
 */
module TimerHeap {

  type Timer = nat

  const DHEAP := 4
  const HEAP0 := 3

  /** A place of the heap: the timer and a copy of its expiry time. */
  datatype Entry = Entry(w: Timer, at: real)

  /** `(k - HEAP0 - 1) / DHEAP + HEAP0` with division that truncates towards zero, so that the root
      is its own parent. */
  function Parent(k: int): (p: int)
    requires HEAP0 <= k
    ensures HEAP0 <= p <= k && (p == k <==> k == HEAP0)
    ensures k > HEAP0 ==> DHEAP * (p - HEAP0) + HEAP0 + 1 <= k <= DHEAP * (p - HEAP0) + HEAP0 + 4
  {
    if k == HEAP0 then HEAP0 else (k - HEAP0 - 1) / DHEAP + HEAP0
  }

  /** The children of `k` follow each other. */
  function FirstChild(k: int): int { DHEAP * (k - HEAP0) + HEAP0 + 1 }

  lemma ChildrenOf(k: int, i: int)
    requires HEAP0 <= k && HEAP0 < i
    ensures Parent(i) == k <==> FirstChild(k) <= i < FirstChild(k) + DHEAP
  {
  }

  /** The index of the last place, if there are `n` timers. */
  predicate In(n: nat, i: int) { HEAP0 <= i < n + HEAP0 }

  /** No timer expires before its parent. */
  ghost predicate Ordered(h: seq<Entry>, n: nat)
    requires n + HEAP0 <= |h|
  {
    forall i {:trigger h[Parent(i)]} :: In(n, i) && i != HEAP0 ==> h[Parent(i)].at <= h[i].at
  }

  /** The same, except for what involves place `k`; skipping `k`, order holds. */
  ghost predicate OrderedAround(h: seq<Entry>, n: nat, k: int)
    requires n + HEAP0 <= |h| && In(n, k)
  {
    && (forall i {:trigger h[Parent(i)]} :: In(n, i) && i != HEAP0 && i != k && Parent(i) != k ==> h[Parent(i)].at <= h[i].at)
    && (forall i {:trigger Parent(i)} :: In(n, i) && i != HEAP0 && Parent(i) == k && k != HEAP0 ==> h[Parent(k)].at <= h[i].at)
  }

  ghost predicate ParentOk(h: seq<Entry>, n: nat, k: int)
    requires n + HEAP0 <= |h| && In(n, k)
  {
    k != HEAP0 ==> h[Parent(k)].at <= h[k].at
  }

  ghost predicate ChildrenOk(h: seq<Entry>, n: nat, k: int)
    requires n + HEAP0 <= |h| && In(n, k)
  {
    forall i {:trigger Parent(i)} :: In(n, i) && i != HEAP0 && Parent(i) == k ==> h[k].at <= h[i].at
  }

  lemma OrderedWhole(h: seq<Entry>, n: nat, k: int)
    requires n + HEAP0 <= |h| && In(n, k) && OrderedAround(h, n, k) && ParentOk(h, n, k) && ChildrenOk(h, n, k)
    ensures Ordered(h, n)
  {
  }

  /** The back-pointer of `w`, if it has one, names its place. */
  predicate Placed(h: seq<Entry>, active: map<Timer, int>, n: nat, w: Timer)
    requires n + HEAP0 <= |h|
  {
    w in active ==> In(n, active[w]) && h[active[w]].w == w
  }

  /** The back-pointers name exactly the places of the heap. */
  ghost predicate Indexed(h: seq<Entry>, active: map<Timer, int>, n: nat)
    requires n + HEAP0 <= |h|
  {
    && (forall i :: In(n, i) ==> h[i].w in active && active[h[i].w] == i)
    && (forall w :: Placed(h, active, n, w))
  }

  /** The copies agree with the timers. */
  ghost predicate Cached(h: seq<Entry>, at: map<Timer, real>, n: nat)
    requires n + HEAP0 <= |h|
  {
    forall i :: In(n, i) ==> h[i].w in at && h[i].at == at[h[i].w]
  }

  /** The first timer to expire is at the root. */
  lemma {:induction false} RootIsLeast(h: seq<Entry>, n: nat, i: int)
    requires n + HEAP0 <= |h| && Ordered(h, n) && In(n, i)
    ensures h[HEAP0].at <= h[i].at
    decreases i
  {
    if i != HEAP0 {
      RootIsLeast(h, n, Parent(i));
    }
  }

  // ----- moving a hole

  /** Two places exchange their timers. */
  function Swapped(h: seq<Entry>, i: int, j: int): (r: seq<Entry>)
    requires 0 <= i < |h| && 0 <= j < |h|
    ensures |r| == |h|
  {
    h[i := h[j]][j := h[i]]
  }

  lemma SwapKeeps(h: seq<Entry>, active: map<Timer, int>, at: map<Timer, real>, n: nat, i: int, j: int)
    requires n + HEAP0 <= |h| && In(n, i) && In(n, j) && i != j && Indexed(h, active, n) && Cached(h, at, n)
    ensures Indexed(Swapped(h, i, j), active[h[j].w := i][h[i].w := j], n) && Cached(Swapped(h, i, j), at, n)
    ensures active[h[j].w := i][h[i].w := j].Keys == active.Keys
  {
    var h', a' := Swapped(h, i, j), active[h[j].w := i][h[i].w := j];
    forall w
      ensures Placed(h', a', n, w)
    {
      assert Placed(h, active, n, w);
    }
  }

  /** The hole moves up past a parent that expires later. */
  lemma SwapUp(h: seq<Entry>, n: nat, k: int, p: int)
    requires n + HEAP0 <= |h| && In(n, k) && k != HEAP0 && p == Parent(k) && OrderedAround(h, n, k) && ChildrenOk(h, n, k)
    requires h[k].at < h[p].at
    ensures OrderedAround(Swapped(h, k, p), n, p) && ChildrenOk(Swapped(h, k, p), n, p)
  {
    var h' := Swapped(h, k, p);
    assert p != HEAP0 ==> h[Parent(p)].at <= h[p].at;
    forall i | In(n, i) && i != HEAP0 && Parent(i) == p
      ensures h'[p].at <= h'[i].at && (p != HEAP0 ==> h'[Parent(p)].at <= h'[i].at)
    {
      assert i != k ==> h[Parent(i)].at <= h[i].at;
    }
    forall i | In(n, i) && i != HEAP0 && i != p && Parent(i) != p
      ensures h'[Parent(i)].at <= h'[i].at
    {
      if Parent(i) == k {
        assert h[Parent(k)].at <= h[i].at;
      }
    }
  }

  /** The hole moves down past its least child. */
  lemma SwapDown(h: seq<Entry>, n: nat, k: int, c: int)
    requires n + HEAP0 <= |h| && In(n, k) && In(n, c) && c != HEAP0 && Parent(c) == k
    requires OrderedAround(h, n, k) && ParentOk(h, n, k) && h[c].at < h[k].at
    requires forall i {:trigger Parent(i)} :: In(n, i) && i != HEAP0 && Parent(i) == k ==> h[c].at <= h[i].at
    ensures OrderedAround(Swapped(h, k, c), n, c) && ParentOk(Swapped(h, k, c), n, c)
  {
    var h' := Swapped(h, k, c);
    forall i | In(n, i) && i != HEAP0 && Parent(i) == c
      ensures h'[Parent(c)].at <= h'[i].at
    {
      assert h[Parent(i)].at <= h[i].at;
    }
    forall i | In(n, i) && i != HEAP0 && i != c && Parent(i) != c
      ensures h'[Parent(i)].at <= h'[i].at
    {
      if i == k {
        assert h[Parent(k)].at <= h[c].at by { assert Parent(c) == k; }
      }
    }
  }

  /** `c` is a child of `k` that expires no later than the others. */
  ghost predicate LeastChild(h: seq<Entry>, n: nat, k: int, c: int)
    requires n + HEAP0 <= |h| && In(n, k)
  {
    && In(n, c) && c != HEAP0 && Parent(c) == k
    && forall i {:trigger Parent(i)} :: In(n, i) && i != HEAP0 && Parent(i) == k ==> h[c].at <= h[i].at
  }

  /** Finds the least child of a place, if it has any; with all four present no bounds are checked. */
  method FindLeastChild(h: seq<Entry>, n: nat, k: int) returns (c: int)
    requires n + HEAP0 <= |h| && In(n, k)
    ensures c == -1 <==> FirstChild(k) >= n + HEAP0
    ensures c != -1 ==> LeastChild(h, n, k, c)
  {
    var pos, end := FirstChild(k), n + HEAP0;
    if pos + DHEAP - 1 < end {
      c := pos;
      if h[pos + 1].at < h[c].at { c := pos + 1; }
      if h[pos + 2].at < h[c].at { c := pos + 2; }
      if h[pos + 3].at < h[c].at { c := pos + 3; }
    } else if pos < end {
      c := pos;
      if pos + 1 < end && h[pos + 1].at < h[c].at { c := pos + 1; }
      if pos + 2 < end && h[pos + 2].at < h[c].at { c := pos + 2; }
    } else {
      return -1;
    }
    ChildrenOf(k, c);
    forall i | In(n, i) && i != HEAP0 && Parent(i) == k ensures h[c].at <= h[i].at { ChildrenOf(k, i); }
  }

  lemma NoLaterChild(h: seq<Entry>, timers: seq<Entry>, n: nat, k: int, c: int)
    requires n + HEAP0 <= |h| && In(n, k) && |timers| == |h| && h == timers[k := h[k]]
    requires if c == -1 then FirstChild(k) >= n + HEAP0 else LeastChild(timers, n, k, c) && h[k].at <= timers[c].at
    ensures ChildrenOk(h, n, k)
  {
    forall i | In(n, i) && i != HEAP0 && Parent(i) == k ensures h[k].at <= h[i].at { ChildrenOf(k, i); }
  }

  // ----- the loops, with the moving timer held aside

  /** The heap and the back-pointers as they are once `he` is put at `k`. */
  ghost predicate Held(timers: seq<Entry>, active: map<Timer, int>, he: Entry, at: map<Timer, real>, cnt: nat, k: int,
                       keys: set<Timer>)
  {
    && cnt + HEAP0 <= |timers| && In(cnt, k)
    && Indexed(timers[k := he], active[he.w := k], cnt) && Cached(timers[k := he], at, cnt)
    && active[he.w := k].Keys == keys
  }

  lemma HoleMoves(timers: seq<Entry>, active: map<Timer, int>, he: Entry, at: map<Timer, real>, cnt: nat, k: int,
                  keys: set<Timer>, p: int)
    requires Held(timers, active, he, at, cnt, k, keys) && In(cnt, p) && p != k
    ensures Held(timers[k := timers[p]], active[timers[p].w := k], he, at, cnt, p, keys)
    ensures timers[k := timers[p]][p := he] == Swapped(timers[k := he], k, p)
  {
    var h, a := timers[k := he], active[he.w := k];
    SwapKeeps(h, a, at, cnt, k, p);
    assert timers[k := timers[p]][p := he] == Swapped(h, k, p);
    assert active[timers[p].w := k][he.w := p] == a[h[p].w := k][he.w := p];
  }

  // ----- adding, removing and changing a timer

  lemma AddKeeps(h: seq<Entry>, h': seq<Entry>, active: map<Timer, int>, at: map<Timer, real>, n: nat, e: Entry)
    requires n + HEAP0 <= |h| && Indexed(h, active, n) && Cached(h, at, n) && Ordered(h, n) && e.w !in active
    requires n + HEAP0 < |h'| && h'[n + HEAP0] == e && forall i :: In(n, i) ==> h'[i] == h[i]
    ensures Indexed(h', active[e.w := n + HEAP0], n + 1) && Cached(h', at[e.w := e.at], n + 1)
    ensures OrderedAround(h', n + 1, n + HEAP0) && ChildrenOk(h', n + 1, n + HEAP0)
  {
    var k, n', a' := n + HEAP0, n + 1, active[e.w := n + HEAP0];
    forall w ensures Placed(h', a', n', w) { assert Placed(h, active, n, w); }
    forall i | In(n + 1, i) && i != HEAP0 && i != k
      ensures h'[Parent(i)].at <= h'[i].at
    {
      assert h[Parent(i)].at <= h[i].at;
    }
  }

  /** Changing place `k` of an ordered heap leaves it ordered around `k`. */
  lemma AroundKeeps(h: seq<Entry>, h': seq<Entry>, n: nat, n': nat, k: int)
    requires n' <= n && n + HEAP0 <= |h| == |h'| && In(n', k) && Ordered(h, n) && h' == h[k := h'[k]]
    ensures OrderedAround(h', n', k)
  {
    forall i | In(n', i) && i != HEAP0 && i != k && Parent(i) != k
      ensures h'[Parent(i)].at <= h'[i].at
    {
      assert h[Parent(i)].at <= h[i].at;
    }
    forall i | In(n', i) && i != HEAP0 && Parent(i) == k && k != HEAP0
      ensures h'[Parent(k)].at <= h'[i].at
    {
      assert h[Parent(i)].at <= h[i].at && h[Parent(k)].at <= h[k].at;
    }
  }

  /** The last timer takes the place of the one that goes. */
  lemma RemoveKeeps(h: seq<Entry>, active: map<Timer, int>, at: map<Timer, real>, n: nat, w: Timer, k: int)
    requires 0 < n && n + HEAP0 <= |h| && Indexed(h, active, n) && Cached(h, at, n) && Ordered(h, n)
    requires w in active && k == active[w] && In(n - 1, k)
    ensures var h' := h[k := h[n - 1 + HEAP0]];
            && Indexed(h', (active - {w})[h'[k].w := k], n - 1) && Cached(h', at, n - 1)
            && OrderedAround(h', n - 1, k)
            && (active - {w}).Keys + {h'[k].w} == active.Keys - {w}
  {
    var h' := h[k := h[n - 1 + HEAP0]];
    var a' := (active - {w})[h'[k].w := k];
    assert Placed(h, active, n, w);
    var n' := n - 1;
    forall v ensures Placed(h', a', n', v) { assert Placed(h, active, n, v); }
    AroundKeeps(h, h', n, n - 1, k);
  }

  lemma RemoveLast(h: seq<Entry>, active: map<Timer, int>, at: map<Timer, real>, n: nat, w: Timer)
    requires 0 < n && n + HEAP0 <= |h| && Indexed(h, active, n) && Cached(h, at, n) && Ordered(h, n)
    requires w in active && active[w] == n - 1 + HEAP0
    ensures Indexed(h, active - {w}, n - 1) && Cached(h, at, n - 1) && Ordered(h, n - 1)
  {
    assert Placed(h, active, n, w);
    var n', a' := n - 1, active - {w};
    forall v ensures Placed(h, a', n', v) { assert Placed(h, active, n, v); }
    forall i | In(n - 1, i) && i != HEAP0 ensures h[Parent(i)].at <= h[i].at { assert In(n, i); }
  }

  /** A timer that stays where it is gets another time. */
  lemma ChangeKeeps(h: seq<Entry>, active: map<Timer, int>, at: map<Timer, real>, n: nat, w: Timer, k: int, t: real)
    requires n + HEAP0 <= |h| && Indexed(h, active, n) && Cached(h, at, n) && Ordered(h, n)
    requires w in active && k == active[w] && In(n, k)
    ensures h[k].w == w
    ensures var h' := h[k := Entry(w, t)];
            && Indexed(h', active[h'[k].w := k], n) && Cached(h', at[w := t], n) && OrderedAround(h', n, k)
            && active.Keys + {h'[k].w} == active.Keys
  {
    assert Placed(h, active, n, w);
    var h' := h[k := Entry(w, t)];
    assert active[w := k] == active;
    forall v ensures Placed(h', active, n, v) { assert Placed(h, active, n, v); }
    AroundKeeps(h, h', n, n, k);
  }

  // ----- expiry

  function Later(a: real, b: real): real { if a < b then b else a }

  /** What becomes of a timer when the due ones are fed. */
  predicate Fate(was: bool, at0: real, alive: bool, at1: real, repeat: real, now: real) {
    if was && at0 < now then
      if repeat != 0.0 then alive && at1 == Later(at0 + repeat, now) else !alive && at1 == at0 - now
    else
      alive == was && at1 == at0
  }

  predicate SoFar(fed: bool, was: bool, at0: real, alive: bool, at1: real, repeat: real, now: real) {
    if fed then was && at0 < now && Fate(was, at0, alive, at1, repeat, now) else alive == was && at1 == at0
  }

  /** Of all timers: those fed met their fate, the others are as they were. */
  ghost predicate AllSoFar(fed: seq<Timer>, act0: set<Timer>, at0: map<Timer, real>, act: set<Timer>, at: map<Timer, real>,
                           repeat: map<Timer, real>, now: real)
  {
    && act0 <= at0.Keys == at.Keys == repeat.Keys
    && forall w :: w in at0 ==> SoFar(w in fed, w in act0, at0[w], w in act, at[w], repeat[w], now)
  }

  lemma OneMoreFed(fed: seq<Timer>, act0: set<Timer>, at0: map<Timer, real>, act: set<Timer>, at: map<Timer, real>,
                   act': set<Timer>, at': map<Timer, real>, repeat: map<Timer, real>, now: real, w: Timer)
    requires AllSoFar(fed, act0, at0, act, at, repeat, now) && FedOnce(fed)
    requires w in act && w in at && at[w] < now && at'.Keys == at.Keys
    requires Fate(true, at[w], w in act', at'[w], repeat[w], now)
    requires act' - {w} == act - {w} && forall v :: v in at && v != w ==> at'[v] == at[v]
    ensures w !in fed && w in act0 && FedOnce(fed + [w]) && AllSoFar(fed + [w], act0, at0, act', at', repeat, now)
  {
    forall v | v in at0
      ensures SoFar(v in fed + [w], v in act0, at0[v], v in act', at'[v], repeat[v], now)
    {
      assert SoFar(v in fed, v in act0, at0[v], v in act, at[v], repeat[v], now);
      if v != w {
        assert v in act' <==> v in act' - {w};
      }
    }
  }

  predicate FedOnce(fed: seq<Timer>) {
    forall i, j :: 0 <= i < j < |fed| ==> fed[i] != fed[j]
  }

  function SetOf(fed: seq<Timer>): set<Timer> {
    set w | w in fed
  }

  lemma NoneDue(h: seq<Entry>, active: map<Timer, int>, at: map<Timer, real>, n: nat, now: real, w: Timer)
    requires n + HEAP0 <= |h| && Indexed(h, active, n) && Cached(h, at, n) && Ordered(h, n) && w in active && w in at
    requires n > 0 ==> h[HEAP0].at >= now
    ensures at[w] >= now
  {
    assert Placed(h, active, n, w);
    RootIsLeast(h, n, active[w]);
  }

  /** The timers come in the order of their times, and none that is still to come is earlier. */
  ghost predicate InTime(fed: seq<Timer>, act0: set<Timer>, at0: map<Timer, real>)
    requires act0 <= at0.Keys && SetOf(fed) <= act0
  {
    && (forall i, j :: 0 <= i < j < |fed| ==> fed[i] in SetOf(fed) && fed[j] in SetOf(fed) && at0[fed[i]] <= at0[fed[j]])
    && (forall i, v :: 0 <= i < |fed| && v in act0 && v !in fed ==> fed[i] in SetOf(fed) && at0[fed[i]] <= at0[v])
  }

  /** The root is the earliest of those that are still to come. */
  lemma RootIsNext(h: seq<Entry>, active: map<Timer, int>, at: map<Timer, real>, n: nat, w: Timer, v: Timer)
    requires n + HEAP0 <= |h| && n > 0 && Indexed(h, active, n) && Cached(h, at, n) && Ordered(h, n)
    requires v in active && v in at && h[HEAP0].w == w && w in at
    ensures at[w] <= at[v]
  {
    assert Placed(h, active, n, v) && In(n, HEAP0);
    RootIsLeast(h, n, active[v]);
  }

  lemma InTimeOneMore(fed: seq<Timer>, act0: set<Timer>, at0: map<Timer, real>, w: Timer)
    requires act0 <= at0.Keys && SetOf(fed) <= act0 && w in act0 && w !in fed && InTime(fed, act0, at0)
    requires forall v :: v in act0 && v !in fed ==> at0[w] <= at0[v]
    ensures SetOf(fed + [w]) <= act0 && InTime(fed + [w], act0, at0)
  {
    var fed' := fed + [w];
    assert forall i :: 0 <= i < |fed'| ==> fed'[i] in fed';
    forall i, j | 0 <= i < j < |fed'|
      ensures at0[fed'[i]] <= at0[fed'[j]]
    {
      if j == |fed| {
        assert fed[i] in SetOf(fed);
      }
    }
    forall i, v | 0 <= i < |fed'| && v in act0 && v !in fed'
      ensures at0[fed'[i]] <= at0[v]
    {
      assert v !in fed;
    }
  }

  /** Everything that holds of the timers fed so far. */
  ghost predicate FedSoFar(fed: seq<Timer>, act0: set<Timer>, at0: map<Timer, real>, act: set<Timer>, at: map<Timer, real>,
                           repeat: map<Timer, real>, now: real)
  {
    FedOnce(fed) && SetOf(fed) <= act0 && AllSoFar(fed, act0, at0, act, at, repeat, now) && InTime(fed, act0, at0)
  }

  lemma FewerLeft(fed: seq<Timer>, act0: set<Timer>, w: Timer)
    requires w in act0 && w !in fed
    ensures |act0 - SetOf(fed + [w])| < |act0 - SetOf(fed)|
  {
    assert act0 - SetOf(fed + [w]) == act0 - SetOf(fed) - {w};
  }

  /** What has been fed in the end. */
  lemma AllMetFate(fed: seq<Timer>, act0: set<Timer>, at0: map<Timer, real>, act: set<Timer>, at: map<Timer, real>,
                   repeat: map<Timer, real>, now: real)
    requires FedSoFar(fed, act0, at0, act, at, repeat, now)
    requires forall w :: w in act ==> w in at && at[w] >= now
    ensures FedOnce(fed) && at.Keys == at0.Keys == repeat.Keys && (forall w :: w in fed <==> w in act0 && at0[w] < now)
    ensures forall w :: w in at0 ==> Fate(w in act0, at0[w], w in act, at[w], repeat[w], now)
    ensures forall i, j :: 0 <= i < j < |fed| ==> fed[i] in at0 && fed[j] in at0 && at0[fed[i]] <= at0[fed[j]]
  {
    forall w | w in at0
      ensures Fate(w in act0, at0[w], w in act, at[w], repeat[w], now)
      ensures w in fed <==> w in act0 && at0[w] < now
    {
      assert SoFar(w in fed, w in act0, at0[w], w in act, at[w], repeat[w], now);
    }
    forall w | w in fed ensures w in act0 { assert w in SetOf(fed); }
  }

  class Timers {
    var timers: seq<Entry>
    var timercnt: nat
    var active: map<Timer, int>
    var at: map<Timer, real>
    var repeat: map<Timer, real>
    var now: real

    /** Everything but the order. */
    ghost predicate Sound()
      reads this
    {
      && timercnt + HEAP0 <= |timers| && Indexed(timers, active, timercnt) && Cached(timers, at, timercnt)
      && active.Keys <= at.Keys == repeat.Keys && forall w :: w in repeat ==> repeat[w] >= 0.0
    }

    ghost predicate Valid()
      reads this
    {
      Sound() && Ordered(timers, timercnt)
    }

    /** A loop without active timers; `at` and `repeat` are what the timers were initialised with. */
    constructor (at: map<Timer, real>, repeat: map<Timer, real>, now: real)
      requires at.Keys == repeat.Keys && forall w :: w in repeat ==> repeat[w] >= 0.0
      ensures Valid() && active == map[] && this.at == at && this.repeat == repeat && this.now == now
    {
      timers, timercnt, active := [Entry(0, 0.0), Entry(0, 0.0), Entry(0, 0.0)], 0, map[];
      this.at, this.repeat, this.now := at, repeat, now;
    }

    /** Moves the timer at `k0` towards the root; `n` bounds the part that is ordered. */
    method Upheap(k0: int, ghost n: nat)
      requires timercnt + HEAP0 <= |timers| && n <= timercnt && In(n, k0)
      requires Indexed(timers, active[timers[k0].w := k0], timercnt) && Cached(timers, at, timercnt)
      requires OrderedAround(timers, n, k0) && ChildrenOk(timers, n, k0)
      modifies this`timers, this`active
      ensures |timers| == |old(timers)| && Indexed(timers, active, timercnt) && Cached(timers, at, timercnt)
      ensures Ordered(timers, n) && active.Keys == old(active).Keys + {old(timers)[k0].w}
    {
      var k, he := k0, timers[k0];
      ghost var keys := active.Keys + {he.w};
      assert timers[k := he] == timers && active[he.w := k].Keys == keys;
      while true
        invariant In(n, k) && |timers| == |old(timers)| && Held(timers, active, he, at, timercnt, k, keys)
        invariant OrderedAround(timers[k := he], n, k) && ChildrenOk(timers[k := he], n, k)
        decreases k
      {
        var p := Parent(k);
        if p == k || timers[p].at <= he.at {
          break;
        }
        SwapUp(timers[k := he], n, k, p);
        HoleMoves(timers, active, he, at, timercnt, k, keys, p);
        timers := timers[k := timers[p]];
        active := active[timers[k].w := k];
        k := p;
      }
      timers := timers[k := he];
      active := active[he.w := k];
      OrderedWhole(timers, n, k);
    }

    /** Moves the timer at `k0` away from the root. */
    method Downheap(k0: int)
      requires timercnt + HEAP0 <= |timers| && In(timercnt, k0)
      requires Indexed(timers, active[timers[k0].w := k0], timercnt) && Cached(timers, at, timercnt)
      requires OrderedAround(timers, timercnt, k0) && ParentOk(timers, timercnt, k0)
      modifies this`timers, this`active
      ensures |timers| == |old(timers)| && Indexed(timers, active, timercnt) && Cached(timers, at, timercnt)
      ensures Ordered(timers, timercnt) && active.Keys == old(active).Keys + {old(timers)[k0].w}
    {
      var k, he := k0, timers[k0];
      ghost var keys := active.Keys + {he.w};
      assert timers[k := he] == timers && active[he.w := k].Keys == keys;
      while true
        invariant In(timercnt, k) && |timers| == |old(timers)| && Held(timers, active, he, at, timercnt, k, keys)
        invariant OrderedAround(timers[k := he], timercnt, k) && ParentOk(timers[k := he], timercnt, k)
        decreases timercnt + HEAP0 - k
      {
        var c := FindLeastChild(timers, timercnt, k);
        if c == -1 || he.at <= timers[c].at {
          NoLaterChild(timers[k := he], timers, timercnt, k, c);
          break;
        }
        SwapDown(timers[k := he], timercnt, k, c);
        HoleMoves(timers, active, he, at, timercnt, k, keys, c);
        timers := timers[k := timers[c]];
        active := active[timers[k].w := k];
        k := c;
      }
      timers := timers[k := he];
      active := active[he.w := k];
      OrderedWhole(timers, timercnt, k);
    }

    /** Puts a timer whose time has changed into its place. */
    method Adjust(k: int)
      requires timercnt + HEAP0 <= |timers| && In(timercnt, k)
      requires Indexed(timers, active[timers[k].w := k], timercnt) && Cached(timers, at, timercnt)
      requires OrderedAround(timers, timercnt, k)
      modifies this`timers, this`active
      ensures |timers| == |old(timers)| && Indexed(timers, active, timercnt) && Cached(timers, at, timercnt)
      ensures Ordered(timers, timercnt) && active.Keys == old(active).Keys + {old(timers)[k].w}
    {
      if k > HEAP0 && timers[k].at <= timers[Parent(k)].at {
        Upheap(k, timercnt);
      } else {
        Downheap(k);
      }
    }

    /** Rebuilds the heap from any arrangement. */
    method Reheap()
      requires Sound()
      modifies this`timers, this`active
      ensures Valid() && active.Keys == old(active).Keys
    {
      var i := 0;
      while i < timercnt
        invariant 0 <= i <= timercnt && Sound() && Ordered(timers, i) && active.Keys == old(active).Keys
      {
        var k := i + HEAP0;
        assert active[timers[k].w := k] == active;
        assert OrderedAround(timers, i + 1, k) && ChildrenOk(timers, i + 1, k);
        Upheap(k, i + 1);
        i := i + 1;
      }
    }

    /** Starts a timer `at[w]` from now; an active timer stays as it is. */
    method Start(w: Timer)
      requires Valid() && w in at
      modifies this
      ensures Valid() && repeat == old(repeat) && now == old(now)
      ensures active.Keys == old(active).Keys + {w}
      ensures at == if w in old(active) then old(at) else old(at)[w := old(at)[w] + now]
    {
      if w in active {
        return;
      }
      var k := timercnt + HEAP0;
      Append(w);
      assert active[w := k] == active;
      Upheap(k, timercnt);
    }

    /** Puts the timer behind the last place. */
    method Append(w: Timer)
      requires Valid() && w in at && w !in active
      modifies this`timers, this`timercnt, this`active, this`at
      ensures timercnt == old(timercnt) + 1 && timercnt + HEAP0 <= |timers| && timers[timercnt - 1 + HEAP0].w == w
      ensures active == old(active)[w := timercnt - 1 + HEAP0] && at == old(at)[w := old(at)[w] + now]
      ensures Indexed(timers, active, timercnt) && Cached(timers, at, timercnt)
      ensures OrderedAround(timers, timercnt, timercnt - 1 + HEAP0) && ChildrenOk(timers, timercnt, timercnt - 1 + HEAP0)
    {
      var e := Entry(w, at[w] + now);
      var k := timercnt + HEAP0;
      ghost var h, a, n, at0 := timers, active, timercnt, at;
      at := at[w := e.at];
      timercnt := timercnt + 1;
      active := active[w := k];
      timers := if k < |timers| then timers[k := e] else timers[..k] + [e];
      AddKeeps(h, timers, a, at0, n, e);
    }

    /** Stops a timer; what is left of its time becomes its value. */
    method Stop(w: Timer)
      requires Valid() && w in at
      modifies this
      ensures Valid() && repeat == old(repeat) && now == old(now)
      ensures active.Keys == old(active).Keys - {w}
      ensures at == if w in old(active) then old(at)[w := old(at)[w] - now] else old(at)
    {
      if w !in active {
        return;
      }
      var k := active[w];
      assert Placed(timers, active, timercnt, w);
      timercnt := timercnt - 1;
      if k < timercnt + HEAP0 {
        RemoveKeeps(timers, active, at, timercnt + 1, w, k);
        active := active - {w};
        timers := timers[k := timers[timercnt + HEAP0]];
        Adjust(k);
      } else {
        RemoveLast(timers, active, at, timercnt + 1, w);
        active := active - {w};
      }
      assert w !in active;
      at := at[w := at[w] - now];
    }

    /** Gives an active timer another time and puts it into its place. */
    method Reschedule(w: Timer, t: real)
      requires Valid() && w in active
      modifies this`timers, this`active, this`at
      ensures Valid() && active.Keys == old(active).Keys && at == old(at)[w := t]
    {
      var k := active[w];
      assert Placed(timers, active, timercnt, w);
      ChangeKeeps(timers, active, at, timercnt, w, k, t);
      at := at[w := t];
      timers := timers[k := Entry(w, t)];
      Adjust(k);
    }

    /** Restarts a repeating timer; stops an active one that does not repeat. */
    method Again(w: Timer)
      requires Valid() && w in at
      modifies this
      ensures Valid() && repeat == old(repeat) && now == old(now)
      ensures active.Keys == if repeat[w] != 0.0 then old(active).Keys + {w} else old(active).Keys - {w}
      ensures at == if repeat[w] != 0.0 then old(at)[w := now + repeat[w]]
                    else if w in old(active) then old(at)[w := old(at)[w] - now] else old(at)
    {
      if w in active {
        if repeat[w] != 0.0 {
          Reschedule(w, now + repeat[w]);
        } else {
          Stop(w);
        }
      } else if repeat[w] != 0.0 {
        at := at[w := repeat[w]];
        Start(w);
        assert at == old(at)[w := now + repeat[w]];
      }
    }

    /** A due timer goes on to its next time or stops. */
    method Expire(w: Timer)
      requires Valid() && w in active && at[w] < now
      modifies this
      ensures Valid() && now == old(now) && repeat == old(repeat) && at.Keys == old(at).Keys
      ensures Fate(true, old(at)[w], w in active, at[w], repeat[w], now)
      ensures active.Keys - {w} == old(active).Keys - {w} && forall v :: v in at && v != w ==> at[v] == old(at)[v]
    {
      if repeat[w] != 0.0 {
        Reschedule(w, Later(at[w] + repeat[w], now));
      } else {
        Stop(w);
      }
    }

    lemma RootBefore(fed: seq<Timer>, act0: set<Timer>, at0: map<Timer, real>, w: Timer, v: Timer)
      requires Valid() && timercnt > 0 && timers[HEAP0].w == w && timers[HEAP0].at < now
      requires AllSoFar(fed, act0, at0, active.Keys, at, repeat, now) && v in act0 && v !in fed
      ensures w in at0 && v in at0 && at0[w] <= at0[v]
    {
      assert In(timercnt, HEAP0) && w in active && w in at0;
      assert SoFar(v in fed, v in act0, at0[v], v in active.Keys, at[v], repeat[v], now);
      assert SoFar(w in fed, w in act0, at0[w], w in active.Keys, at[w], repeat[w], now);
      RootIsNext(timers, active, at, timercnt, w, v);
    }

    /** The timer at the root, which is due, goes on or stops. */
    method FeedRoot(ghost fed: seq<Timer>, ghost act0: set<Timer>, ghost at0: map<Timer, real>) returns (w: Timer)
      requires Valid() && timercnt > 0 && timers[HEAP0].at < now && FedSoFar(fed, act0, at0, active.Keys, at, repeat, now)
      modifies this
      ensures Valid() && now == old(now) && repeat == old(repeat)
      ensures FedSoFar(fed + [w], act0, at0, active.Keys, at, repeat, now) && |act0 - SetOf(fed + [w])| < |act0 - SetOf(fed)|
    {
      w := timers[HEAP0].w;
      assert In(timercnt, HEAP0);
      ghost var act, at1 := active.Keys, at;
      forall v | v in act0 && v !in fed ensures at0[w] <= at0[v] { RootBefore(fed, act0, at0, w, v); }
      Expire(w);
      OneMoreFed(fed, act0, at0, act, at1, active.Keys, at, repeat, now, w);
      InTimeOneMore(fed, act0, at0, w);
      FewerLeft(fed, act0, w);
    }

    /** Feeds every timer that is due, once and in the order of their times, and leaves none due: a repeating timer goes on to its
        next time, but not before now; another one is stopped. */
    method Reify() returns (fed: seq<Timer>)
      requires Valid()
      modifies this
      ensures Valid() && now == old(now) && repeat == old(repeat)
      ensures forall w :: w in active ==> at[w] >= now
      ensures FedOnce(fed) && forall w :: w in fed <==> w in old(active) && old(at)[w] < now
      ensures forall i, j :: 0 <= i < j < |fed| ==> old(at)[fed[i]] <= old(at)[fed[j]]
      ensures at.Keys == old(at).Keys
      ensures forall w :: w in at ==> Fate(w in old(active), old(at)[w], w in active, at[w], repeat[w], now)
    {
      fed := [];
      ghost var act0, at0 := active.Keys, at;
      while timercnt > 0 && timers[HEAP0].at < now
        invariant Valid() && now == old(now) && repeat == old(repeat)
        invariant FedSoFar(fed, act0, at0, active.Keys, at, repeat, now)
        decreases |act0 - SetOf(fed)|
      {
        var w := FeedRoot(fed, act0, at0);
        fed := fed + [w];
      }
      forall w | w in active ensures at[w] >= now { NoneDue(timers, active, at, timercnt, now, w); }
      AllMetFate(fed, act0, at0, active.Keys, at, repeat, now);
    }
  }
}
