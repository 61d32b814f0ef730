/** How many filters a scalable filter has, and what its error targets add up to. */
module Scaling {
  import opened Bitmap
  import opened BloomFilter
  import opened Scalable

  /** The full filters behind the newest. */
  lemma {:induction false} TailTotal(fs: seq<Map>, cs: seq<nat>, initial: nat, scale: nat, k: nat)
    requires |fs| == |cs| && CapacitiesOk(cs, initial, scale) && FullBelow(fs, cs) && 1 <= k <= |fs|
    ensures Total(fs[k..]) == CapacitySum(initial, scale, |fs| - k)
    decreases |fs| - k
  {
    if k < |fs| {
      TailTotal(fs, cs, initial, scale, k + 1);
      assert fs[k..][1..] == fs[k + 1..] && fs[k..][0] == fs[k];
      assert FullAt(fs[k], cs[k]) && CapacityAt(cs, k, initial, scale);
      assert CountOf(fs[k]) == cs[k] == Capacity(initial, scale, |fs| - k - 1);
    }
  }

  /** The number of filters is the least that can hold the keys: all together they can, and no
      shorter list could. */
  lemma FewestFilters(fs: seq<Map>, cs: seq<nat>, mode: Mode, initial: nat, scale: nat)
    requires FiltersOk(fs, cs, mode, initial, scale)
    ensures Total(fs) <= CapacitySum(initial, scale, |fs|)
    ensures forall n :: 1 <= n < |fs| ==> CapacitySum(initial, scale, n) < Total(fs)
  {
    TailTotal(fs, cs, initial, scale, 1);
    assert CapacityAt(cs, 0, initial, scale);
    assert CountOf(fs[0]) <= cs[0] == Capacity(initial, scale, |fs| - 1);
    forall n | 1 <= n < |fs|
      ensures CapacitySum(initial, scale, n) < Total(fs)
    {
      SumGrows(initial, scale, n, |fs| - 1);
    }
  }

  /** Together the first `n` filters hold a geometric sum. */
  lemma {:induction false} CapacitiesAddUp(initial: nat, scale: nat, n: nat)
    ensures CapacitySum(initial, scale, n) * (scale - 1) == initial * (Pow(scale, n) - 1)
  {
    if n > 0 {
      CapacitiesAddUp(initial, scale, n - 1);
      OneTermMore(CapacitySum(initial, scale, n - 1), initial, scale, Pow(scale, n - 1));
    }
  }

  lemma OneTermMore(sum: int, initial: int, scale: int, p: int)
    requires sum * (scale - 1) == initial * (p - 1)
    ensures (sum + initial * p) * (scale - 1) == initial * (scale * p - 1)
  {
    assert (sum + initial * p) * (scale - 1) == sum * (scale - 1) + initial * p * (scale - 1);
    assert initial * p * (scale - 1) == initial * (scale * p) - initial * p;
    assert initial * (p - 1) == initial * p - initial;
    assert initial * (scale * p - 1) == initial * (scale * p) - initial;
  }

  function RPow(r: real, n: nat): real {
    if n == 0 then 1.0 else r * RPow(r, n - 1)
  }

  /** The error target of the filter that is created after `j` others. */
  function Target(p: real, r: real, j: nat): real {
    (1.0 - r) * p * RPow(r, j)
  }

  function TargetSum(p: real, r: real, n: nat): real {
    if n == 0 then 0.0 else TargetSum(p, r, n - 1) + Target(p, r, n - 1)
  }

  lemma {:induction false} RPowPositive(r: real, n: nat)
    requires r > 0.0
    ensures RPow(r, n) > 0.0
  {
    if n > 0 {
      RPowPositive(r, n - 1);
    }
  }

  lemma {:induction false} TargetsAddUp(p: real, r: real, n: nat)
    ensures TargetSum(p, r, n) == p * (1.0 - RPow(r, n))
  {
    if n > 0 {
      TargetsAddUp(p, r, n - 1);
      var q := RPow(r, n - 1);
      assert (1.0 - r) * p * q == p * q - p * (r * q);
      assert p * (1.0 - q) + (p * q - p * (r * q)) == p * (1.0 - r * q);
    }
  }

  /** However many filters there are, their targets stay below the target of the whole. */
  lemma TargetsStayBelow(p: real, r: real, n: nat)
    requires p > 0.0 && 0.0 < r < 1.0
    ensures TargetSum(p, r, n) == p * (1.0 - RPow(r, n)) < p
  {
    TargetsAddUp(p, r, n);
    RPowPositive(r, n);
    var q := RPow(r, n);
    assert p * q > 0.0;
    assert p * (1.0 - q) == p - p * q;
  }
}
