/** The names of the data files of a filter and the order in which a directory listing gives them. */
module FileNames {

  /** Byte order of strings, as directory listings are sorted by. */
  predicate StrLess(a: string, b: string) {
    if b == [] then false
    else if a == [] then true
    else a[0] < b[0] || (a[0] == b[0] && StrLess(a[1..], b[1..]))
  }

  lemma {:induction false} StrLessAsymmetric(a: string, b: string)
    requires StrLess(a, b)
    ensures !StrLess(b, a)
    decreases |a|
  {
    if a != [] && a[0] == b[0] {
      StrLessAsymmetric(a[1..], b[1..]);
    }
  }

  lemma {:induction false} SharedPrefix(p: string, a: string, b: string)
    ensures StrLess(p + a, p + b) == StrLess(a, b)
    decreases |p|
  {
    if p == [] {
      assert p + a == a && p + b == b;
    } else {
      SharedPrefix(p[1..], a, b);
      assert (p + a)[1..] == p[1..] + a && (p + b)[1..] == p[1..] + b;
    }
  }

  function Digit(d: nat): char
    requires d < 10
  {
    ['0', '1', '2', '3', '4', '5', '6', '7', '8', '9'][d]
  }

  function Decimal(n: nat): string {
    if n < 10 then [Digit(n)] else Decimal(n / 10) + [Digit(n % 10)]
  }

  /** A number with at least three digits. */
  function Padded(n: nat): string {
    if n < 1000 then [Digit(n / 100), Digit(n / 10 % 10), Digit(n % 10)] else Decimal(n)
  }

  function DataName(n: nat): string { "data." + Padded(n) + ".mmap" }

  lemma DigitsOrdered(c: nat, d: nat)
    requires c < 10 && d < 10
    ensures Digit(c) < Digit(d) <==> c < d
    ensures Digit(c) == Digit(d) <==> c == d
  {
  }

  lemma TailLess(x: char, y: char, s: string, t: string)
    ensures StrLess([x] + s, [y] + t) <==> x < y || (x == y && StrLess(s, t))
  {
    assert ([x] + s)[1..] == s && ([y] + t)[1..] == t;
  }

  lemma {:induction false} NotLessItself(a: string)
    ensures !StrLess(a, a)
    decreases |a|
  {
    if a != [] {
      NotLessItself(a[1..]);
    }
  }

  lemma PaddedOrder(i: nat, j: nat, end: string)
    requires i < 1000 && j < 1000
    ensures StrLess(Padded(i) + end, Padded(j) + end) <==> i < j
  {
    var a, b, c := Digit(i / 100), Digit(i / 10 % 10), Digit(i % 10);
    var x, y, z := Digit(j / 100), Digit(j / 10 % 10), Digit(j % 10);
    assert Padded(i) + end == [a] + ([b] + ([c] + end)) && Padded(j) + end == [x] + ([y] + ([z] + end));
    TailLess(a, x, [b] + ([c] + end), [y] + ([z] + end));
    TailLess(b, y, [c] + end, [z] + end);
    TailLess(c, z, end, end);
    NotLessItself(end);
    DigitsOrdered(i / 100, j / 100);
    DigitsOrdered(i / 10 % 10, j / 10 % 10);
    DigitsOrdered(i % 10, j % 10);
    ThreeDigits(i);
    ThreeDigits(j);
    DigitByDigit(i, i / 100, i / 10 % 10, i % 10, j, j / 100, j / 10 % 10, j % 10);
  }

  lemma ThreeDigits(n: nat)
    ensures n == 100 * (n / 100) + 10 * (n / 10 % 10) + n % 10
  {
  }

  lemma DigitByDigit(i: nat, a: nat, b: nat, c: nat, j: nat, x: nat, y: nat, z: nat)
    requires i == 100 * a + 10 * b + c && j == 100 * x + 10 * y + z && b < 10 && c < 10 && y < 10 && z < 10
    ensures i < j <==> a < x || (a == x && (b < y || (b == y && c < z)))
  {
  }

  /** Below 1000 files, the order of the names is the order of the numbers. */
  lemma NamesOrdered(i: nat, j: nat)
    requires i < 1000 && j < 1000
    ensures StrLess(DataName(i), DataName(j)) <==> i < j
  {
    assert DataName(i) == "data." + (Padded(i) + ".mmap") && DataName(j) == "data." + (Padded(j) + ".mmap");
    SharedPrefix("data.", Padded(i) + ".mmap", Padded(j) + ".mmap");
    PaddedOrder(i, j, ".mmap");
  }

  /** From 1000 files on it is not. */
  lemma ThousandSortsEarly()
    ensures StrLess(DataName(1000), DataName(999))
  {
    assert Decimal(1) == "1" && Decimal(10) == "10" && Decimal(100) == "100" && Decimal(1000) == "1000";
    var s, t := "000.mmap", "99.mmap";
    assert DataName(1000) == "data." + (['1'] + s) && DataName(999) == "data." + (['9'] + t);
    SharedPrefix("data.", ['1'] + s, ['9'] + t);
    TailLess('1', '9', s, t);
  }

  // ----- listings

  ghost predicate Sorted(names: seq<string>) {
    forall i, j :: 0 <= i < j < |names| ==> StrLess(names[i], names[j])
  }

  ghost predicate SameNames(xs: seq<string>, ys: seq<string>) {
    forall n :: n in xs <==> n in ys
  }

  lemma SameHead(xs: seq<string>, ys: seq<string>)
    requires Sorted(xs) && Sorted(ys) && SameNames(xs, ys) && xs != [] && ys != []
    ensures xs[0] == ys[0]
  {
    assert xs[0] in xs && ys[0] in ys;
    var j :| 0 <= j < |ys| && ys[j] == xs[0];
    var k :| 0 <= k < |xs| && xs[k] == ys[0];
    if j > 0 && k > 0 {
      StrLessAsymmetric(xs[0], ys[0]);
    }
  }

  lemma NotInTail(xs: seq<string>)
    requires Sorted(xs) && xs != []
    ensures xs[0] !in xs[1..]
  {
    NotLessItself(xs[0]);
    forall i | 0 <= i < |xs[1..]|
      ensures xs[1..][i] != xs[0]
    {
      assert StrLess(xs[0], xs[i + 1]);
    }
  }

  lemma SomeName(xs: seq<string>)
    requires xs != []
    ensures exists n :: n in xs
  {
    assert xs[0] in xs;
  }

  /** A set of names has one sorted listing. */
  lemma {:induction false} SortedIsUnique(xs: seq<string>, ys: seq<string>)
    requires Sorted(xs) && Sorted(ys) && SameNames(xs, ys)
    ensures xs == ys
    decreases |xs|
  {
    if xs == [] {
      if ys != [] {
        SomeName(ys);
      }
    } else {
      assert xs[0] in ys;
      SameHead(xs, ys);
      NotInTail(xs);
      NotInTail(ys);
      forall n
        ensures n in xs[1..] <==> n in ys[1..]
      {
        assert n in xs <==> n == xs[0] || n in xs[1..];
        assert n in ys <==> n == ys[0] || n in ys[1..];
      }
      SortedIsUnique(xs[1..], ys[1..]);
    }
  }

  function Names(n: nat): (r: seq<string>)
    ensures |r| == n && forall i :: 0 <= i < n ==> r[i] == DataName(i)
  {
    seq(n, i requires 0 <= i < n => DataName(i))
  }

  /** The sorted listing of up to 1000 data files gives them in the order of their creation. */
  lemma ListingInOrder(listing: seq<string>, n: nat)
    requires n <= 1000 && Sorted(listing) && SameNames(listing, Names(n))
    ensures listing == Names(n)
  {
    forall i, j | 0 <= i < j < n ensures StrLess(Names(n)[i], Names(n)[j]) { NamesOrdered(i, j); }
    SortedIsUnique(listing, Names(n));
  }

  /** Exactly up to 1000 files are the names sorted by number. */
  lemma SortedUpToThousand(n: nat)
    ensures Sorted(Names(n)) <==> n <= 1000
  {
    if n <= 1000 {
      forall i, j | 0 <= i < j < n ensures StrLess(Names(n)[i], Names(n)[j]) { NamesOrdered(i, j); }
    } else {
      ThousandSortsEarly();
      StrLessAsymmetric(DataName(1000), DataName(999));
      assert !StrLess(Names(n)[999], Names(n)[1000]);
    }
  }
}
