/** The prime numbers of the hash table: the test, the table, and why a probe in steps of any length goes
    through all the slots when their number is prime. */
module Primes {
  import opened Basics

  ghost predicate Prime(n: nat) { n >= 2 && forall d :: 2 <= d < n ==> !Divides(d, n) }

  predicate Divides(d: nat, n: nat)
    requires d > 0
  {
    n % d == 0
  }

  /** sqrt, rounded down, which is exact for numbers of 32 bits. */
  function Sqrt(n: nat): (r: nat)
    ensures r * r <= n < (r + 1) * (r + 1)
  {
    if n == 0 then 0 else
      var r := Sqrt(n - 1);
      if (r + 1) * (r + 1) <= n then r + 1 else r
  }

  /** A number that is not prime has a divisor no greater than its root. */
  lemma SmallDivisor(n: nat, d: nat) returns (e: nat)
    requires 2 <= d < n && Divides(d, n)
    ensures 2 <= e <= Sqrt(n) && Divides(e, n)
  {
    var q := n / d;
    assert n == d * q;
    if d <= Sqrt(n) {
      e := d;
    } else {
      e := q;
      Cofactor(n, d, q);
    }
  }

  lemma Cofactor(n: nat, d: nat, q: nat)
    requires n == d * q && Sqrt(n) < d < n
    ensures 2 <= q <= Sqrt(n) && Divides(q, n)
  {
    var r := Sqrt(n);
    if q > r {
      Grow(r + 1, d, r + 1, q);
    }
    assert d * 0 == 0 && d * 1 == d;
    assert q != 0 && q != 1;
    Multiple(q, d);
    assert q * d == n;
  }

  lemma Grow(a: nat, b: nat, c: nat, d: nat)
    requires a <= b && c <= d
    ensures a * c <= b * d
  {
    assert a * c <= b * c;
    assert b * c <= b * d;
  }

  /** A quotient and a remainder are what the division gives. */
  lemma DivisionIs(x: int, p: nat, q: int, m: nat)
    requires m < p && x == p * q + m
    ensures x / p == q && x % p == m
  {
    var k := q - x / p;
    assert p * k == x % p - m;
    if k >= 1 {
      Scale(p, 1, k);
    } else if k <= -1 {
      Scale(p, k, -1);
    }
  }

  lemma Scale(p: nat, a: int, b: int)
    requires a <= b
    ensures p * a <= p * b
  {
    assert p * (b - a) >= 0;
  }

  lemma Multiple(p: nat, t: int)
    requires p > 0
    ensures (p * t) % p == 0
  {
    DivisionIs(p * t, p, t, 0);
  }

  lemma EvenDivisor(e: nat, n: nat)
    requires e > 0 && Divides(e, n) && e % 2 == 0
    ensures n % 2 == 0
  {
    var q := n / e;
    assert n == e * q == 2 * (e / 2) * q;
    assert n == 2 * (e / 2 * q);
  }

  /** Nothing from two up to a number divides n. */
  ghost predicate NoneBelow(n: nat, i: nat) { forall e :: 2 <= e < i ==> !Divides(e, n) }

  /** IsPrime: exact but for the number one, which it takes for a prime. */
  method IsPrime(val: nat) returns (r: bool)
    ensures r <==> Prime(val) || val == 1
  {
    hide Prime, Sqrt, NoneBelow;
    if val % 2 == 0 {
      EvenPrime(val);
      return val == 2;
    }
    var num := Sqrt(val);
    var i := 3;
    TwoAndOn(val, 1);
    while i <= num
      invariant i >= 3 && i % 2 == 1 && NoneBelow(val, i)
    {
      RootLess(val);
      if val % i == 0 {
        NotPrime(val, i);
        return false;
      }
      TwoAndOn(val, i);
      i := i + 2;
    }
    NoDivisor(val, i);
    return true;
  }

  lemma EvenPrime(n: nat)
    requires n % 2 == 0
    ensures Prime(n) <==> n == 2
  {
    assert n > 2 ==> Divides(2, n);
  }

  lemma NotPrime(n: nat, i: nat)
    requires 2 <= i < n && n % i == 0
    ensures !Prime(n) && n != 1
  {
    assert Divides(i, n);
  }

  /** An odd number has no even divisor, so two more are out. */
  lemma TwoAndOn(n: nat, i: nat)
    requires n % 2 == 1 && i % 2 == 1 && (i == 1 || (n % i != 0 && NoneBelow(n, i)))
    ensures NoneBelow(n, i + 2)
  {
    forall e | 2 <= e < i + 2 ensures !Divides(e, n) {
      if e == i + 1 && Divides(e, n) {
        EvenDivisor(e, n);
      }
    }
  }

  lemma RootLess(n: nat)
    ensures n >= 3 ==> Sqrt(n) < n
    ensures n < 3 ==> Sqrt(n) < 3
  {
    var r := Sqrt(n);
    if r >= 3 {
      Grow(3, r, r, r);
    }
  }

  lemma NoDivisor(n: nat, i: nat)
    requires n % 2 == 1 && i > Sqrt(n) && i >= 3
    requires NoneBelow(n, i)
    ensures Prime(n) || n == 1
  {
    forall d | 2 <= d < n ensures !Divides(d, n) {
      if Divides(d, n) {
        var e := SmallDivisor(n, d);
      }
    }
  }

  /** The slot of probe i: each probe goes on by the same number of slots. */
  function Probe(c: nat, incr: nat, count: nat, i: nat): (s: nat)
    requires c < count
    ensures s < count
  {
    if i == 0 then c else (Probe(c, incr, count, i - 1) + incr) % count
  }

  lemma {:induction false} ProbeSum(c: nat, incr: nat, count: nat, i: nat)
    requires c < count
    ensures Probe(c, incr, count, i) == (c + i * incr) % count
  {
    if i == 0 {
      DivisionIs(c, count, 0, c);
    } else {
      ProbeSum(c, incr, count, i - 1);
      OneMore(c, incr, i);
      ModAdd(c + (i - 1) * incr, incr, count);
    }
  }

  lemma OneMore(c: nat, incr: nat, i: nat)
    requires i > 0
    ensures c + (i - 1) * incr + incr == c + i * incr
  {
  }

  lemma ModAdd(x: nat, d: nat, p: nat)
    requires p > 0
    ensures (x % p + d) % p == (x + d) % p
  {
    var y := x % p + d;
    var q, m := y / p, y % p;
    assert x + d == p * (x / p) + y;
    assert y == p * q + m;
    assert p * (x / p) + p * q == p * (x / p + q);
    DivisionIs(x + d, p, x / p + q, m);
  }

  lemma SameMod(x: nat, y: nat, p: nat)
    requires p > 0 && x % p == y % p
    ensures (y - x) % p == 0
  {
    assert x == p * (x / p) + x % p && y == p * (y / p) + y % p;
    assert y - x == p * (y / p - x / p);
    Multiple(p, y / p - x / p);
  }

  /** The least multiple of a from m on that p divides. */
  ghost function Least(p: nat, a: nat, m: nat): (r: nat)
    requires 0 < m <= p
    ensures m <= r <= p && (r * a) % p == 0
    ensures forall k :: m <= k < r ==> Times(k, a) % p != 0
    decreases p - m
  {
    if Times(m, a) % p == 0 then m
    else if m == p then
      Multiple(p, a);
      m
    else Least(p, a, m + 1)
  }

  function Times(k: nat, a: nat): nat { k * a }

  /** A prime does not divide the product of two numbers below it. */
  lemma {:induction false} NotDivided(p: nat, a: nat, k: nat)
    requires Prime(p) && 0 < a < p && 0 < k < p
    ensures (k * a) % p != 0
  {
    var r := Least(p, a, 1);
    LeastDivides(p, a, r);
    DivisionIs(a, p, 0, a);
    assert Divides(r, p);
    assert r == p;
    assert Times(k, a) % p != 0;
  }

  lemma {:induction false} LeastDivides(p: nat, a: nat, r: nat)
    requires 0 < r <= p && (r * a) % p == 0
    requires forall k :: 1 <= k < r ==> Times(k, a) % p != 0
    ensures p % r == 0
  {
    var q, s, u := p / r, p % r, r * a / p;
    assert r * a == p * u;
    assert p == r * q + s;
    assert s * a == p * a - q * (r * a) == p * (a - q * u) by { Expand(p, r, q, s, a, u); }
    Multiple(p, a - q * u);
    assert Times(s, a) % p == 0;
  }

  lemma Expand(p: nat, r: nat, q: nat, s: nat, a: nat, u: nat)
    requires p == r * q + s && r * a == p * u
    ensures s * a == p * a - q * (r * a)
    ensures p * a - q * (r * a) == p * (a - q * u)
  {
    assert p * a == (r * q + s) * a == r * q * a + s * a;
    assert r * q * a == q * (r * a);
    assert q * (p * u) == p * (q * u);
    assert p * (a - q * u) == p * a - p * (q * u);
  }

  lemma Apart(c: nat, incr: nat, i: nat, j: nat)
    ensures (c + j * incr) - (c + i * incr) == (j - i) * incr
  {
  }

  /** Different probes go to different slots. */
  lemma {:induction false} ProbesDiffer(c: nat, incr: nat, p: nat, i: nat, j: nat)
    requires Prime(p) && c < p && 0 < incr < p && i < j < p
    ensures Probe(c, incr, p, i) != Probe(c, incr, p, j)
  {
    ProbeSum(c, incr, p, i);
    ProbeSum(c, incr, p, j);
    NotDivided(p, incr, j - i);
    var x, y := c + i * incr, c + j * incr;
    Apart(c, incr, i, j);
    if x % p == y % p {
      SameMod(x, y, p);
    }
  }

  lemma {:induction false} Slots(n: nat) returns (s: set<nat>)
    ensures |s| == n && forall k: nat :: k in s <==> k < n
  {
    if n == 0 {
      s := {};
    } else {
      var t := Slots(n - 1);
      s := t + {n - 1};
    }
  }

  /** The slots of the first n probes. */
  lemma {:induction false} Visited(c: nat, incr: nat, p: nat, n: nat) returns (s: set<nat>)
    requires Prime(p) && c < p && 0 < incr < p && n <= p
    ensures |s| == n
    ensures forall k :: k in s <==> IsVisited(c, incr, p, n, k)
  {
    if n == 0 {
      s := {};
    } else {
      var t := Visited(c, incr, p, n - 1);
      var k := Probe(c, incr, p, n - 1);
      if k in t {
        var i :| 0 <= i < n - 1 && Probe(c, incr, p, i) == k;
        ProbesDiffer(c, incr, p, i, n - 1);
      }
      s := t + {k};
      forall x ensures x in s <==> IsVisited(c, incr, p, n, x) {
        assert x in t <==> IsVisited(c, incr, p, n - 1, x);
      }
    }
  }

  ghost predicate IsVisited(c: nat, incr: nat, p: nat, n: nat, k: nat)
    requires c < p
  {
    exists i :: 0 <= i < n && Probe(c, incr, p, i) == k
  }

  /** With a prime number of slots, the probes go through every one of them, once each. */
  lemma {:induction false} VisitsAll(c: nat, incr: nat, p: nat, k: nat)
    requires Prime(p) && c < p && 0 < incr < p && k < p
    ensures IsVisited(c, incr, p, p, k)
  {
    var s := Visited(c, incr, p, p);
    var all := Slots(p);
    assert s <= all;
    if k !in s {
      assert s <= all - {k};
      SubsetSize(s, all - {k});
    }
  }

  const MAX_INDEX: nat := 0x7fff_ffff

  /** The table of GetPrime, in three parts. */
  const SMALL: seq<nat> := [
    3, 7, 11, 0x11, 0x17, 0x1d, 0x25, 0x2f, 0x3b, 0x47, 0x59, 0x6b,
    0x83, 0xa3, 0xc5, 0xef, 0x125, 0x161, 0x1af, 0x209, 0x277, 0x2f9, 0x397, 0x44f]

  const MIDDLE: seq<nat> := [
    0x52f, 0x63d, 0x78b, 0x91d, 0xaf1, 0xd2b, 0xfd1, 0x12fd, 0x16cf, 0x1b65, 0x20e3, 0x2777,
    0x2f6f, 0x38ff, 0x446f, 0x521f, 0x628d, 0x7655, 0x8e01, 0xaa6b, 0xcc89, 0xf583, 0x126a7, 0x1619b]

  const LARGE: seq<nat> := [
    0x1a857, 0x1fd3b, 0x26315, 0x2dd67, 0x3701b, 0x42023, 0x4f361, 0x5f0ed, 0x72125, 0x88e31, 0xa443b, 0xc51eb,
    0xec8c1, 0x11bdbf, 0x154a3f, 0x198c4f, 0x1ea867, 0x24ca19, 0x2c25c1, 0x34fa1b, 0x3f928f, 0x4c4987,
    0x5b8b6f, 0x6dda89]

  const PRIMES: seq<nat> := SMALL + MIDDLE + LARGE

  // ----- the members of the table are prime

  /** None of the thirty odd numbers from d on divides n. */
  predicate OddRow(n: nat, d: nat)
    requires d > 0
  {
    n % d != 0 && n % (d + 2) != 0 && n % (d + 4) != 0 && n % (d + 6) != 0 && n % (d + 8) != 0 &&
    n % (d + 10) != 0 && n % (d + 12) != 0 && n % (d + 14) != 0 && n % (d + 16) != 0 && n % (d + 18) != 0 &&
    n % (d + 20) != 0 && n % (d + 22) != 0 && n % (d + 24) != 0 && n % (d + 26) != 0 && n % (d + 28) != 0 &&
    n % (d + 30) != 0 && n % (d + 32) != 0 && n % (d + 34) != 0 && n % (d + 36) != 0 && n % (d + 38) != 0 &&
    n % (d + 40) != 0 && n % (d + 42) != 0 && n % (d + 44) != 0 && n % (d + 46) != 0 && n % (d + 48) != 0 &&
    n % (d + 50) != 0 && n % (d + 52) != 0 && n % (d + 54) != 0 && n % (d + 56) != 0 && n % (d + 58) != 0
  }

  lemma {:induction false} RowNext(n: nat, d: nat)
    requires n % 2 == 1 && d % 2 == 1 && d >= 3 && NoneBelow(n, d) && OddRow(n, d)
    ensures NoneBelow(n, d + 60)
  {
    hide NoneBelow;
    TwoAndOn(n, d); TwoAndOn(n, d + 2); TwoAndOn(n, d + 4); TwoAndOn(n, d + 6); TwoAndOn(n, d + 8);
    TwoAndOn(n, d + 10); TwoAndOn(n, d + 12); TwoAndOn(n, d + 14); TwoAndOn(n, d + 16); TwoAndOn(n, d + 18);
    TwoAndOn(n, d + 20); TwoAndOn(n, d + 22); TwoAndOn(n, d + 24); TwoAndOn(n, d + 26); TwoAndOn(n, d + 28);
    TwoAndOn(n, d + 30); TwoAndOn(n, d + 32); TwoAndOn(n, d + 34); TwoAndOn(n, d + 36); TwoAndOn(n, d + 38);
    TwoAndOn(n, d + 40); TwoAndOn(n, d + 42); TwoAndOn(n, d + 44); TwoAndOn(n, d + 46); TwoAndOn(n, d + 48);
    TwoAndOn(n, d + 50); TwoAndOn(n, d + 52); TwoAndOn(n, d + 54); TwoAndOn(n, d + 56); TwoAndOn(n, d + 58);
  }

  /** The product of the members above 2683. No number up to 2683 divides it. */
  const WHOLE: nat :=
    0x28c7e3dcbd300a1c0fca1731b531f0a487c1302f89de8943dd20b8873e4c032c187573954fa54a7221de0b56b958f27bd315f7842371fe8738047569828d2dd45110e1f3779e5cb928ea093b453513919134813eea993ebeee5b31a46aa5f

  lemma {:induction false} Whole1()
    ensures NoneBelow(WHOLE, 543)
  {
    hide NoneBelow;
    TwoAndOn(WHOLE, 1);
    assert NoneBelow(WHOLE, 63) by { RowNext(WHOLE, 3); }
    assert NoneBelow(WHOLE, 123) by { RowNext(WHOLE, 63); }
    assert NoneBelow(WHOLE, 183) by { RowNext(WHOLE, 123); }
    assert NoneBelow(WHOLE, 243) by { RowNext(WHOLE, 183); }
    assert NoneBelow(WHOLE, 303) by { RowNext(WHOLE, 243); }
    assert NoneBelow(WHOLE, 363) by { RowNext(WHOLE, 303); }
    assert NoneBelow(WHOLE, 423) by { RowNext(WHOLE, 363); }
    assert NoneBelow(WHOLE, 483) by { RowNext(WHOLE, 423); }
    assert NoneBelow(WHOLE, 543) by { RowNext(WHOLE, 483); }
  }

  lemma {:induction false} Whole2()
    requires NoneBelow(WHOLE, 543)
    ensures NoneBelow(WHOLE, 1083)
  {
    hide NoneBelow;
    assert NoneBelow(WHOLE, 603) by { RowNext(WHOLE, 543); }
    assert NoneBelow(WHOLE, 663) by { RowNext(WHOLE, 603); }
    assert NoneBelow(WHOLE, 723) by { RowNext(WHOLE, 663); }
    assert NoneBelow(WHOLE, 783) by { RowNext(WHOLE, 723); }
    assert NoneBelow(WHOLE, 843) by { RowNext(WHOLE, 783); }
    assert NoneBelow(WHOLE, 903) by { RowNext(WHOLE, 843); }
    assert NoneBelow(WHOLE, 963) by { RowNext(WHOLE, 903); }
    assert NoneBelow(WHOLE, 1023) by { RowNext(WHOLE, 963); }
    assert NoneBelow(WHOLE, 1083) by { RowNext(WHOLE, 1023); }
  }

  lemma {:induction false} Whole3()
    requires NoneBelow(WHOLE, 1083)
    ensures NoneBelow(WHOLE, 1623)
  {
    hide NoneBelow;
    assert NoneBelow(WHOLE, 1143) by { RowNext(WHOLE, 1083); }
    assert NoneBelow(WHOLE, 1203) by { RowNext(WHOLE, 1143); }
    assert NoneBelow(WHOLE, 1263) by { RowNext(WHOLE, 1203); }
    assert NoneBelow(WHOLE, 1323) by { RowNext(WHOLE, 1263); }
    assert NoneBelow(WHOLE, 1383) by { RowNext(WHOLE, 1323); }
    assert NoneBelow(WHOLE, 1443) by { RowNext(WHOLE, 1383); }
    assert NoneBelow(WHOLE, 1503) by { RowNext(WHOLE, 1443); }
    assert NoneBelow(WHOLE, 1563) by { RowNext(WHOLE, 1503); }
    assert NoneBelow(WHOLE, 1623) by { RowNext(WHOLE, 1563); }
  }

  lemma {:induction false} Whole4()
    requires NoneBelow(WHOLE, 1623)
    ensures NoneBelow(WHOLE, 2163)
  {
    hide NoneBelow;
    assert NoneBelow(WHOLE, 1683) by { RowNext(WHOLE, 1623); }
    assert NoneBelow(WHOLE, 1743) by { RowNext(WHOLE, 1683); }
    assert NoneBelow(WHOLE, 1803) by { RowNext(WHOLE, 1743); }
    assert NoneBelow(WHOLE, 1863) by { RowNext(WHOLE, 1803); }
    assert NoneBelow(WHOLE, 1923) by { RowNext(WHOLE, 1863); }
    assert NoneBelow(WHOLE, 1983) by { RowNext(WHOLE, 1923); }
    assert NoneBelow(WHOLE, 2043) by { RowNext(WHOLE, 1983); }
    assert NoneBelow(WHOLE, 2103) by { RowNext(WHOLE, 2043); }
    assert NoneBelow(WHOLE, 2163) by { RowNext(WHOLE, 2103); }
  }

  lemma {:induction false} Whole5()
    requires NoneBelow(WHOLE, 2163)
    ensures NoneBelow(WHOLE, 2703)
  {
    hide NoneBelow;
    assert NoneBelow(WHOLE, 2223) by { RowNext(WHOLE, 2163); }
    assert NoneBelow(WHOLE, 2283) by { RowNext(WHOLE, 2223); }
    assert NoneBelow(WHOLE, 2343) by { RowNext(WHOLE, 2283); }
    assert NoneBelow(WHOLE, 2403) by { RowNext(WHOLE, 2343); }
    assert NoneBelow(WHOLE, 2463) by { RowNext(WHOLE, 2403); }
    assert NoneBelow(WHOLE, 2523) by { RowNext(WHOLE, 2463); }
    assert NoneBelow(WHOLE, 2583) by { RowNext(WHOLE, 2523); }
    assert NoneBelow(WHOLE, 2643) by { RowNext(WHOLE, 2583); }
    assert NoneBelow(WHOLE, 2703) by { RowNext(WHOLE, 2643); }
  }

  lemma MembersDivide()
    ensures forall i :: 4 <= i < 24 ==> Divides(MIDDLE[i], WHOLE)
    ensures forall i :: 0 <= i < 24 ==> Divides(LARGE[i], WHOLE)
  {
    assert WHOLE % 0xaf1 == 0 && WHOLE % 0xd2b == 0 && WHOLE % 0xfd1 == 0 && WHOLE % 0x12fd == 0 &&
           WHOLE % 0x16cf == 0 && WHOLE % 0x1b65 == 0 && WHOLE % 0x20e3 == 0 && WHOLE % 0x2777 == 0 &&
           WHOLE % 0x2f6f == 0 &&
           WHOLE % 0x38ff == 0 && WHOLE % 0x446f == 0 && WHOLE % 0x521f == 0 && WHOLE % 0x628d == 0 &&
           WHOLE % 0x7655 == 0 && WHOLE % 0x8e01 == 0 && WHOLE % 0xaa6b == 0 && WHOLE % 0xcc89 == 0 &&
           WHOLE % 0xf583 == 0 && WHOLE % 0x126a7 == 0 && WHOLE % 0x1619b == 0;
    assert WHOLE % 0x1a857 == 0 && WHOLE % 0x1fd3b == 0 && WHOLE % 0x26315 == 0 && WHOLE % 0x2dd67 == 0 &&
           WHOLE % 0x3701b == 0 && WHOLE % 0x42023 == 0 && WHOLE % 0x4f361 == 0 && WHOLE % 0x5f0ed == 0 &&
           WHOLE % 0x72125 == 0 && WHOLE % 0x88e31 == 0 && WHOLE % 0xa443b == 0 && WHOLE % 0xc51eb == 0 &&
           WHOLE % 0xec8c1 == 0 && WHOLE % 0x11bdbf == 0 && WHOLE % 0x154a3f == 0 && WHOLE % 0x198c4f == 0 &&
           WHOLE % 0x1ea867 == 0 && WHOLE % 0x24ca19 == 0 && WHOLE % 0x2c25c1 == 0 && WHOLE % 0x34fa1b == 0 &&
           WHOLE % 0x3f928f == 0 && WHOLE % 0x4c4987 == 0 && WHOLE % 0x5b8b6f == 0 && WHOLE % 0x6dda89 == 0;
  }

  lemma DividesOn(e: nat, p: nat, w: nat)
    requires e > 0 && p > 0 && Divides(e, p) && Divides(p, w)
    ensures Divides(e, w)
  {
    var k, m := p / e, w / p;
    assert p == e * k && w == p * m;
    assert w == e * (k * m);
    Multiple(e, k * m);
  }

  /** A member above 2683 is prime: its root is no greater than that. */
  lemma {:induction false} LargePrime(p: nat)
    requires 2683 < p < 2684 * 2684 && Divides(p, WHOLE)
    ensures Prime(p)
  {
    Whole1();
    Whole2();
    Whole3();
    Whole4();
    Whole5();
    forall d | 2 <= d < p ensures !Divides(d, p) {
      if Divides(d, p) {
        var e := SmallDivisor(p, d);
        if e > 2683 { Grow(2684, e, 2684, e); }
        DividesOn(e, p, WHOLE);
      }
    }
  }

  /** A smaller one is tried as it is. */
  lemma {:induction false} MiddlePrime(p: nat)
    requires p % 2 == 1 && 63 < p < 63 * 63 && OddRow(p, 3)
    ensures Prime(p)
  {
    TwoAndOn(p, 1);
    RowNext(p, 3);
    if Sqrt(p) >= 63 { Grow(63, Sqrt(p), 63, Sqrt(p)); }
    NoDivisor(p, 63);
  }

  lemma {:induction false} SmallPrime(p: nat)
    requires p in {3, 7} || (p % 2 == 1 && 7 < p < 81 && p % 3 != 0 && p % 5 != 0 && p % 7 != 0)
    ensures Prime(p)
  {
    TwoAndOn(p, 1);
    if p > 3 { TwoAndOn(p, 3); }
    if p > 7 {
      TwoAndOn(p, 5);
      TwoAndOn(p, 7);
    }
    var i := if p == 3 then 3 else if p == 7 then 5 else 9;
    if Sqrt(p) >= i { Grow(i, Sqrt(p), i, Sqrt(p)); }
    NoDivisor(p, i);
  }

  lemma {:induction false} SmallPrimes()
    ensures forall i :: 0 <= i < 24 ==> Prime(SMALL[i])
    ensures forall i :: 0 <= i < 4 ==> Prime(MIDDLE[i])
  {
    hide Prime;
    SmallPrime(3); SmallPrime(7); SmallPrime(11); SmallPrime(0x11); SmallPrime(0x17); SmallPrime(0x1d);
    SmallPrime(0x25); SmallPrime(0x2f); SmallPrime(0x3b);
    MiddlePrime(0x47); MiddlePrime(0x59); MiddlePrime(0x6b); MiddlePrime(0x83); MiddlePrime(0xa3);
    MiddlePrime(0xc5); MiddlePrime(0xef); MiddlePrime(0x125); MiddlePrime(0x161); MiddlePrime(0x1af);
    MiddlePrime(0x209); MiddlePrime(0x277); MiddlePrime(0x2f9); MiddlePrime(0x397); MiddlePrime(0x44f);
    MiddlePrime(0x52f); MiddlePrime(0x63d); MiddlePrime(0x78b); MiddlePrime(0x91d);
  }

  /** Every member of the table is prime. */
  lemma {:induction false} TablePrime(i: nat)
    requires i < |PRIMES|
    ensures Prime(PRIMES[i])
  {
    SmallPrimes();
    MembersDivide();
    LargeMembers();
    assert PRIMES[i] == if i < 24 then SMALL[i] else if i < 48 then MIDDLE[i - 24] else LARGE[i - 48];
    if i >= 28 { LargePrime(PRIMES[i]); }
  }

  lemma LargeMembers()
    ensures forall i :: 4 <= i < 24 ==> 2683 < MIDDLE[i] < 2684 * 2684
    ensures forall i :: 0 <= i < 24 ==> 2683 < LARGE[i] < 2684 * 2684
  {
  }

  ghost predicate Rising(s: seq<nat>) { forall i :: 0 <= i < |s| - 1 ==> s[i] < s[i + 1] }

  lemma PartsRise()
    ensures Rising(SMALL) && Rising(MIDDLE) && Rising(LARGE)
  {
  }

  lemma {:induction false} Joined(a: seq<nat>, b: seq<nat>)
    requires Rising(a) && Rising(b) && a != [] && b != [] && a[|a| - 1] < b[0]
    ensures Rising(a + b)
  {
    var s := a + b;
    forall i | 0 <= i < |s| - 1 ensures s[i] < s[i + 1] {
      assert i < |a| - 1 ==> a[i] < a[i + 1];
      assert i >= |a| ==> b[i - |a|] < b[i - |a| + 1];
    }
  }

  lemma TableRises()
    ensures |PRIMES| == 72 && PRIMES[71] == 0x6dda89 && Rising(PRIMES)
  {
    PartsRise();
    Joined(SMALL, MIDDLE);
    assert (SMALL + MIDDLE)[|SMALL + MIDDLE| - 1] == MIDDLE[|MIDDLE| - 1];
    Joined(SMALL + MIDDLE, LARGE);
    assert PRIMES[71] == LARGE[23];
  }

  lemma {:induction false} RisesFar(s: seq<nat>, i: nat, j: nat)
    requires Rising(s) && i < j < |s|
    ensures s[i] < s[j]
    decreases j
  {
    if i < j - 1 {
      RisesFar(s, i, j - 1);
    }
  }

  /** The least member of the table that is not below a number. */
  ghost predicate LeastOf(s: seq<nat>, code: nat, r: nat) {
    r in s && code <= r && forall i :: 0 <= i < |s| && code <= s[i] ==> r <= s[i]
  }

  /** GetPrime. In the range of the table it is the least member, and prime; above it, the least prime, or the
      number itself if there is none below the greatest index. */
  method GetPrime(code: nat) returns (r: nat)
    ensures code < 0x6dda89 ==> LeastOf(PRIMES, code, r) && Prime(r)
    ensures code >= 0x6dda89 ==> forall q :: code <= q < r ==> !Prime(q)
    ensures code >= 0x6dda89 ==> r >= code && ((Prime(r) && r < MAX_INDEX) || (r == code && NoneFrom(code)))
  {
    TableRises();
    hide PRIMES, SMALL, MIDDLE, LARGE, Prime;
    if PRIMES[|PRIMES| - 1] > code {
      r := SearchTable(PRIMES, code);
      ghost var i :| 0 <= i < |PRIMES| && PRIMES[i] == r;
      TablePrime(i);
    } else {
      r := SearchOdd(code);
    }
  }

  /** The binary search. */
  method SearchTable(primes: seq<nat>, code: nat) returns (r: nat)
    requires Rising(primes) && primes != [] && primes[|primes| - 1] > code
    ensures LeastOf(primes, code, r)
  {
    var l, h := 0, |primes| - 1;
    while l < h
      invariant 0 <= l <= h < |primes|
      invariant forall i :: 0 <= i < l ==> primes[i] < code
      invariant code <= primes[h]
    {
      var m := (l + h) / 2;
      var prime := primes[m];
      Around(primes, m);
      if prime < code {
        l := m + 1;
      } else if prime == code {
        return prime;
      } else {
        h := m;
      }
    }
    Around(primes, h);
    return primes[h];
  }

  /** The search beyond the table, through the odd numbers. */
  method SearchOdd(code: nat) returns (r: nat)
    requires code > 2
    ensures forall q :: code <= q < r ==> !Prime(q)
    ensures r >= code && ((Prime(r) && r < MAX_INDEX) || (r == code && NoneFrom(code)))
  {
    hide Prime;
    var i := if code % 2 == 0 then code + 1 else code;
    if code % 2 == 0 {
      EvenPrime(code);
    }
    while i < MAX_INDEX
      invariant i >= code && i % 2 == 1
      invariant forall q :: code <= q < i ==> !Prime(q)
      decreases MAX_INDEX - i
    {
      var p := IsPrime(i);
      if p {
        return i;
      }
      EvenPrime(i + 1);
      i := i + 2;
    }
    return code;
  }

  ghost predicate NoneFrom(code: nat) { forall q :: code <= q < MAX_INDEX ==> !Prime(q) }

  lemma Around(s: seq<nat>, m: nat)
    requires Rising(s) && m < |s|
    ensures forall i :: 0 <= i < m ==> s[i] < s[m]
    ensures forall i :: m < i < |s| ==> s[m] < s[i]
  {
    forall i | 0 <= i < m ensures s[i] < s[m] { RisesFar(s, i, m); }
    forall i | m < i < |s| ensures s[m] < s[i] { RisesFar(s, m, i); }
  }
}
