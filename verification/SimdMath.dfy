/** Arithmetic modulo 257 and the transform the SIMD message expansion computes. */
module SimdMath {

  ghost predicate Cong(a: int, b: int) { (a - b) % 257 == 0 }

  lemma Multiple(t: int)
    ensures (257 * t) % 257 == 0
  {
  }

  /** Congruent numbers differ by a multiple of the modulus. */
  lemma CongWitness(a: int, b: int) returns (t: int)
    requires Cong(a, b)
    ensures a == b + 257 * t
  {
    t := (a - b) / 257;
  }

  lemma CongFrom(a: int, b: int, t: int)
    requires a == b + 257 * t
    ensures Cong(a, b)
  {
    Multiple(t);
  }

  lemma CongRefl(a: int)
    ensures Cong(a, a)
  {
  }

  lemma CongTrans(a: int, b: int, c: int)
    requires Cong(a, b) && Cong(b, c)
    ensures Cong(a, c)
  {
  }

  lemma CongSymm(a: int, b: int)
    requires Cong(a, b)
    ensures Cong(b, a)
  {
  }

  lemma CongAdd(a: int, b: int, c: int, d: int)
    requires Cong(a, b) && Cong(c, d)
    ensures Cong(a + c, b + d) && Cong(a - c, b - d)
  {
  }

  lemma CongMul(a: int, b: int, c: int, d: int)
    requires Cong(a, b) && Cong(c, d)
    ensures Cong(a * c, b * d)
  {
    var s := CongWitness(a, b);
    var t := CongWitness(c, d);
    var w := b * t + s * d + 257 * (s * t);
    assert a * c == b * d + 257 * w by {
      Expand(b, s, d, t);
    }
    CongFrom(a * c, b * d, w);
  }

  lemma Expand(b: int, s: int, d: int, t: int)
    ensures (b + 257 * s) * (d + 257 * t) == b * d + 257 * (b * t + s * d + 257 * (s * t))
  {
  }

  // ---- powers of the primitive root 41 ----

  function Pow(e: nat): int { if e == 0 then 1 else 41 * Pow(e - 1) }

  lemma {:induction false} PowAdd(a: nat, b: nat)
    ensures Pow(a + b) == Pow(a) * Pow(b)
  {
    if a == 0 {
    } else {
      PowAdd(a - 1, b);
      Assoc(41, Pow(a - 1), Pow(b));
    }
  }

  lemma Assoc(x: int, y: int, z: int)
    ensures (x * y) * z == x * (y * z)
  {
  }

  lemma PowDouble(e: nat, r: int)
    requires Cong(Pow(e), r)
    ensures Cong(Pow(2 * e), r * r)
  {
    PowAdd(e, e);
    CongMul(Pow(e), r, Pow(e), r);
  }

  lemma Root16()
    ensures Cong(Pow(16), 2)
  {
    assert Pow(1) == 41;
    assert Pow(2) == 41 * Pow(1) == 1681;
    CongFrom(1681, 139, 6);
    PowDouble(2, 139); CongFrom(139 * 139, 46, 75); CongTrans(Pow(4), 139 * 139, 46);
    PowDouble(4, 46); CongFrom(46 * 46, 60, 8); CongTrans(Pow(8), 46 * 46, 60);
    PowDouble(8, 60); CongFrom(60 * 60, 2, 14); CongTrans(Pow(16), 60 * 60, 2);
  }

  /** 41^128 is -1 and 41^256 is 1. */
  lemma Root256()
    ensures Cong(Pow(32), 4) && Cong(Pow(64), 16) && Cong(Pow(128), -1) && Cong(Pow(256), 1)
  {
    Root16();
    PowDouble(16, 2);
    PowDouble(32, 4);
    PowDouble(64, 16); CongFrom(256, -1, 1); CongTrans(Pow(128), 256, -1);
    PowDouble(128, -1);
  }

  /** Full turns do not matter. */
  lemma {:induction false} PowTurns(n: nat)
    ensures Cong(Pow(256 * n), 1)
  {
    if n > 0 {
      Root256();
      PowTurns(n - 1);
      PowAdd(256 * (n - 1), 256);
      CongMul(Pow(256 * (n - 1)), 1, Pow(256), 1);
    }
  }

  // ---- the transform ----

  /** The sum of y[j] * 41^(e*j*k) over the first `n` inputs. */
  ghost function Sum(y: seq<int>, e: nat, k: nat, n: nat): int
    requires n <= |y|
  {
    if n == 0 then 0 else Sum(y, e, k, n - 1) + y[n - 1] * Pow(e * (n - 1) * k)
  }

  /** Coefficient `k` of the transform of `y` at the root 41^e. */
  ghost function Dft(y: seq<int>, e: nat, k: nat): int { Sum(y, e, k, |y|) }

  /** Every second input, starting with the first or the second. */
  function Half(y: seq<int>, odd: nat): (r: seq<int>)
    requires |y| % 2 == 0 && odd < 2
    ensures |r| == |y| / 2
    ensures forall j :: 0 <= j < |r| ==> r[j] == y[2 * j + odd]
  {
    seq(|y| / 2, j requires 0 <= j < |y| / 2 => y[2 * j + odd])
  }

  /** Decimation in time, exactly and before any reduction. */
  lemma {:induction false} Decimate(y: seq<int>, e: nat, k: nat, n: nat)
    requires |y| % 2 == 0 && 2 * n <= |y|
    ensures Sum(y, e, k, 2 * n) == Sum(Half(y, 0), 2 * e, k, n) + Pow(e * k) * Sum(Half(y, 1), 2 * e, k, n)
  {
    if n > 0 {
      Decimate(y, e, k, n - 1);
      DecimateStep(y, e, k, n - 1, Pow(e * k));
    }
  }

  /** The factor of term `n` of coefficient `k`. */
  function Factor(e: nat, n: nat, k: nat): int { Pow(e * n * k) }

  /** A product kept whole, so that the steps below stay linear. */
  function Times(a: int, b: int): int { a * b }

  lemma DecimateStep(y: seq<int>, e: nat, k: nat, m: nat, w: int)
    requires |y| % 2 == 0 && 2 * m + 2 <= |y| && w == Factor(e, 1, k)
    requires Sum(y, e, k, 2 * m) == Sum(Half(y, 0), 2 * e, k, m) + Times(w, Sum(Half(y, 1), 2 * e, k, m))
    ensures Sum(y, e, k, 2 * (m + 1)) == Sum(Half(y, 0), 2 * e, k, m + 1) + Times(w, Sum(Half(y, 1), 2 * e, k, m + 1))
  {
    hide Pow, Half, Sum, Factor, Times;
    var p := Factor(2 * e, m, k);
    TwoFactors(e, m, k);
    SumStep(y, e, k, 2 * m);
    SumStep(y, e, k, 2 * m + 1);
    SumStep(Half(y, 0), 2 * e, k, m);
    SumStep(Half(y, 1), 2 * e, k, m);
    Regroup(w, Sum(Half(y, 1), 2 * e, k, m), y[2 * m + 1], p);
  }

  lemma TwoFactors(e: nat, m: nat, k: nat)
    ensures Factor(e, 2 * m, k) == Factor(2 * e, m, k)
    ensures Factor(e, 2 * m + 1, k) == Times(Factor(e, 1, k), Factor(2 * e, m, k))
  {
    hide Pow;
    Exponents(e, m, k);
    PowAdd(e * k, 2 * e * m * k);
  }

  lemma SumStep(y: seq<int>, e: nat, k: nat, n: nat)
    requires n < |y|
    ensures Sum(y, e, k, n + 1) == Sum(y, e, k, n) + Times(y[n], Factor(e, n, k))
  {
    hide Pow;
  }

  lemma Regroup(w: int, s: int, b: int, p: int)
    ensures Times(w, s + Times(b, p)) == Times(w, s) + Times(b, Times(w, p))
  {
  }

  lemma Exponents(e: nat, m: nat, k: nat)
    ensures e * (2 * m) * k == 2 * e * m * k
    ensures e * (2 * m + 1) * k == e * k + 2 * e * m * k
  {
    assert e * (2 * m) == 2 * e * m;
    assert e * (2 * m + 1) == 2 * e * m + e;
    assert (2 * e * m + e) * k == 2 * e * m * k + e * k;
  }

  /** A transform at a root of order `h` repeats after `h` coefficients. */
  lemma {:induction false} Periodic(z: seq<int>, e: nat, k: nat, h: nat, n: nat)
    requires e * h == 256 && n <= |z|
    ensures Cong(Sum(z, e, k + h, n), Sum(z, e, k, n))
  {
    if n > 0 {
      var m := n - 1;
      Periodic(z, e, k, h, m);
      assert e * m * (k + h) == e * m * k + 256 * m by { Shift(e, m, k, h); }
      PowAdd(e * m * k, 256 * m);
      PowTurns(m);
      CongRefl(Pow(e * m * k));
      CongMul(Pow(e * m * k), Pow(e * m * k), Pow(256 * m), 1);
      CongRefl(z[m]);
      CongMul(z[m], z[m], Pow(e * m * (k + h)), Pow(e * m * k));
      CongAdd(Sum(z, e, k + h, m), Sum(z, e, k, m), z[m] * Pow(e * m * (k + h)), z[m] * Pow(e * m * k));
    }
  }

  lemma Shift(e: nat, m: nat, k: nat, h: nat)
    requires e * h == 256
    ensures e * m * (k + h) == e * m * k + 256 * m
  {
    assert e * m * (k + h) == e * m * k + e * m * h;
    assert e * m * h == e * h * m;
  }

  /** One butterfly: from coefficient `k` of the two halves to coefficients `k` and `k + h`. */
  lemma Butterfly(y: seq<int>, e: nat, h: nat, k: nat, m: int, n: int, t: int)
    requires |y| % 2 == 0 && e * h == 128
    requires Cong(m, Dft(Half(y, 0), 2 * e, k)) && Cong(n, Dft(Half(y, 1), 2 * e, k))
    requires Cong(t, n * Pow(e * k))
    ensures Cong(m + t, Dft(y, e, k)) && Cong(m - t, Dft(y, e, k + h))
  {
    hide Cong, Pow, Sum;
    var a, b, w := Dft(Half(y, 0), 2 * e, k), Dft(Half(y, 1), 2 * e, k), Pow(e * k);
    Decimate(y, e, k, |y| / 2);
    assert Dft(y, e, k) == a + w * b;
    CongRefl(w);
    CongMul(n, b, w, w);
    CongTrans(t, n * w, b * w);
    CongAdd(m, a, t, b * w);
    UpperHalf(y, e, h, k);
    CongTrans(m - t, a - b * w, Dft(y, e, k + h));
  }

  lemma UpperHalf(y: seq<int>, e: nat, h: nat, k: nat)
    requires |y| % 2 == 0 && e * h == 128
    ensures Cong(Dft(Half(y, 0), 2 * e, k) - Dft(Half(y, 1), 2 * e, k) * Pow(e * k), Dft(y, e, k + h))
  {
    hide Cong, Pow, Sum;
    var a, b, w := Dft(Half(y, 0), 2 * e, k), Dft(Half(y, 1), 2 * e, k), Pow(e * k);
    var a', b', w' := Dft(Half(y, 0), 2 * e, k + h), Dft(Half(y, 1), 2 * e, k + h), Pow(e * (k + h));
    Decimate(y, e, k + h, |y| / 2);
    assert Dft(y, e, k + h) == a' + w' * b';
    HalfTurn(e, h, k);
    Periodic(Half(y, 0), 2 * e, k, h, |y| / 2);
    Periodic(Half(y, 1), 2 * e, k, h, |y| / 2);
    CongMul(w', -w, b', b);
    CongAdd(a', a, w' * b', -w * b);
    Sign(a, b, w);
    CongSymm(a' + w' * b', a - b * w);
  }

  lemma Sign(a: int, b: int, w: int)
    ensures a + -w * b == a - b * w
  {
  }

  lemma HalfTurn(e: nat, h: nat, k: nat)
    requires e * h == 128
    ensures Cong(Pow(e * (k + h)), -Pow(e * k))
  {
    assert e * (k + h) == e * k + 128;
    PowAdd(e * k, 128);
    Root256();
    CongRefl(Pow(e * k));
    CongMul(Pow(e * k), Pow(e * k), Pow(128), -1);
  }
}
