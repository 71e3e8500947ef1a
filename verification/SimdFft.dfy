/** The in-place number-theoretic transform of SIMD, on 32-bit signed integers. */
module SimdFft {
  import opened SimdMath
  import opened SimdTable

  newtype s32 = x: int | -0x8000_0000 <= x < 0x8000_0000

  /** An input byte. */
  type Octet = x: s32 | 0 <= x < 256 witness 0

  // ---- partial reductions ----

  /** (x & 0xFF) - (x >> 8) */
  function Reds1(x: s32): (r: s32)
    ensures Cong(r as int, x as int)
    ensures -32768 <= x <= 98302 ==> -383 <= r <= 383
  {
    CongFrom((x % 256 - x / 256) as int, x as int, -(x as int / 256));
    x % 256 - x / 256
  }

  /** (x & 0xFFFF) + (x >> 16) */
  function Reds2(x: s32): (r: s32)
    ensures Cong(r as int, x as int)
    ensures -32768 <= r <= 98302
  {
    CongFrom((x % 65536 + x / 65536) as int, x as int, -255 * (x as int / 65536));
    x % 65536 + x / 65536
  }

  // ---- ranges and contents of a part of the work array ----

  /** Entry `k` of the part that starts at `rb`. */
  ghost function At(q: seq<s32>, rb: nat, k: nat): int
    requires rb + k < |q|
  {
    q[rb + k] as int
  }

  ghost predicate Within(q: seq<s32>, rb: nat, n: nat, bound: int)
    requires rb + n <= |q|
  {
    forall k :: 0 <= k < n ==> -bound <= At(q, rb, k) <= bound
  }

  /** `q[rb..rb+n]` holds the first `n` coefficients of the transform of `y` at 41^e. */
  ghost predicate Holds(q: seq<s32>, rb: nat, n: nat, y: seq<int>, e: nat)
    requires rb + n <= |q|
  {
    forall k :: 0 <= k < n ==> Cong(At(q, rb, k), Dft(y, e, k))
  }

  // ---- eight points from four inputs ----

  datatype Points = Points(d0: s32, d1: s32, d2: s32, d3: s32, d4: s32, d5: s32, d6: s32, d7: s32)

  function Fft8(x0: Octet, x1: Octet, x2: Octet, x3: Octet): Points
  {
    var a0 := x0 + x2;
    var a1 := x0 + x2 * 16;
    var a2 := x0 - x2;
    var a3 := x0 - x2 * 16;
    var b0 := x1 + x3;
    var b1 := Reds1(x1 * 4 + x3 * 64);
    var b2 := x1 * 16 - x3 * 16;
    var b3 := Reds1(x1 * 64 + x3 * 4);
    Points(a0 + b0, a1 + b1, a2 + b2, a3 + b3, a0 - b0, a1 - b1, a2 - b2, a3 - b3)
  }

  /** The documented ranges of the eight points. */
  ghost predicate Small(p: Points) {
    && 0 <= p.d0 <= 1020 && -67 <= p.d1 <= 4587 && -4335 <= p.d2 <= 4335 && -4147 <= p.d3 <= 507
    && -510 <= p.d4 <= 510 && -252 <= p.d5 <= 4402 && -4335 <= p.d6 <= 4335 && -4332 <= p.d7 <= 322
  }

  /** The output ranges. */
  lemma Fft8Ranges(x0: Octet, x1: Octet, x2: Octet, x3: Octet)
    ensures Small(Fft8(x0, x1, x2, x3))
  {
    hide Reds1, Cong;
    Fours(x1 + x3 * 16);
    Fours(x1 * 16 + x3);
    assert (x1 + x3 * 16) * 4 == x1 * 4 + x3 * 64;
    assert (x1 * 16 + x3) * 4 == x1 * 64 + x3 * 4;
  }

  /** A multiple of four up to 17340 reduces to -67..252. */
  lemma Fours(m: s32)
    requires 0 <= m <= 4335
    ensures -67 <= Reds1(m * 4) <= 252
  {
    assert (m * 4) % 256 == (m % 64) * 4;
    assert (m * 4) / 256 == m / 64;
  }

  lemma PowersOf64(k: nat)
    requires k < 4
    ensures Cong(Pow(64 * k), if k == 0 then 1 else if k == 1 then 16 else if k == 2 then -1 else -16)
    ensures Cong(Pow(32 * k), if k == 0 then 1 else if k == 1 then 4 else if k == 2 then 16 else 64)
  {
    hide Pow;
    Root256();
    PowZero();
    if k == 3 {
      PowAdd(128, 64); CongMul(Pow(128), -1, Pow(64), 16);
      PowAdd(64, 32); CongMul(Pow(64), 16, Pow(32), 4);
    }
  }

  lemma PowZero()
    ensures Pow(0) == 1 && Cong(1, 1)
  {
  }

  /** Two inputs. */
  lemma DftOfTwo(u: int, v: int, k: nat, c: int)
    requires Cong(Pow(64 * k), c)
    ensures Cong(u + v * c, Dft([u, v], 64, k))
  {
    assert Sum([u, v], 64, k, 1) == Sum([u, v], 64, k, 0) + u * Pow(64 * 0 * k);
    assert Sum([u, v], 64, k, 2) == u + v * Pow(64 * 1 * k);
    CongRefl(u);
    CongRefl(v);
    CongSymm(Pow(64 * k), c);
    CongMul(v, v, c, Pow(64 * k));
    CongAdd(u, u, v * c, v * Pow(64 * k));
  }

  /** One butterfly of the eight-point transform. */
  lemma Fft8Step(x0: int, x1: int, x2: int, x3: int, k: nat, c: int, w: int, t: int)
    requires k < 4 && Cong(Pow(64 * k), c) && Cong(Pow(32 * k), w) && Cong(t, (x1 + x3 * c) * w)
    ensures var y := [x0, x1, x2, x3];
      Cong(x0 + x2 * c + t, Dft(y, 32, k)) && Cong(x0 + x2 * c - t, Dft(y, 32, k + 4))
  {
    hide Cong, Pow, Sum;
    var y := [x0, x1, x2, x3];
    assert Half(y, 0) == [x0, x2] && Half(y, 1) == [x1, x3];
    DftOfTwo(x0, x2, k, c);
    DftOfTwo(x1, x3, k, c);
    var n := x1 + x3 * c;
    CongRefl(n);
    CongSymm(Pow(32 * k), w);
    CongMul(n, n, w, Pow(32 * k));
    CongTrans(t, n * w, n * Pow(32 * k));
    Butterfly(y, 32, 4, k, x0 + x2 * c, n, t);
  }

  /** The eight points are the transform of the four inputs at 41^32. */
  lemma Fft8Correct(x0: Octet, x1: Octet, x2: Octet, x3: Octet)
    ensures var p := Fft8(x0, x1, x2, x3);
      var y := [x0 as int, x1 as int, x2 as int, x3 as int];
      && Cong(p.d0 as int, Dft(y, 32, 0)) && Cong(p.d1 as int, Dft(y, 32, 1))
      && Cong(p.d2 as int, Dft(y, 32, 2)) && Cong(p.d3 as int, Dft(y, 32, 3))
      && Cong(p.d4 as int, Dft(y, 32, 4)) && Cong(p.d5 as int, Dft(y, 32, 5))
      && Cong(p.d6 as int, Dft(y, 32, 6)) && Cong(p.d7 as int, Dft(y, 32, 7))
  {
    hide Cong, Pow, Sum, Dft, Reds1;
    var i0, i1, i2, i3 := x0 as int, x1 as int, x2 as int, x3 as int;
    PowersOf64(0); PowersOf64(1); PowersOf64(2); PowersOf64(3);
    CongRefl(i1 + i3);
    Fft8Step(i0, i1, i2, i3, 0, 1, 1, i1 + i3);
    Fft8Step(i0, i1, i2, i3, 1, 16, 4, Reds1(x1 * 4 + x3 * 64) as int);
    CongRefl(i1 * 16 - i3 * 16);
    Fft8Step(i0, i1, i2, i3, 2, -1, 16, i1 * 16 - i3 * 16);
    CongFrom(i1 * 64 + i3 * 4, (i1 + i3 * -16) * 64, 4 * i3);
    CongTrans(Reds1(x1 * 64 + x3 * 4) as int, i1 * 64 + i3 * 4, (i1 + i3 * -16) * 64);
    Fft8Step(i0, i1, i2, i3, 3, -16, 64, Reds1(x1 * 64 + x3 * 4) as int);
  }

  // ---- sixteen points from eight inputs ----

  lemma {:induction false} PowersOf16(k: nat, w: int)
    requires k < 8
    requires w == if k == 0 then 1 else if k == 1 then 2 else if k == 2 then 4 else if k == 3 then 8
                  else if k == 4 then 16 else if k == 5 then 32 else if k == 6 then 64 else 128
    ensures Cong(Pow(16 * k), w)
  {
    hide Pow;
    if k == 0 {
      PowZero();
    } else {
      Root16();
      PowersOf16(k - 1, w / 2);
      PowAdd(16 * (k - 1), 16);
      CongMul(Pow(16 * (k - 1)), w / 2, Pow(16), 2);
    }
  }

  /** One butterfly of the sixteen-point transform: the twiddle factor is a power of two. */
  lemma Fft16Step(y: seq<int>, k: nat, m: int, n: int, w: int)
    requires |y| == 8 && k < 8
    requires w == if k == 0 then 1 else if k == 1 then 2 else if k == 2 then 4 else if k == 3 then 8
                  else if k == 4 then 16 else if k == 5 then 32 else if k == 6 then 64 else 128
    requires Cong(m, Dft(Half(y, 0), 32, k)) && Cong(n, Dft(Half(y, 1), 32, k))
    ensures Cong(m + n * w, Dft(y, 16, k)) && Cong(m - n * w, Dft(y, 16, k + 8))
  {
    hide Cong, Pow, Sum, Dft;
    PowersOf16(k, w);
    CongRefl(n);
    CongSymm(Pow(16 * k), w);
    CongMul(n, n, w, Pow(16 * k));
    Butterfly(y, 16, 8, k, m, n, n * w);
  }

  /** The sixteen outputs, from the eight points of each half. */
  function Values16(d1: Points, d2: Points): (v: seq<int>)
    ensures |v| == 16
  {
    [(d1.d0 as int) + d2.d0 as int, (d1.d1 as int) + d2.d1 as int * 2, (d1.d2 as int) + d2.d2 as int * 4,
     (d1.d3 as int) + d2.d3 as int * 8, (d1.d4 as int) + d2.d4 as int * 16, (d1.d5 as int) + d2.d5 as int * 32,
     (d1.d6 as int) + d2.d6 as int * 64, (d1.d7 as int) + d2.d7 as int * 128,
     (d1.d0 as int) - d2.d0 as int, (d1.d1 as int) - d2.d1 as int * 2, (d1.d2 as int) - d2.d2 as int * 4,
     (d1.d3 as int) - d2.d3 as int * 8, (d1.d4 as int) - d2.d4 as int * 16, (d1.d5 as int) - d2.d5 as int * 32,
     (d1.d6 as int) - d2.d6 as int * 64, (d1.d7 as int) - d2.d7 as int * 128]
  }

  lemma Values16Range(d1: Points, d2: Points, k: nat)
    requires Small(d1) && Small(d2) && k < 16
    ensures -591471 <= Values16(d1, d2)[k] <= 591723
  {
  }

  /** Sixteen points from eight inputs, written to `q[rb..rb+16]`. */
  method Fft16(x: seq<Octet>, xb: nat, xs: nat, q: array<s32>, rb: nat)
    requires xb + 7 * xs < |x| && rb + 16 <= q.Length
    modifies q
    ensures Holds(q[..], rb, 16, Stride(x, xb, xs, 8), 16)
    ensures forall k :: 0 <= k < 16 ==> -591471 <= At(q[..], rb, k) <= 591723
    ensures forall i :: 0 <= i < q.Length && !(rb <= i < rb + 16) ==> q[i] == old(q[i])
  {
    hide Cong, Dft, Fft8, Values16;
    var d1 := Fft8(x[xb], x[xb + 2 * xs], x[xb + 4 * xs], x[xb + 6 * xs]);
    var d2 := Fft8(x[xb + xs], x[xb + 3 * xs], x[xb + 5 * xs], x[xb + 7 * xs]);
    Fft8Ranges(x[xb], x[xb + 2 * xs], x[xb + 4 * xs], x[xb + 6 * xs]);
    Fft8Ranges(x[xb + xs], x[xb + 3 * xs], x[xb + 5 * xs], x[xb + 7 * xs]);
    ghost var y := Stride(x, xb, xs, 8);
    Fft16Store(q, rb, d1, d2);
    forall k | 0 <= k < 16
      ensures Cong(At(q[..], rb, k), Dft(y, 16, k)) && -591471 <= At(q[..], rb, k) <= 591723
    {
      Values16Range(d1, d2, k);
      Fft16Correct(y, x[xb], x[xb + 2 * xs], x[xb + 4 * xs], x[xb + 6 * xs],
                   x[xb + xs], x[xb + 3 * xs], x[xb + 5 * xs], x[xb + 7 * xs], k);
    }
  }

  method Fft16Store(q: array<s32>, rb: nat, d1: Points, d2: Points)
    requires rb + 16 <= q.Length && Small(d1) && Small(d2)
    modifies q
    ensures forall k :: 0 <= k < 16 ==> At(q[..], rb, k) == Values16(d1, d2)[k]
    ensures forall i :: 0 <= i < q.Length && !(rb <= i < rb + 16) ==> q[i] == old(q[i])
  {
    hide Values16, Small;
    StoreSums(q, rb, d1, d2);
    StoreDifferences(q, rb, d1, d2);
  }

  method StoreSums(q: array<s32>, rb: nat, d1: Points, d2: Points)
    requires rb + 16 <= q.Length && Small(d1) && Small(d2)
    modifies q
    ensures forall k :: 0 <= k < 8 ==> At(q[..], rb, k) == Values16(d1, d2)[k]
    ensures forall i :: 0 <= i < q.Length && !(rb <= i < rb + 8) ==> q[i] == old(q[i])
  {
    q[rb + 0] := d1.d0 + d2.d0;
    q[rb + 1] := d1.d1 + d2.d1 * 2;
    q[rb + 2] := d1.d2 + d2.d2 * 4;
    q[rb + 3] := d1.d3 + d2.d3 * 8;
    q[rb + 4] := d1.d4 + d2.d4 * 16;
    q[rb + 5] := d1.d5 + d2.d5 * 32;
    q[rb + 6] := d1.d6 + d2.d6 * 64;
    q[rb + 7] := d1.d7 + d2.d7 * 128;
  }

  method StoreDifferences(q: array<s32>, rb: nat, d1: Points, d2: Points)
    requires rb + 16 <= q.Length && Small(d1) && Small(d2)
    modifies q
    ensures forall k :: 8 <= k < 16 ==> At(q[..], rb, k) == Values16(d1, d2)[k]
    ensures forall i :: 0 <= i < q.Length && !(rb + 8 <= i < rb + 16) ==> q[i] == old(q[i])
  {
    q[rb + 8] := d1.d0 - d2.d0;
    q[rb + 9] := d1.d1 - d2.d1 * 2;
    q[rb + 10] := d1.d2 - d2.d2 * 4;
    q[rb + 11] := d1.d3 - d2.d3 * 8;
    q[rb + 12] := d1.d4 - d2.d4 * 16;
    q[rb + 13] := d1.d5 - d2.d5 * 32;
    q[rb + 14] := d1.d6 - d2.d6 * 64;
    q[rb + 15] := d1.d7 - d2.d7 * 128;
  }

  /** The inputs `b`, `b + s`, ... of `x`, as integers. */
  function Stride(x: seq<Octet>, b: nat, s: nat, n: nat): (r: seq<int>)
    requires n > 0 ==> b + (n - 1) * s < |x|
    ensures |r| == n
    ensures forall j :: 0 <= j < n ==> b + j * s < |x| && r[j] == x[b + j * s] as int
  {
    StrideBound(b, s, n);
    seq(n, j requires 0 <= j < n => x[b + j * s] as int)
  }

  lemma StrideBelow(j: nat, s: nat, n: nat)
    requires j < n
    ensures j * s <= (n - 1) * s
  {
    var d := n - 1 - j;
    assert (n - 1) * s == j * s + d * s;
    assert d * s >= 0;
  }

  lemma StrideBound(b: nat, s: nat, n: nat)
    ensures forall j :: 0 <= j < n ==> b + j * s <= b + (n - 1) * s
  {
    forall j | 0 <= j < n ensures b + j * s <= b + (n - 1) * s {
      StrideBelow(j, s, n);
    }
  }

  /** Output `k` of the sixteen. */
  lemma Fft16Correct(y: seq<int>, x0: Octet, x1: Octet, x2: Octet, x3: Octet, y0: Octet, y1: Octet, y2: Octet, y3: Octet, k: nat)
    requires y == [x0 as int, y0 as int, x1 as int, y1 as int, x2 as int, y2 as int, x3 as int, y3 as int] && k < 16
    ensures Cong(Values16(Fft8(x0, x1, x2, x3), Fft8(y0, y1, y2, y3))[k], Dft(y, 16, k))
  {
    hide Cong, Dft, Fft8;
    var d1, d2 := Fft8(x0, x1, x2, x3), Fft8(y0, y1, y2, y3);
    Fft8Correct(x0, x1, x2, x3);
    Fft8Correct(y0, y1, y2, y3);
    assert Half(y, 0) == [x0 as int, x1 as int, x2 as int, x3 as int];
    assert Half(y, 1) == [y0 as int, y1 as int, y2 as int, y3 as int];
    Fft16Step(y, 0, d1.d0 as int, d2.d0 as int, 1);
    Fft16Step(y, 1, d1.d1 as int, d2.d1 as int, 2);
    Fft16Step(y, 2, d1.d2 as int, d2.d2 as int, 4);
    Fft16Step(y, 3, d1.d3 as int, d2.d3 as int, 8);
    Fft16Step(y, 4, d1.d4 as int, d2.d4 as int, 16);
    Fft16Step(y, 5, d1.d5 as int, d2.d5 as int, 32);
    Fft16Step(y, 6, d1.d6 as int, d2.d6 as int, 64);
    Fft16Step(y, 7, d1.d7 as int, d2.d7 as int, 128);
  }

  // ---- combining two halves ----

  /** One butterfly with a twiddle factor from the table. */
  method Twiddle(q: array<s32>, rb: nat, hk: nat, u: nat, v: nat, ghost bound: int) returns (ghost t: int)
    requires u < hk && rb + 2 * hk <= q.Length && v < 128 && 98302 <= bound <= 8388608
    requires -bound <= At(q[..], rb, u) <= bound && -bound <= At(q[..], rb, u + hk) <= bound
    modifies q
    ensures Cong(t, old(At(q[..], rb, u + hk)) * Pow(v)) && -98302 <= t <= 98302
    ensures At(q[..], rb, u) == old(At(q[..], rb, u)) + t && At(q[..], rb, u + hk) == old(At(q[..], rb, u)) - t
    ensures forall i :: 0 <= i < q.Length && i != rb + u && i != rb + u + hk ==> q[i] == old(q[i])
  {
    hide Cong, Pow, AlphaTab;
    var m := q[rb + u];
    var n := q[rb + u + hk];
    TablePowers(v);
    UsedEntries(v);
    Product(n as int, AlphaTab(v), bound);
    var r := Reds2(n * (AlphaTab(v) as s32));
    CongRefl(n as int);
    CongMul(n as int, n as int, AlphaTab(v), Pow(v));
    t := r as int;
    CongTrans(t, n as int * AlphaTab(v), n as int * Pow(v));
    q[rb + u] := m + r;
    q[rb + u + hk] := m - r;
  }

  lemma Product(n: int, a: int, bound: int)
    requires -bound <= n <= bound <= 8388608 && 0 <= a <= 252
    ensures -0x8000_0000 <= n * a < 0x8000_0000
  {
    if n >= 0 { ProductUp(n, a); } else { ProductUp(-n, a); assert (-n) * a == -(n * a); }
  }

  lemma ProductUp(n: int, a: int)
    requires 0 <= n <= 8388608 && 0 <= a <= 252
    ensures 0 <= n * a <= 8388608 * 252
  {
    var d := 252 - a;
    assert n * 252 == n * a + n * d;
    assert n * a >= 0 && n * d >= 0;
  }

  /** `q0` holds the transforms of the two halves of `y`, within `bound`. */
  ghost predicate Halves(q0: seq<s32>, rb: nat, hk: nat, e: nat, y: seq<int>, bound: int) {
    && rb + 2 * hk <= |q0| && |y| % 2 == 0 && e * hk == 128 && 98302 <= bound <= 8388608
    && (forall i :: rb <= i < rb + 2 * hk ==> -bound <= q0[i] as int <= bound)
    && (forall i :: rb <= i < rb + hk ==> Cong(q0[i] as int, Dft(Half(y, 0), 2 * e, i - rb)))
    && (forall i :: rb + hk <= i < rb + 2 * hk ==> Cong(q0[i] as int, Dft(Half(y, 1), 2 * e, i - rb - hk)))
  }

  /** The first `u` butterflies are done; everything else is as in `q0`. */
  ghost predicate Progress(q: seq<s32>, q0: seq<s32>, rb: nat, hk: nat, e: nat, y: seq<int>, bound: int, u: nat)
    requires rb + 2 * hk <= |q0|
  {
    && |q| == |q0| && u <= hk
    && (forall i :: 0 <= i < |q| && !(rb <= i < rb + u) && !(rb + hk <= i < rb + hk + u) ==> q[i] == q0[i])
    && (forall i :: rb <= i < rb + u ==> Cong(q[i] as int, Dft(y, e, i - rb)) && -2 * bound <= q[i] as int <= 2 * bound)
    && (forall i :: rb + hk <= i < rb + hk + u ==> Cong(q[i] as int, Dft(y, e, i - rb)) && -2 * bound <= q[i] as int <= 2 * bound)
  }

  lemma ProgressOne(q: seq<s32>, q': seq<s32>, q0: seq<s32>, rb: nat, hk: nat, e: nat, y: seq<int>, bound: int, u: nat, t: int)
    requires Halves(q0, rb, hk, e, y, bound) && Progress(q, q0, rb, hk, e, y, bound, u) && u < hk
    requires |q'| == |q| && (forall i :: 0 <= i < |q| && i != rb + u && i != rb + u + hk ==> q'[i] == q[i])
    requires q'[rb + u] as int == q[rb + u] as int + t && q'[rb + u + hk] as int == q[rb + u] as int - t
    requires Cong(t, q[rb + u + hk] as int * Pow(e * u)) && -bound <= t <= bound
    ensures Progress(q', q0, rb, hk, e, y, bound, u + 1)
  {
    hide Cong, Pow, Dft;
    var m, n := q0[rb + u] as int, q0[rb + hk + u] as int;
    assert q[rb + u] as int == m && q[rb + u + hk] as int == n;
    Butterfly(y, e, hk, u, m, n, t);
    forall i | rb <= i < rb + u + 1
      ensures Cong(q'[i] as int, Dft(y, e, i - rb)) && -2 * bound <= q'[i] as int <= 2 * bound
    {
      if i == rb + u { assert i - rb == u; }
    }
    forall i | rb + hk <= i < rb + hk + u + 1
      ensures Cong(q'[i] as int, Dft(y, e, i - rb)) && -2 * bound <= q'[i] as int <= 2 * bound
    {
      if i == rb + hk + u { assert i - rb == u + hk; }
    }
  }

  method Step(q: array<s32>, rb: nat, hk: nat, as_: nat, u: nat, v: nat,
              ghost q0: seq<s32>, ghost y: seq<int>, ghost bound: int)
    requires rb + 2 * hk <= q.Length && u < hk && v == as_ * u
    requires Halves(q0, rb, hk, as_, y, bound) && Progress(q[..], q0, rb, hk, as_, y, bound, u)
    modifies q
    ensures Progress(q[..], q0, rb, hk, as_, y, bound, u + 1)
  {
    hide Cong, Pow, Dft;
    TwiddleIndex(as_, hk, u);
    ghost var before := q[..];
    ghost var t := Twiddle(q, rb, hk, u, v, bound);
    ProgressOne(before, q[..], q0, rb, hk, as_, y, bound, u, t);
  }

  lemma TwiddleIndex(e: nat, h: nat, u: nat)
    requires e * h == 128 && u < h
    ensures e * u < 128
  {
    assert e * h == e * u + e * (h - u);
    assert e * (h - u) >= e;
  }

  /** Combine the transforms of the two halves. The first butterfly needs no multiplication;
      the others are done four at a time. */
  method FftLoop(q: array<s32>, rb: nat, hk: nat, as_: nat, ghost y: seq<int>, ghost bound: int)
    requires rb + 2 * hk <= q.Length && hk % 4 == 0 && hk > 0 && as_ * hk == 128 && |y| % 2 == 0
    requires 98302 <= bound <= 8388608 && Within(q[..], rb, 2 * hk, bound)
    requires Holds(q[..], rb, hk, Half(y, 0), 2 * as_) && Holds(q[..], rb + hk, hk, Half(y, 1), 2 * as_)
    modifies q
    ensures Holds(q[..], rb, 2 * hk, y, as_) && Within(q[..], rb, 2 * hk, 2 * bound)
    ensures forall i :: 0 <= i < q.Length && !(rb <= i < rb + 2 * hk) ==> q[i] == old(q[i])
  {
    hide Cong, Pow, Dft, Halves, Progress, Holds, Within, Half;
    ghost var q0 := q[..];
    LoopStart(q, rb, hk, as_, y, bound);
    FirstSteps(q, rb, hk, as_, q0, y, bound);
    var u, v := 4, 4 * as_;
    while u < hk
      invariant 4 <= u <= hk && u % 4 == 0 && v == as_ * u
      invariant Progress(q[..], q0, rb, hk, as_, y, bound, u)
    {
      FourSteps(q, rb, hk, as_, u, v, q0, y, bound);
      Offsets(as_, u);
      u, v := u + 4, v + 4 * as_;
    }
    LoopEnd(q, q0, rb, hk, as_, y, bound);
  }

  /** The butterfly without a twiddle factor, and the next three. */
  method FirstSteps(q: array<s32>, rb: nat, hk: nat, as_: nat, ghost q0: seq<s32>, ghost y: seq<int>, ghost bound: int)
    requires rb + 2 * hk <= q.Length && 4 <= hk && as_ * hk == 128
    requires q[..] == q0 && Halves(q0, rb, hk, as_, y, bound) && bound <= 8388608
    requires -bound <= q[rb] as int <= bound && -bound <= q[rb + hk] as int <= bound
    modifies q
    ensures Progress(q[..], q0, rb, hk, as_, y, bound, 4)
  {
    hide Cong, Pow, Dft, Halves, Progress;
    var m := q[rb];
    var n := q[rb + hk];
    q[rb] := m + n;
    q[rb + hk] := m - n;
    FirstButterfly(q[..], q0, rb, hk, as_, y, bound);
    Step(q, rb, hk, as_, 1, as_, q0, y, bound);
    Step(q, rb, hk, as_, 2, 2 * as_, q0, y, bound);
    Step(q, rb, hk, as_, 3, 3 * as_, q0, y, bound);
  }

  method FourSteps(q: array<s32>, rb: nat, hk: nat, as_: nat, u: nat, v: nat,
                   ghost q0: seq<s32>, ghost y: seq<int>, ghost bound: int)
    requires rb + 2 * hk <= q.Length && u + 4 <= hk && v == as_ * u
    requires Halves(q0, rb, hk, as_, y, bound) && Progress(q[..], q0, rb, hk, as_, y, bound, u)
    modifies q
    ensures Progress(q[..], q0, rb, hk, as_, y, bound, u + 4)
  {
    hide Cong, Pow, Dft, Halves, Progress;
    Offsets(as_, u);
    Step(q, rb, hk, as_, u, v, q0, y, bound);
    Step(q, rb, hk, as_, u + 1, v + as_, q0, y, bound);
    Step(q, rb, hk, as_, u + 2, v + 2 * as_, q0, y, bound);
    Step(q, rb, hk, as_, u + 3, v + 3 * as_, q0, y, bound);
  }

  lemma Offsets(e: nat, u: nat)
    ensures e * u + e == e * (u + 1) && e * u + 2 * e == e * (u + 2)
    ensures e * u + 3 * e == e * (u + 3) && e * u + 4 * e == e * (u + 4)
  {
  }

  lemma LoopStart(q: array<s32>, rb: nat, hk: nat, e: nat, y: seq<int>, bound: int)
    requires rb + 2 * hk <= q.Length && e * hk == 128 && |y| % 2 == 0 && hk > 0
    requires 98302 <= bound <= 8388608 && Within(q[..], rb, 2 * hk, bound)
    requires Holds(q[..], rb, hk, Half(y, 0), 2 * e) && Holds(q[..], rb + hk, hk, Half(y, 1), 2 * e)
    ensures Halves(q[..], rb, hk, e, y, bound)
    ensures -bound <= q[rb] as int <= bound && -bound <= q[rb + hk] as int <= bound
  {
    hide Cong, Dft;
    forall i | rb <= i < rb + 2 * hk ensures -bound <= q[..][i] as int <= bound {
      assert At(q[..], rb, i - rb) == q[i] as int;
    }
    forall i | rb <= i < rb + hk ensures Cong(q[..][i] as int, Dft(Half(y, 0), 2 * e, i - rb)) {
      assert At(q[..], rb, i - rb) == q[i] as int;
    }
    forall i | rb + hk <= i < rb + 2 * hk ensures Cong(q[..][i] as int, Dft(Half(y, 1), 2 * e, i - rb - hk)) {
      assert At(q[..], rb + hk, i - rb - hk) == q[i] as int;
    }
    assert At(q[..], rb, 0) == q[rb] as int && At(q[..], rb, hk) == q[rb + hk] as int;
  }

  lemma FirstButterfly(q: seq<s32>, q0: seq<s32>, rb: nat, hk: nat, e: nat, y: seq<int>, bound: int)
    requires Halves(q0, rb, hk, e, y, bound) && hk > 0
    requires |q| == |q0| && (forall i :: 0 <= i < |q| && i != rb && i != rb + hk ==> q[i] == q0[i])
    requires q[rb] as int == q0[rb] as int + q0[rb + hk] as int && q[rb + hk] as int == q0[rb] as int - q0[rb + hk] as int
    ensures Progress(q, q0, rb, hk, e, y, bound, 1)
  {
    hide Cong, Dft;
    PowZero();
    assert e * 0 == 0;
    var n := q0[rb + hk] as int;
    CongRefl(n);
    ProgressOne(q0, q, q0, rb, hk, e, y, bound, 0, n);
  }

  lemma LoopEnd(q: array<s32>, q0: seq<s32>, rb: nat, hk: nat, e: nat, y: seq<int>, bound: int)
    requires rb + 2 * hk <= |q0| == q.Length && Progress(q[..], q0, rb, hk, e, y, bound, hk)
    ensures Holds(q[..], rb, 2 * hk, y, e) && Within(q[..], rb, 2 * hk, 2 * bound)
    ensures forall i :: 0 <= i < q.Length && !(rb <= i < rb + 2 * hk) ==> q[i] == q0[i]
  {
    hide Cong, Dft;
    forall k | 0 <= k < 2 * hk
      ensures Cong(At(q[..], rb, k), Dft(y, e, k)) && -2 * bound <= At(q[..], rb, k) <= 2 * bound
    {
      assert q[..][rb + k] == q[rb + k];
    }
    forall i | 0 <= i < q.Length && !(rb <= i < rb + 2 * hk) ensures q[i] == q0[i] {
      assert q[..][i] == q[i];
    }
  }
}
