/** The whole transform of a message block, and the final reduction of its coefficients. */
module SimdExpand {
  import opened SimdMath
  import opened SimdFft

  /** Every second input of a strided selection is a selection with twice the stride. */
  lemma HalfStride(x: seq<Octet>, b: nat, s: nat, n: nat)
    requires n > 0 && b + (2 * n - 1) * s < |x|
    ensures b + (n - 1) * (2 * s) < |x| && b + s + (n - 1) * (2 * s) < |x|
    ensures Half(Stride(x, b, s, 2 * n), 0) == Stride(x, b, 2 * s, n)
    ensures Half(Stride(x, b, s, 2 * n), 1) == Stride(x, b + s, 2 * s, n)
  {
    Distribute(s, n);
    var y := Stride(x, b, s, 2 * n);
    forall j | 0 <= j < n
      ensures Half(y, 0)[j] == Stride(x, b, 2 * s, n)[j] && Half(y, 1)[j] == Stride(x, b + s, 2 * s, n)[j]
    {
      Distribute(s, j);
      assert b + (2 * j) * s == b + j * (2 * s);
      assert b + (2 * j + 1) * s == b + s + j * (2 * s);
    }
  }

  lemma Distribute(s: nat, n: nat)
    ensures (2 * n) * s == n * (2 * s) && (2 * n + 1) * s == s + n * (2 * s)
    ensures (2 * n - 1) * s == (n - 1) * (2 * s) + s
  {
  }

  method Fft32(x: seq<Octet>, xb: nat, xs: nat, q: array<s32>, rb: nat)
    requires xb + 15 * xs < |x| && rb + 32 <= q.Length
    modifies q
    ensures Holds(q[..], rb, 32, Stride(x, xb, xs, 16), 8) && Within(q[..], rb, 32, 1183446)
    ensures forall i :: 0 <= i < q.Length && !(rb <= i < rb + 32) ==> q[i] == old(q[i])
  {
    hide Cong, Dft, Half, Stride, Within, Holds;
    HalfStride(x, xb, xs, 8);
    Fft16(x, xb, 2 * xs, q, rb);
    Widened(q[..], rb);
    ghost var first := q[..];
    Fft16(x, xb + xs, 2 * xs, q, rb + 16);
    Widened(q[..], rb + 16);
    Kept(first, q[..], rb, 16, Stride(x, xb, 2 * xs, 8), 16);
    Joined(first, q[..], rb, 16, 591723);
    FftLoop(q, rb, 16, 8, Stride(x, xb, xs, 16), 591723);
  }

  lemma Widened(q: seq<s32>, rb: nat)
    requires rb + 16 <= |q| && forall k :: 0 <= k < 16 ==> -591471 <= At(q, rb, k) <= 591723
    ensures Within(q, rb, 16, 591723)
  {
  }

  /** A transform already stored is not disturbed by a change elsewhere. */
  lemma Kept(q: seq<s32>, q': seq<s32>, rb: nat, n: nat, y: seq<int>, e: nat)
    requires rb + n <= |q| == |q'| && Holds(q, rb, n, y, e)
    requires forall i :: rb <= i < rb + n ==> q'[i] == q[i]
    ensures Holds(q', rb, n, y, e)
  {
    hide Cong, Dft;
    forall k | 0 <= k < n ensures Cong(At(q', rb, k), Dft(y, e, k)) {
      assert At(q', rb, k) == At(q, rb, k);
    }
  }

  lemma Joined(q: seq<s32>, q': seq<s32>, rb: nat, n: nat, bound: int)
    requires rb + 2 * n <= |q| == |q'| && Within(q, rb, n, bound) && Within(q', rb + n, n, bound)
    requires forall i :: rb <= i < rb + n ==> q'[i] == q[i]
    ensures Within(q', rb, 2 * n, bound)
  {
    forall k | 0 <= k < 2 * n ensures -bound <= At(q', rb, k) <= bound {
      if k < n {
        assert At(q', rb, k) == At(q, rb, k);
      } else {
        assert At(q', rb, k) == At(q', rb + n, k - n);
      }
    }
  }

  method Fft64(x: seq<Octet>, xb: nat, xs: nat, q: array<s32>, rb: nat)
    requires xb + 31 * xs < |x| && rb + 64 <= q.Length
    modifies q
    ensures Holds(q[..], rb, 64, Stride(x, xb, xs, 32), 4) && Within(q[..], rb, 64, 2366892)
    ensures forall i :: 0 <= i < q.Length && !(rb <= i < rb + 64) ==> q[i] == old(q[i])
  {
    hide Cong, Dft, Half, Stride, Within, Holds;
    HalfStride(x, xb, xs, 16);
    Fft32(x, xb, 2 * xs, q, rb);
    ghost var first := q[..];
    Fft32(x, xb + xs, 2 * xs, q, rb + 32);
    Kept(first, q[..], rb, 32, Stride(x, xb, 2 * xs, 16), 8);
    Joined(first, q[..], rb, 32, 1183446);
    FftLoop(q, rb, 32, 4, Stride(x, xb, xs, 32), 1183446);
  }

  /** The transform of SIMD-224 and SIMD-256: 128 coefficients of 64 inputs at 41^2. */
  method Fft128(x: seq<Octet>, xb: nat, xs: nat, q: array<s32>, rb: nat)
    requires xb + 63 * xs < |x| && rb + 128 <= q.Length
    modifies q
    ensures Holds(q[..], rb, 128, Stride(x, xb, xs, 64), 2) && Within(q[..], rb, 128, 4733784)
    ensures forall i :: 0 <= i < q.Length && !(rb <= i < rb + 128) ==> q[i] == old(q[i])
  {
    hide Cong, Dft, Half, Stride, Within, Holds;
    HalfStride(x, xb, xs, 32);
    Fft64(x, xb, 2 * xs, q, rb);
    ghost var first := q[..];
    Fft64(x, xb + xs, 2 * xs, q, rb + 64);
    Kept(first, q[..], rb, 64, Stride(x, xb, 2 * xs, 32), 4);
    Joined(first, q[..], rb, 64, 2366892);
    FftLoop(q, rb, 64, 2, Stride(x, xb, xs, 64), 2366892);
  }

  /** The transform of SIMD-384 and SIMD-512: 256 coefficients of 128 inputs at 41, from four 64-point transforms. */
  method Fft256(x: seq<Octet>, xb: nat, xs: nat, q: array<s32>, rb: nat)
    requires xb + 127 * xs < |x| && rb + 256 <= q.Length
    modifies q
    ensures Holds(q[..], rb, 256, Stride(x, xb, xs, 128), 1) && Within(q[..], rb, 256, 9467568)
    ensures forall i :: 0 <= i < q.Length && !(rb <= i < rb + 256) ==> q[i] == old(q[i])
  {
    hide Cong, Dft, Half, Stride, Within, Holds;
    HalfStride(x, xb, xs, 64);
    Fft128(x, xb, 2 * xs, q, rb);
    ghost var b := q[..];
    Fft128(x, xb + xs, 2 * xs, q, rb + 128);
    Kept(b, q[..], rb, 128, Stride(x, xb, 2 * xs, 64), 2);
    Joined(b, q[..], rb, 128, 4733784);
    FftLoop(q, rb, 128, 1, Stride(x, xb, xs, 128), 4733784);
  }

  // ---- the final reduction ----

  /** The representative of `z` modulo 257 nearest to zero. */
  function Centre(z: int): (r: int)
    ensures Cong(r, z) && -128 <= r <= 128
  {
    var m := z % 257;
    CongFrom(z, m, z / 257);
    CongSymm(z, m);
    if m <= 128 then m else m - 257
  }

  lemma CentreUnique(z: int, r: int)
    requires Cong(r, z) && -128 <= r <= 128
    ensures r == Centre(z)
  {
  }

  /** Two partial reductions of a doubly reduced value leave at most one subtraction. */
  function Settle(x: s32): (r: s32)
    requires -9467568 <= x <= 9467568 + 256
    ensures r as int == Centre(x as int)
  {
    var a := Reds2(x);
    var b := Reds1(a);
    var c := Reds1(b);
    var r := if c <= 128 then c else c - 257;
    SettleRange(x);
    SettleCong(x as int, a as int, b as int, c as int, r as int);
    r
  }

  lemma SettleRange(x: s32)
    requires -9467568 <= x <= 9467568 + 256
    ensures -1 <= Reds1(Reds1(Reds2(x))) <= 256
  {
    hide Cong;
    assert -145 <= x / 65536 <= 144;
    var a := Reds2(x);
    assert -145 <= a <= 65679;
    var b := Reds1(a);
    assert -1 <= a / 256 <= 256;
    assert -256 <= b <= 256;
  }

  lemma SettleCong(x: int, a: int, b: int, c: int, r: int)
    requires Cong(a, x) && Cong(b, a) && Cong(c, b) && -1 <= c <= 256
    requires r == if c <= 128 then c else c - 257
    ensures r == Centre(x)
  {
    CongTrans(b, a, x);
    CongTrans(c, b, x);
    CentreUnique(x, r);
  }

  /** Add the offsets and reduce every coefficient to -128..128. */
  method Reduce(q: array<s32>, offsets: seq<int>)
    requires |offsets| == q.Length && (forall i :: 0 <= i < |offsets| ==> 0 <= offsets[i] <= 256)
    requires forall i :: 0 <= i < q.Length ==> -9467568 <= q[i] <= 9467568
    modifies q
    ensures forall i :: 0 <= i < q.Length ==> q[i] as int == Centre(old(q[i]) as int + offsets[i])
  {
    hide Cong, Centre, Settle;
    var i := 0;
    while i < q.Length
      invariant 0 <= i <= q.Length
      invariant forall j :: 0 <= j < i ==> q[j] as int == Centre(old(q[j]) as int + offsets[j])
      invariant forall j :: i <= j < q.Length ==> q[j] == old(q[j])
    {
      var tq := q[i] + offsets[i] as s32;
      q[i] := Settle(tq);
      i := i + 1;
    }
  }

  lemma CentreCong(a: int, b: int, o: int)
    requires Cong(a, b)
    ensures Centre(a + o) == Centre(b + o)
  {
    CongRefl(o);
    CongAdd(a, b, o, o);
    CongTrans(Centre(a + o), a + o, b + o);
    CentreUnique(b + o, Centre(a + o));
  }

  /** Big variant: coefficient `i` is the transform of the 128 bytes plus the offset, reduced to -128..128. */
  method ExpandBig(x: seq<Octet>, offsets: seq<int>, q: array<s32>)
    requires |x| == 128 && q.Length == 256 == |offsets| && forall i :: 0 <= i < 256 ==> 0 <= offsets[i] <= 256
    modifies q
    ensures forall i :: 0 <= i < 256 ==> q[i] as int == Centre(Dft(Stride(x, 0, 1, 128), 1, i) + offsets[i])
  {
    hide Cong, Dft, Half, Stride, Centre;
    Fft256(x, 0, 1, q, 0);
    ghost var y := Stride(x, 0, 1, 128);
    ghost var a := q[..];
    Entries(a, 9467568);
    Reduce(q, offsets);
    forall i | 0 <= i < 256 ensures q[i] as int == Centre(Dft(y, 1, i) + offsets[i]) {
      assert At(a, 0, i) == a[i] as int;
      CentreCong(a[i] as int, Dft(y, 1, i), offsets[i]);
    }
  }

  lemma Entries(a: seq<s32>, bound: int)
    requires Within(a, 0, |a|, bound)
    ensures forall i :: 0 <= i < |a| ==> -bound <= a[i] as int <= bound
  {
    forall i | 0 <= i < |a| ensures -bound <= a[i] as int <= bound {
      assert At(a, 0, i) == a[i] as int;
    }
  }

  /** Small variant: 128 coefficients of the transform of 64 bytes at 41^2. */
  method ExpandSmall(x: seq<Octet>, offsets: seq<int>, q: array<s32>)
    requires |x| == 64 && q.Length == 128 == |offsets| && forall i :: 0 <= i < 128 ==> 0 <= offsets[i] <= 256
    modifies q
    ensures forall i :: 0 <= i < 128 ==> q[i] as int == Centre(Dft(Stride(x, 0, 1, 64), 2, i) + offsets[i])
  {
    hide Cong, Dft, Half, Stride, Centre;
    Fft128(x, 0, 1, q, 0);
    ghost var y := Stride(x, 0, 1, 64);
    ghost var a := q[..];
    Entries(a, 4733784);
    Reduce(q, offsets);
    forall i | 0 <= i < 128 ensures q[i] as int == Centre(Dft(y, 2, i) + offsets[i]) {
      assert At(a, 0, i) == a[i] as int;
      CentreCong(a[i] as int, Dft(y, 2, i), offsets[i]);
    }
  }
}
