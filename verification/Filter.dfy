/** Convolution with border rules: util/signal/filter.go, over the reals. */
module Filter {
  import opened Arithmetic

  datatype BorderType = Constant | Nearest | Wrap | Reflect | Mirror

  datatype Border = Border(kind: BorderType, value: real)

  // ---- The infinite extension of a signal ----

  /** Go's remainder, which takes the sign of the dividend. */
  function GoMod(a: int, n: nat): int
    requires n > 0
  {
    if a >= 0 then a % n else -((-a) % n)
  }

  /** The index that a border rule reads for any index, in closed form. */
  function Index(kind: BorderType, n: nat, idx: int): (i: int)
    requires n > 0 && !kind.Constant?
    ensures 0 <= i < n
  {
    match kind
    case Nearest => if idx < 0 then 0 else if idx >= n then n - 1 else idx
    case Wrap => idx % n
    case Reflect => var m := idx % (2 * n); if m < n then m else 2 * n - 1 - m
    case Mirror => if n == 1 then 0 else var m := idx % (2 * n - 2); if m < n then m else 2 * n - 2 - m
  }

  predicate Extendable(border: Border, src: seq<real>) {
    border.kind.Constant? || |src| > 0
  }

  function Extended(border: Border, src: seq<real>, idx: int): real
    requires Extendable(border, src)
  {
    if 0 <= idx < |src| then src[idx]
    else if border.kind.Constant? then border.value
    else src[Index(border.kind, |src|, idx)]
  }

  // ---- Remainders ----

  lemma ModNegated(a: int, n: nat)
    requires n > 0
    ensures (-a - 1) % n == n - 1 - a % n
    ensures (-a) % n == if a % n == 0 then 0 else n - a % n
  {
    var q, m := a / n, a % n;
    assert a == q * n + m;
    assert -a - 1 == (-q - 1) * n + (n - 1 - m);
    DivUnique(-a - 1, n, -q - 1, n - 1 - m);
    if m == 0 {
      assert -a == (-q) * n + 0;
      DivUnique(-a, n, -q, 0);
    } else {
      assert -a == (-q - 1) * n + (n - m);
      DivUnique(-a, n, -q - 1, n - m);
    }
  }

  lemma ModShifted(a: int, n: nat)
    requires n > 0
    ensures (a + n) % n == a % n
  {
    assert a + n == (a / n + 1) * n + a % n;
    DivUnique(a + n, n, a / n + 1, a % n);
  }

  lemma ModInside(a: int, n: nat)
    requires 0 <= a < n
    ensures a % n == a
  {
  }

  /** Reflecting an index at either end does not change what it reads. */
  lemma ReflectSame(n: nat, idx: int)
    requires n > 0
    ensures Index(Reflect, n, -idx - 1) == Index(Reflect, n, idx)
    ensures Index(Reflect, n, 2 * n - idx - 1) == Index(Reflect, n, idx)
  {
    ModNegated(idx, 2 * n);
    ModShifted(-idx - 1, 2 * n);
  }

  lemma MirrorSame(n: nat, idx: int)
    requires n > 1
    ensures Index(Mirror, n, -idx) == Index(Mirror, n, idx)
    ensures Index(Mirror, n, 2 * n - idx - 2) == Index(Mirror, n, idx)
  {
    ModNegated(idx, 2 * n - 2);
    ModShifted(-idx, 2 * n - 2);
  }

  /** Which sample each border rule reads: the nearest, or the one that a periodic continuation has there, of the signal, of
      the signal and its reversal, or of the signal and its reversal without the ends. */
  lemma IndexMeaning(kind: BorderType, n: nat, idx: int) returns (period: int)
    requires n > 0 && !kind.Constant?
    ensures var i := Index(kind, n, idx);
            match kind
            case Nearest => (0 <= idx < n ==> i == idx) && (idx < 0 ==> i == 0) && (idx >= n ==> i == n - 1)
            case Wrap => idx == n * period + i
            case Reflect => idx == 2 * n * period + i || idx == 2 * n * period + 2 * n - 1 - i
            case Mirror => if n == 1 then i == 0 else idx == (2 * n - 2) * period + i || idx == (2 * n - 2) * period + 2 * n - 2 - i
  {
    match kind
    case Nearest => period := 0;
    case Wrap => period := idx / n;
    case Reflect => period := idx / (2 * n);
    case Mirror => period := if n == 1 then 0 else idx / (2 * n - 2);
  }

  lemma IndexInside(kind: BorderType, n: nat, idx: int)
    requires 0 <= idx < n && !kind.Constant?
    ensures Index(kind, n, idx) == idx
  {
    match kind
    case Nearest =>
    case Wrap => ModInside(idx, n);
    case Reflect => ModInside(idx, 2 * n);
    case Mirror =>
      if n > 1 {
        ModInside(idx, 2 * n - 2);
      }
  }

  lemma WrapSame(n: nat, idx: int)
    requires n > 0
    ensures idx < 0 ==> GoMod(GoMod(idx, n) + n, n) == idx % n
    ensures idx >= 0 ==> GoMod(idx, n) == idx % n
  {
    if idx < 0 {
      var m := (-idx) % n;
      assert -(-idx) == idx;
      ModNegated(-idx, n);
      if m == 0 {
        ModShifted(0, n);
        ModInside(0, n);
      } else {
        ModInside(n - m, n);
      }
      assert GoMod(idx, n) + n == n - m;
      assert n - m >= 0;
    }
  }

  method Interpolate(border: Border, src: seq<real>, index: int) returns (r: real)
    requires Extendable(border, src)
    ensures r == Extended(border, src, index)
  {
    hide Index;
    if 0 <= index < |src| {
      return src[index];
    }
    var n, idx := |src|, index;
    match border.kind {
      case Constant =>
        r := border.value;
      case Nearest =>
        NearestIs(n, idx);
        if idx < 0 {
          r := src[0];
        } else {
          r := src[n - 1];
        }
      case Wrap =>
        WrapIs(n, idx);
        if idx < 0 {
          r := src[GoMod(GoMod(idx, n) + n, n)];
        } else {
          r := src[GoMod(idx, n)];
        }
      case Mirror =>
        if n == 1 {
          MirrorOne(idx);
          return src[0];
        }
        while idx < 0 || idx >= n
          invariant Index(Mirror, n, idx) == Index(Mirror, n, index)
          decreases if idx < 0 then 2 * -idx + 1 else 2 * idx
        {
          MirrorSame(n, idx);
          if idx < 0 {
            idx := -idx;
          } else {
            idx := 2 * n - idx - 2;
          }
        }
        IndexInside(Mirror, n, idx);
        r := src[idx];
      case Reflect =>
        if n == 1 {
          ReflectOne(idx);
          return src[0];
        }
        while idx < 0 || idx >= n
          invariant Index(Reflect, n, idx) == Index(Reflect, n, index)
          decreases if idx < 0 then 2 * -idx + 1 else 2 * idx
        {
          ReflectSame(n, idx);
          if idx < 0 {
            idx := -idx - 1;
          } else {
            idx := 2 * n - idx - 1;
          }
        }
        IndexInside(Reflect, n, idx);
        r := src[idx];
    }
  }

  lemma NearestIs(n: nat, idx: int)
    requires n > 0 && !(0 <= idx < n)
    ensures Index(Nearest, n, idx) == if idx < 0 then 0 else n - 1
  {
  }

  lemma WrapIs(n: nat, idx: int)
    requires n > 0
    ensures idx < 0 ==> GoMod(GoMod(idx, n) + n, n) == Index(Wrap, n, idx)
    ensures idx >= 0 ==> GoMod(idx, n) == Index(Wrap, n, idx)
  {
    WrapSame(n, idx);
  }

  lemma MirrorOne(idx: int)
    ensures Index(Mirror, 1, idx) == 0
  {
  }

  lemma ReflectOne(idx: int)
    ensures Index(Reflect, 1, idx) == 0
  {
  }

  // ---- Convolution ----

  /** The first `m` terms of the kernel-weighted sum that starts at index `k` of the extended signal. */
  function Weighted(border: Border, src: seq<real>, kernel: seq<real>, k: int, m: nat): real
    requires Extendable(border, src) && m <= |kernel|
  {
    if m == 0 then 0.0
    else Weighted(border, src, kernel, k, m - 1) + Extended(border, src, k + m - 1) * kernel[m - 1]
  }

  function Convolved(border: Border, src: seq<real>, kernel: seq<real>, n: nat): (dst: seq<real>)
    requires n == 0 || Extendable(border, src)
    ensures |dst| == n
  {
    seq(n, i requires 0 <= i < n => Weighted(border, src, kernel, i - |kernel| / 2, |kernel|))
  }

  /** The interior path and the border path compute the same sum over the extended signal. */
  method WeightedSum(src: seq<real>, kernel: seq<real>, border: Border, k: int) returns (sum: real)
    requires Extendable(border, src)
    ensures sum == Weighted(border, src, kernel, k, |kernel|)
  {
    hide Extended;
    sum := 0.0;
    if k >= 0 && k <= |src| - |kernel| {
      for j := 0 to |kernel|
        invariant sum == Weighted(border, src, kernel, k, j)
      {
        ExtendedInside(border, src, k + j);
        sum := sum + src[k + j] * kernel[j];
      }
    } else {
      for j := 0 to |kernel|
        invariant sum == Weighted(border, src, kernel, k, j)
      {
        var v := Interpolate(border, src, k + j);
        sum := sum + v * kernel[j];
      }
    }
  }

  method Convolve(src: seq<real>, dst: array<real>, kernel: seq<real>, border: Border)
    requires dst.Length == 0 || Extendable(border, src)
    modifies dst
    ensures dst[..] == Convolved(border, src, kernel, dst.Length)
  {
    hide Weighted;
    var halfWidth := |kernel| / 2;
    for i := 0 to dst.Length
      invariant forall p :: 0 <= p < i ==> dst[p] == Weighted(border, src, kernel, p - halfWidth, |kernel|)
    {
      var sum := WeightedSum(src, kernel, border, i - halfWidth);
      dst[i] := sum;
    }
  }

  lemma ExtendedInside(border: Border, src: seq<real>, idx: int)
    requires Extendable(border, src) && 0 <= idx < |src|
    ensures Extended(border, src, idx) == src[idx]
  {
  }

  // ---- The Gaussian kernel; the exponential function is a parameter ----

  function Sum(xs: seq<real>): real {
    if xs == [] then 0.0 else Sum(xs[..|xs| - 1]) + xs[|xs| - 1]
  }

  predicate Nonnegative(xs: seq<real>) {
    forall i :: 0 <= i < |xs| ==> xs[i] >= 0.0
  }

  predicate Symmetric(xs: seq<real>) {
    forall i :: 0 <= i < |xs| ==> xs[i] == xs[|xs| - 1 - i]
  }

  predicate Kernel(xs: seq<real>) {
    Nonnegative(xs) && Symmetric(xs) && Sum(xs) == 1.0
  }

  /** The exponent at distance `d` from the middle. */
  function Exponent(sigma: real, d: int): real
    requires sigma != 0.0
  {
    d as real * d as real * (-1.0 / (2.0 * sigma * sigma))
  }

  /** The unscaled kernel. */
  function Weights(exp: real -> real, sigma: real, n: nat): (ws: seq<real>)
    requires sigma != 0.0
    ensures |ws| == n
  {
    seq(n, i => exp(Exponent(sigma, i - (n - 1) / 2)))
  }

  lemma {:induction false} SumScaled(xs: seq<real>, alpha: real, ys: seq<real>)
    requires |xs| == |ys| && forall i :: 0 <= i < |xs| ==> ys[i] == xs[i] * alpha
    ensures Sum(ys) == Sum(xs) * alpha
    decreases |xs|
  {
    if xs != [] {
      SumScaled(xs[..|xs| - 1], alpha, ys[..|ys| - 1]);
    }
  }

  lemma {:induction false} SumPositive(xs: seq<real>)
    requires xs != [] && forall i :: 0 <= i < |xs| ==> xs[i] > 0.0
    ensures Sum(xs) > 0.0
    decreases |xs|
  {
    if |xs| > 1 {
      SumPositive(xs[..|xs| - 1]);
    } else {
      assert Sum(xs[..0]) == 0.0;
    }
  }

  lemma ExponentEven(sigma: real, d: int)
    requires sigma != 0.0
    ensures Exponent(sigma, -d) == Exponent(sigma, d)
  {
    assert (-d) as real == -(d as real);
    assert (-d) as real * (-d) as real == d as real * d as real;
  }

  lemma WeightsSymmetric(exp: real -> real, sigma: real, n: nat)
    requires sigma != 0.0 && n % 2 == 1
    ensures Symmetric(Weights(exp, sigma, n))
  {
    hide Exponent;
    var c := (n - 1) / 2;
    forall d: int
      ensures Exponent(sigma, -d) == Exponent(sigma, d)
    {
      ExponentEven(sigma, d);
    }
    var ws := Weights(exp, sigma, n);
    forall i | 0 <= i < n
      ensures ws[i] == ws[n - 1 - i]
    {
      assert n - 1 - i - c == -(i - c);
    }
  }

  lemma WeightsPositive(exp: real -> real, sigma: real, n: nat)
    requires sigma != 0.0 && forall x :: exp(x) > 0.0
    ensures forall i :: 0 <= i < n ==> Weights(exp, sigma, n)[i] > 0.0
    ensures n > 0 ==> Sum(Weights(exp, sigma, n)) > 0.0
  {
    hide Exponent, Sum;
    if n > 0 {
      SumPositive(Weights(exp, sigma, n));
    }
  }

  /** The weights scaled to sum one. */
  function KernelOf(exp: real -> real, sigma: real, n: nat): (ks: seq<real>)
    requires sigma != 0.0 && forall x :: exp(x) > 0.0
    ensures |ks| == n
  {
    WeightsPositive(exp, sigma, n);
    var ws := Weights(exp, sigma, n);
    seq(n, i requires 0 <= i < n => ws[i] * (1.0 / Sum(ws)))
  }

  /** For an odd width the kernel is symmetric, never negative, and sums to one. */
  lemma KernelOfOdd(exp: real -> real, sigma: real, n: nat)
    requires sigma != 0.0 && (forall x :: exp(x) > 0.0) && n % 2 == 1
    ensures Kernel(KernelOf(exp, sigma, n))
  {
    hide Exponent, Sum, Weights;
    var ws, ks := Weights(exp, sigma, n), KernelOf(exp, sigma, n);
    WeightsPositive(exp, sigma, n);
    WeightsSymmetric(exp, sigma, n);
    var alpha := 1.0 / Sum(ws);
    assert alpha > 0.0 && Sum(ws) * alpha == 1.0;
    SumScaled(ws, alpha, ks);
    KernelScaled(ws, alpha, ks);
  }

  lemma KernelScaled(ws: seq<real>, alpha: real, ks: seq<real>)
    requires |ws| == |ks| && alpha > 0.0 && Symmetric(ws) && Sum(ks) == 1.0
    requires forall i :: 0 <= i < |ws| ==> ws[i] > 0.0 && ks[i] == ws[i] * alpha
    ensures Kernel(ks)
  {
    hide Sum;
  }

  method FillWeights(dst: array<real>, sigma: real, exp: real -> real) returns (sum: real)
    requires sigma != 0.0
    modifies dst
    ensures dst[..] == Weights(exp, sigma, dst.Length) && sum == Sum(dst[..])
  {
    hide Exponent;
    var n := dst.Length;
    sum := 0.0;
    ghost var ws := Weights(exp, sigma, n);
    for i := 0 to n
      invariant forall p :: 0 <= p < i ==> dst[p] == ws[p]
      invariant sum == Sum(ws[..i])
    {
      dst[i] := exp(Exponent(sigma, i - (n - 1) / 2));
      assert ws[..i + 1][..i] == ws[..i];
      sum := sum + dst[i];
    }
    assert ws[..n] == ws;
  }

  method Scale(dst: array<real>, alpha: real)
    modifies dst
    ensures forall p :: 0 <= p < dst.Length ==> dst[p] == old(dst[p]) * alpha
  {
    for i := 0 to dst.Length
      invariant forall p :: 0 <= p < i ==> dst[p] == old(dst[p]) * alpha
      invariant forall p :: i <= p < dst.Length ==> dst[p] == old(dst[p])
    {
      dst[i] := dst[i] * alpha;
    }
  }

  method GaussianKernel(dst: array<real>, sigma: real, exp: real -> real)
    requires sigma != 0.0 && forall x :: exp(x) > 0.0
    modifies dst
    ensures dst[..] == KernelOf(exp, sigma, dst.Length)
  {
    hide Weights, Sum;
    var sum := FillWeights(dst, sigma, exp);
    ghost var ks := KernelOf(exp, sigma, dst.Length);
    if dst.Length == 0 {
      assert dst[..] == [] == ks;
      return;
    }
    WeightsPositive(exp, sigma, dst.Length);
    ghost var ws := dst[..];
    Scale(dst, 1.0 / sum);
    forall p | 0 <= p < dst.Length
      ensures dst[..][p] == ks[p]
    {
      assert dst[p] == ws[p] * (1.0 / Sum(ws));
    }
  }

  /** A width that is not positive stands for four deviations on each side. */
  function FilterWidth(width: int, sigma: real): int {
    if width <= 0 then 1 + 2 * (sigma * 4.0 + 0.5).Floor else width
  }

  /** The automatic width is odd and reaches four deviations to each side, rounded to the nearest. */
  lemma AutomaticWidth(width: int, sigma: real) returns (side: int)
    ensures width > 0 ==> FilterWidth(width, sigma) == width
    ensures width <= 0 ==>
              FilterWidth(width, sigma) == 2 * side + 1 && side as real - 0.5 <= 4.0 * sigma < side as real + 0.5
  {
    side := (sigma * 4.0 + 0.5).Floor;
  }

  /** A negative deviation serves as well as the positive one, unless the width that follows from it is negative. */
  method GaussianFilter(src: seq<real>, dst: array<real>, width0: int, sigma: real, border: Border, exp: real -> real)
    requires dst.Length == 0 || Extendable(border, src)
    requires sigma != 0.0 && FilterWidth(width0, sigma) >= 0 && forall x :: exp(x) > 0.0
    modifies dst
    ensures dst[..] == Convolved(border, src, KernelOf(exp, sigma, FilterWidth(width0, sigma)), dst.Length)
  {
    hide KernelOf, Convolved;
    var width := width0;
    if width <= 0 {
      width := 1 + 2 * (sigma * 4.0 + 0.5).Floor;
    }
    var k := new real[width];
    GaussianKernel(k, sigma, exp);
    Convolve(src, dst, k[..], border);
  }

  function Gradients(src: seq<real>): (dst: seq<real>)
    ensures |dst| == |src|
  {
    seq(|src|, i requires 0 <= i < |src| =>
      if |src| == 1 then 0.0
      else if i == 0 then src[1] - src[0]
      else if i == |src| - 1 then src[i] - src[i - 1]
      else 0.5 * (src[i + 1] - src[i - 1]))
  }

  method Gradient(src: seq<real>, dst: array<real>)
    requires dst.Length == |src|
    modifies dst
    ensures dst[..] == Gradients(src)
  {
    var n := |src|;
    if n == 0 {
      return;
    }
    if n == 1 {
      dst[0] := 0.0;
      return;
    }
    dst[0] := src[1] - src[0];
    for i := 1 to n - 1
      invariant forall p :: 0 <= p < i ==> dst[p] == Gradients(src)[p]
    {
      dst[i] := 0.5 * (src[i + 1] - src[i - 1]);
    }
    dst[n - 1] := src[n - 1] - src[n - 2];
  }

  // ---- What smoothing keeps ----

  const REFLECT := Border(Reflect, 0.0)

  lemma {:induction false} WeightedNonnegative(border: Border, src: seq<real>, kernel: seq<real>, k: int, m: nat)
    requires Extendable(border, src) && m <= |kernel|
    requires Nonnegative(src) && border.value >= 0.0 && Nonnegative(kernel)
    ensures Weighted(border, src, kernel, k, m) >= 0.0
    decreases m
  {
    if m > 0 {
      WeightedNonnegative(border, src, kernel, k, m - 1);
    }
  }

  function Reversed(xs: seq<real>): (ys: seq<real>)
    ensures |ys| == |xs|
  {
    seq(|xs|, i requires 0 <= i < |xs| => xs[|xs| - 1 - i])
  }

  /** Reflection is symmetric about the middle of the signal. */
  lemma ExtendedReversed(src: seq<real>, idx: int)
    requires |src| > 0
    ensures Extended(REFLECT, Reversed(src), idx) == Extended(REFLECT, src, |src| - 1 - idx)
  {
    var n := |src|;
    IndexReversed(n, idx);
    if 0 <= idx < n {
      IndexInside(Reflect, n, idx);
      IndexInside(Reflect, n, n - 1 - idx);
    }
  }

  lemma IndexReversed(n: nat, idx: int)
    requires n > 0
    ensures Index(Reflect, n, n - 1 - idx) == n - 1 - Index(Reflect, n, idx)
  {
    var m := idx % (2 * n);
    ModNegated(idx, 2 * n);
    var a := (-idx - 1) % (2 * n);
    assert a == 2 * n - 1 - m;
    assert -idx - 1 == (-idx - 1) / (2 * n) * (2 * n) + a;
    var q := (-idx - 1) / (2 * n);
    if a < n {
      assert n - 1 - idx == q * (2 * n) + (a + n);
      DivUnique(n - 1 - idx, 2 * n, q, a + n);
    } else {
      assert n - 1 - idx == (q + 1) * (2 * n) + (a - n);
      DivUnique(n - 1 - idx, 2 * n, q + 1, a - n);
    }
  }

  // ---- Smoothing with any symmetric kernel of odd width ----

  /** Smoothing as the program does it, reflecting at the borders. */
  function Smoothed(src: seq<real>, kernel: seq<real>): (dst: seq<real>)
    requires |src| > 0
    ensures |dst| == |src|
  {
    Convolved(REFLECT, src, kernel, |src|)
  }

  /** The terms of the weighted sum that starts at `k`. */
  function Terms(src: seq<real>, kernel: seq<real>, k: int): (terms: seq<real>)
    requires |src| > 0
    ensures |terms| == |kernel|
  {
    seq(|kernel|, j requires 0 <= j < |kernel| => Extended(REFLECT, src, k + j) * kernel[j])
  }

  lemma {:induction false} WeightedIsSum(src: seq<real>, kernel: seq<real>, k: int, m: nat)
    requires |src| > 0 && m <= |kernel|
    ensures Weighted(REFLECT, src, kernel, k, m) == Sum(Terms(src, kernel, k)[..m])
    decreases m
  {
    hide Extended;
    var terms := Terms(src, kernel, k);
    if m > 0 {
      WeightedIsSum(src, kernel, k, m - 1);
      assert terms[..m][..m - 1] == terms[..m - 1];
    }
  }

  lemma SmoothedIsSum(src: seq<real>, kernel: seq<real>, i: nat)
    requires i < |src|
    ensures Smoothed(src, kernel)[i] == Sum(Terms(src, kernel, i - |kernel| / 2))
  {
    hide Extended, Weighted;
    var terms := Terms(src, kernel, i - |kernel| / 2);
    WeightedIsSum(src, kernel, i - |kernel| / 2, |kernel|);
    assert terms[..|kernel|] == terms;
  }

  lemma {:induction false} SumFirst(x: real, xs: seq<real>)
    ensures Sum([x] + xs) == x + Sum(xs)
    decreases |xs|
  {
    var all := [x] + xs;
    if xs == [] {
      assert all[..0] == [];
    } else {
      SumFirst(x, xs[..|xs| - 1]);
      assert all[..|all| - 1] == [x] + xs[..|xs| - 1];
    }
  }

  lemma {:induction false} SumReversed(xs: seq<real>)
    ensures Sum(Reversed(xs)) == Sum(xs)
    decreases |xs|
  {
    if xs != [] {
      var front, x := xs[..|xs| - 1], xs[|xs| - 1];
      SumReversed(front);
      SumFirst(x, Reversed(front));
      assert Reversed(xs) == [x] + Reversed(front);
    }
  }

  lemma {:induction false} SumAdded(xs: seq<real>, ys: seq<real>, zs: seq<real>)
    requires |xs| == |ys| == |zs| && forall i :: 0 <= i < |xs| ==> zs[i] == xs[i] + ys[i]
    ensures Sum(zs) == Sum(xs) + Sum(ys)
    decreases |xs|
  {
    if xs != [] {
      var n := |xs| - 1;
      SumAdded(xs[..n], ys[..n], zs[..n]);
    }
  }

  /** Smoothing commutes with reversal. */
  lemma SmoothedReversed(src: seq<real>, kernel: seq<real>)
    requires |src| > 0 && |kernel| % 2 == 1 && Symmetric(kernel)
    ensures Smoothed(Reversed(src), kernel) == Reversed(Smoothed(src, kernel))
  {
    hide Extended, Smoothed, Sum;
    var n, h := |src|, |kernel| / 2;
    forall i | 0 <= i < n
      ensures Smoothed(Reversed(src), kernel)[i] == Reversed(Smoothed(src, kernel))[i]
    {
      SmoothedIsSum(Reversed(src), kernel, i);
      SmoothedIsSum(src, kernel, n - 1 - i);
      TermsReversed(src, kernel, i - h);
      assert n - 1 - (i - h) - 2 * h == n - 1 - i - h;
      SumReversed(Terms(src, kernel, n - 1 - i - h));
    }
  }

  lemma TermsReversed(src: seq<real>, kernel: seq<real>, k: int)
    requires |src| > 0 && |kernel| % 2 == 1 && Symmetric(kernel)
    ensures Terms(Reversed(src), kernel, k) == Reversed(Terms(src, kernel, |src| - 1 - k - 2 * (|kernel| / 2)))
  {
    hide Extended;
    var w := |kernel| - 1;
    forall j | 0 <= j < |kernel|
      ensures Terms(Reversed(src), kernel, k)[j] == Terms(src, kernel, |src| - 1 - k - w)[w - j]
    {
      ExtendedReversed(src, k + j);
      assert |src| - 1 - (k + j) == |src| - 1 - k - w + (w - j);
      assert kernel[j] == kernel[|kernel| - 1 - j];
    }
  }

  // ---- What smoothing conserves ----

  /** The sum of `m` samples of the reflected signal from index `a` on. */
  function Window(src: seq<real>, a: int, m: nat): real
    requires |src| > 0
  {
    if m == 0 then 0.0 else Window(src, a, m - 1) + Extended(REFLECT, src, a + m - 1)
  }

  lemma {:induction false} WindowSplit(src: seq<real>, a: int, m: nat, p: nat)
    requires |src| > 0
    ensures Window(src, a, m + p) == Window(src, a, m) + Window(src, a + m, p)
    decreases p
  {
    hide Extended;
    if p > 0 {
      WindowSplit(src, a, m, p - 1);
    }
  }

  lemma WindowFirst(src: seq<real>, a: int, m: nat)
    requires |src| > 0
    ensures Window(src, a, m + 1) == Extended(REFLECT, src, a) + Window(src, a + 1, m)
  {
    hide Extended;
    WindowSplit(src, a, 1, m);
    assert Window(src, a, 1) == Window(src, a, 0) + Extended(REFLECT, src, a);
  }

  lemma ExtendedIndex(src: seq<real>, idx: int)
    requires |src| > 0
    ensures Extended(REFLECT, src, idx) == src[Index(Reflect, |src|, idx)]
  {
    if 0 <= idx < |src| {
      IndexInside(Reflect, |src|, idx);
    }
  }

  /** The reflected signal mirrors itself before index zero and repeats with twice its length. */
  lemma ExtendedPeriod(src: seq<real>, idx: int)
    requires |src| > 0
    ensures Extended(REFLECT, src, -idx - 1) == Extended(REFLECT, src, idx)
    ensures Extended(REFLECT, src, idx + 2 * |src|) == Extended(REFLECT, src, idx)
  {
    hide Extended, Index;
    var n := |src|;
    ReflectSame(n, idx);
    ReflectSame(n, -idx - 1);
    assert 2 * n - (-idx - 1) - 1 == idx + 2 * n;
    ExtendedIndex(src, idx);
    ExtendedIndex(src, -idx - 1);
    ExtendedIndex(src, idx + 2 * n);
  }

  lemma {:induction false} WindowReflected(src: seq<real>, a: int, m: nat)
    requires |src| > 0
    ensures Window(src, -a - m, m) == Window(src, a, m)
    decreases m
  {
    hide Extended;
    if m > 0 {
      WindowReflected(src, a, m - 1);
      WindowFirst(src, -a - m, m - 1);
      ExtendedPeriod(src, a + m - 1);
      assert -(a + m - 1) - 1 == -a - m && -a - m + 1 == -a - (m - 1);
    }
  }

  /** Every window of one period has the same sum. */
  lemma {:induction false} WindowPeriod(src: seq<real>, a: int, steps: nat)
    requires |src| > 0
    ensures Window(src, a + steps, 2 * |src|) == Window(src, a, 2 * |src|)
    decreases steps
  {
    hide Extended, Window;
    if steps > 0 {
      var b := a + steps - 1;
      WindowPeriod(src, a, steps - 1);
      WindowFirst(src, b, 2 * |src|);
      WindowSplit(src, b, 2 * |src|, 1);
      WindowFirst(src, b + 2 * |src|, 0);
      ExtendedPeriod(src, b);
      WindowNone(src, b + 2 * |src| + 1);
      assert b + 1 == a + steps;
    }
  }

  lemma WindowNone(src: seq<real>, a: int)
    requires |src| > 0
    ensures Window(src, a, 0) == 0.0
  {
  }

  /** Windows shifted by the same distance to either side make one period. */
  lemma WindowPair(src: seq<real>, d: int)
    requires |src| > 0
    ensures Window(src, d, |src|) + Window(src, -d, |src|) == 2.0 * Window(src, 0, |src|)
  {
    hide Window;
    var n := |src|;
    WindowReflected(src, -d, n);
    assert d - n == -(-d) - n;
    WindowSplit(src, d - n, n, n);
    WindowReflected(src, 0, n);
    WindowSplit(src, -n, n, n);
    if d >= 0 {
      WindowPeriod(src, -n, d);
    } else {
      WindowPeriod(src, d - n, -d);
    }
  }

  lemma {:induction false} WindowInside(src: seq<real>, m: nat)
    requires 0 < |src| && m <= |src|
    ensures Window(src, 0, m) == Sum(src[..m])
    decreases m
  {
    hide Extended;
    if m > 0 {
      WindowInside(src, m - 1);
      ExtendedInside(REFLECT, src, m - 1);
      assert src[..m][..m - 1] == src[..m - 1];
    }
  }

  /** The samples shifted by `d`. */
  function ShiftedBy(src: seq<real>, d: int, m: nat): (xs: seq<real>)
    requires |src| > 0
    ensures |xs| == m
  {
    seq(m, i => Extended(REFLECT, src, i + d))
  }

  lemma {:induction false} SumShifted(src: seq<real>, d: int, m: nat)
    requires |src| > 0
    ensures Sum(ShiftedBy(src, d, m)) == Window(src, d, m)
    decreases m
  {
    hide Extended;
    if m > 0 {
      SumShifted(src, d, m - 1);
      assert ShiftedBy(src, d, m)[..m - 1] == ShiftedBy(src, d, m - 1);
    }
  }

  /** All samples of the smoothed signal, with the first `m` weights only. */
  function Partial(src: seq<real>, kernel: seq<real>, m: nat): (xs: seq<real>)
    requires |src| > 0 && m <= |kernel|
    ensures |xs| == |src|
  {
    seq(|src|, i => Weighted(REFLECT, src, kernel, i - |kernel| / 2, m))
  }

  /** What one weight contributes to the total. */
  function Column(src: seq<real>, kernel: seq<real>, j: nat): real
    requires |src| > 0 && j < |kernel|
  {
    Window(src, j - |kernel| / 2, |src|) * kernel[j]
  }

  function Columns(src: seq<real>, kernel: seq<real>): (columns: seq<real>)
    requires |src| > 0
    ensures |columns| == |kernel|
  {
    seq(|kernel|, j requires 0 <= j < |kernel| => Column(src, kernel, j))
  }

  function Scaled(xs: seq<real>, alpha: real): (ys: seq<real>)
    ensures |ys| == |xs|
  {
    seq(|xs|, i requires 0 <= i < |xs| => xs[i] * alpha)
  }

  lemma PartialNext(src: seq<real>, kernel: seq<real>, m: nat, i: nat)
    requires i < |src| && 0 < m <= |kernel|
    ensures Partial(src, kernel, m)[i] ==
            Partial(src, kernel, m - 1)[i] + Scaled(ShiftedBy(src, m - 1 - |kernel| / 2, |src|), kernel[m - 1])[i]
  {
    hide Extended;
    var k, d := i - |kernel| / 2, m - 1 - |kernel| / 2;
    assert k + m - 1 == i + d;
    assert ShiftedBy(src, d, |src|)[i] == Extended(REFLECT, src, k + m - 1);
    assert Scaled(ShiftedBy(src, d, |src|), kernel[m - 1])[i] == Extended(REFLECT, src, k + m - 1) * kernel[m - 1];
    assert Partial(src, kernel, m)[i] == Weighted(REFLECT, src, kernel, k, m);
    assert Partial(src, kernel, m - 1)[i] == Weighted(REFLECT, src, kernel, k, m - 1);
  }

  lemma PartialNone(src: seq<real>, kernel: seq<real>)
    requires |src| > 0
    ensures Sum(Partial(src, kernel, 0)) == 0.0
  {
    hide Sum;
    var xs := Partial(src, kernel, 0);
    forall i | 0 <= i < |xs|
      ensures xs[i] == 0.0
    {
      assert xs[i] == Weighted(REFLECT, src, kernel, i - |kernel| / 2, 0);
    }
    SumOfZeros(xs);
  }

  lemma {:induction false} SumOfZeros(xs: seq<real>)
    requires forall i :: 0 <= i < |xs| ==> xs[i] == 0.0
    ensures Sum(xs) == 0.0
    decreases |xs|
  {
    if xs != [] {
      SumOfZeros(xs[..|xs| - 1]);
    }
  }

  /** Summing by samples and summing by weights give the same. */
  lemma {:induction false} SumByWeights(src: seq<real>, kernel: seq<real>, m: nat)
    requires |src| > 0 && m <= |kernel|
    ensures Sum(Partial(src, kernel, m)) == Sum(Columns(src, kernel)[..m])
    decreases m
  {
    hide Extended, Window, Partial, Column, Scaled, ShiftedBy;
    var columns := Columns(src, kernel);
    if m == 0 {
      PartialNone(src, kernel);
      assert columns[..0] == [];
    } else {
      SumByWeights(src, kernel, m - 1);
      ColumnIs(src, kernel, m - 1);
      var xs := Scaled(ShiftedBy(src, m - 1 - |kernel| / 2, |src|), kernel[m - 1]);
      forall i | 0 <= i < |src|
        ensures Partial(src, kernel, m)[i] == Partial(src, kernel, m - 1)[i] + xs[i]
      {
        PartialNext(src, kernel, m, i);
      }
      SumAdded(Partial(src, kernel, m - 1), xs, Partial(src, kernel, m));
      assert columns[..m][..m - 1] == columns[..m - 1];
    }
  }

  lemma ColumnIs(src: seq<real>, kernel: seq<real>, j: nat)
    requires |src| > 0 && j < |kernel|
    ensures Sum(Scaled(ShiftedBy(src, j - |kernel| / 2, |src|), kernel[j])) == Column(src, kernel, j)
  {
    hide Window, ShiftedBy, Sum;
    var xs := ShiftedBy(src, j - |kernel| / 2, |src|);
    SumScaled(xs, kernel[j], Scaled(xs, kernel[j]));
    SumShifted(src, j - |kernel| / 2, |src|);
  }

  /** Smoothing multiplies the total by the sum of the weights; a kernel that sums to one conserves it. */
  lemma SmoothedTotal(src: seq<real>, kernel: seq<real>)
    requires |src| > 0 && |kernel| % 2 == 1 && Symmetric(kernel)
    ensures Sum(Smoothed(src, kernel)) == Sum(src) * Sum(kernel)
    ensures Kernel(kernel) ==> Sum(Smoothed(src, kernel)) == Sum(src)
  {
    hide Window, Weighted, Sum, Column, Scaled;
    var columns, n := Columns(src, kernel), |src|;
    SumByWeights(src, kernel, |kernel|);
    assert columns[..|kernel|] == columns;
    assert Partial(src, kernel, |kernel|) == Smoothed(src, kernel);
    TwiceColumns(src, kernel);
    WindowInside(src, n);
    assert src[..n] == src;
    Halved(Sum(columns), Sum(kernel), Sum(src));
  }

  lemma TwiceColumns(src: seq<real>, kernel: seq<real>)
    requires |src| > 0 && |kernel| % 2 == 1 && Symmetric(kernel)
    ensures Sum(Columns(src, kernel)) + Sum(Columns(src, kernel)) == Sum(kernel) * (2.0 * Window(src, 0, |src|))
  {
    hide Window, Sum, Column, Symmetric;
    var columns, twice := Columns(src, kernel), 2.0 * Window(src, 0, |src|);
    forall j | 0 <= j < |kernel|
      ensures Scaled(kernel, twice)[j] == columns[j] + Reversed(columns)[j]
    {
      ColumnsPaired(src, kernel, j);
    }
    SumAdded(columns, Reversed(columns), Scaled(kernel, twice));
    SumReversed(columns);
    SumScaled(kernel, twice, Scaled(kernel, twice));
  }

  lemma ColumnsPaired(src: seq<real>, kernel: seq<real>, j: nat)
    requires |src| > 0 && |kernel| % 2 == 1 && Symmetric(kernel) && j < |kernel|
    ensures Column(src, kernel, j) + Column(src, kernel, |kernel| - 1 - j) == kernel[j] * (2.0 * Window(src, 0, |src|))
  {
    hide Window;
    var n, h, l := |src|, |kernel| / 2, |kernel| - 1 - j;
    assert kernel[j] == kernel[l] && l - h == -(j - h);
    WindowPair(src, j - h);
    PairTimes(Window(src, j - h, n), Window(src, -(j - h), n), 2.0 * Window(src, 0, n), kernel[j]);
  }

  lemma PairTimes(x: real, y: real, s: real, k: real)
    requires x + y == s
    ensures x * k + y * k == k * s
  {
  }

  lemma Halved(c: real, k: real, s: real)
    requires c + c == k * (2.0 * s)
    ensures c == s * k
    ensures k == 1.0 ==> c == s
  {
    assert k * (2.0 * s) == 2.0 * (s * k);
  }

  // ---- Width three ----

  /** One sample of the smoothing used on the offset histogram. */
  function Three(src: seq<real>, kernel: seq<real>, i: int): real
    requires |src| > 0 && |kernel| == 3
  {
    Extended(REFLECT, src, i - 1) * kernel[0] + Extended(REFLECT, src, i) * kernel[1] + Extended(REFLECT, src, i + 1) * kernel[2]
  }

  lemma SmoothedAt(src: seq<real>, kernel: seq<real>, i: nat)
    requires i < |src| && |kernel| == 3
    ensures Smoothed(src, kernel)[i] == Three(src, kernel, i)
  {
    hide Extended;
    var k := i - 1;
    assert Smoothed(src, kernel)[i] == Weighted(REFLECT, src, kernel, k, 3);
    assert Weighted(REFLECT, src, kernel, k, 1) == Extended(REFLECT, src, k) * kernel[0];
    assert Weighted(REFLECT, src, kernel, k, 2) == Weighted(REFLECT, src, kernel, k, 1) + Extended(REFLECT, src, k + 1) * kernel[1];
    assert Weighted(REFLECT, src, kernel, k, 3) == Weighted(REFLECT, src, kernel, k, 2) + Extended(REFLECT, src, k + 2) * kernel[2];
  }

  lemma ReflectEnds(src: seq<real>)
    requires |src| > 0
    ensures Extended(REFLECT, src, -1) == src[0]
    ensures Extended(REFLECT, src, |src|) == src[|src| - 1]
  {
    var n := |src|;
    ReflectSame(n, 0);
    ReflectSame(n, n - 1);
    IndexInside(Reflect, n, 0);
    IndexInside(Reflect, n, n - 1);
  }

  lemma SumOfThree(xs: seq<real>)
    requires |xs| == 3
    ensures Sum(xs) == xs[0] + xs[1] + xs[2]
  {
    assert xs[..2][..1] == xs[..1] && xs[..1][..0] == [];
    assert Sum(xs[..1]) == xs[0];
    assert Sum(xs[..2]) == xs[0] + xs[1];
  }

  lemma KernelThree(kernel: seq<real>)
    requires |kernel| == 3 && Kernel(kernel)
    ensures kernel[0] == kernel[2] && kernel[0] + kernel[1] + kernel[0] == 1.0
  {
    SumOfThree(kernel);
  }
}
