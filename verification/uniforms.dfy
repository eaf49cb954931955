/**
 * The display-uniform calculator. A sample is split into 1..4 texture
 * channels of `channelSize` bytes each; the shader rebuilds a colour-map
 * coordinate from the channels with per-channel coefficients `c` and
 * offsets `z`. This module computes those, in exact real arithmetic.
 */
module ShaderUniforms {
  import opened Wrappers

  /** b^n. */
  function Pow(b: int, n: nat): int
  {
    if n == 0 then 1 else b * Pow(b, n - 1)
  }

  lemma {:induction false} PowPositive(b: int, n: nat)
    requires b >= 1
    ensures Pow(b, n) >= 1
  {
    if n > 0 {
      PowPositive(b, n - 1);
      MulAtLeastOne(b, Pow(b, n - 1));
    }
  }

  lemma MulAtLeastOne(a: int, b: int)
    requires a >= 1 && b >= 1
    ensures a * b >= 1 && a * b >= b
  {
  }

  lemma {:induction false} PowAdd(b: int, m: nat, n: nat)
    ensures Pow(b, m + n) == Pow(b, m) * Pow(b, n)
  {
    if m > 0 {
      PowAdd(b, m - 1, n);
      assert Pow(b, m + n) == b * Pow(b, m - 1 + n);
    }
  }

  lemma {:induction false} PowMul(b: int, m: nat, n: nat)
    ensures Pow(b, m * n) == Pow(Pow(b, m), n)
  {
    if n > 0 {
      PowMul(b, m, n - 1);
      assert m * n == m + m * (n - 1);
      PowAdd(b, m, m * (n - 1));
    }
  }

  /** `base = 1 << (8 * channel_size)`: the number of values of one channel. */
  function Base(channelSize: nat): (b: int)
    ensures channelSize == 0 ==> b == 1
    ensures channelSize > 0 ==> b >= 256
  {
    BaseBound(channelSize);
    Pow(2, 8 * channelSize)
  }

  lemma BaseBound(channelSize: nat)
    ensures channelSize > 0 ==> Pow(2, 8 * channelSize) >= 256
  {
    if channelSize > 0 {
      PowAdd(2, 8, 8 * (channelSize - 1));
      PowPositive(2, 8 * (channelSize - 1));
      assert Pow(2, 8) == 256;
      MulAtLeastOne(Pow(2, 8 * (channelSize - 1)), 256);
    }
  }

  /** The channel layouts the constructor accepts. */
  predicate ValidLayout(channels: nat, channelSize: nat)
  {
    1 <= channels <= 4 && (channelSize == 0 ==> channels == 1)
  }

  /** The constructor's weights `a`: channel j (0 = most significant) holds
      2^(8*channelSize*(channels-1-j)) * (2^(8*channelSize) - 1); a layout
      with no channel bytes has the single weight 1. */
  function Weights(channels: nat, channelSize: nat): (a: seq<int>)
    requires ValidLayout(channels, channelSize)
    ensures |a| == channels
    ensures channelSize == 0 ==> a == [1]
    ensures channelSize > 0 ==> a[channels - 1] == Pow(2, 8 * channelSize) - 1
  {
    if channelSize > 0 then
      var a := seq(channels, j requires 0 <= j < channels =>
        Pow(2, 8 * channelSize * (channels - 1 - j)) * (Pow(2, 8 * channelSize) - 1));
      assert a[channels - 1] == Pow(2, 0) * (Pow(2, 8 * channelSize) - 1) by {
        assert 8 * channelSize * (channels - 1 - (channels - 1)) == 0;
      }
      a
    else [1]
  }

  /** Weights written with the channel base: a[j] = base^(n-1-j) * (base-1). */
  function BaseWeights(b: int, n: nat): (a: seq<int>)
    ensures |a| == n
  {
    seq(n, j requires 0 <= j < n => Pow(b, n - 1 - j) * (b - 1))
  }

  /** 2^(8*channelSize*m) is the m-th power of the channel base. */
  lemma PowOfBase(channelSize: nat, m: nat)
    ensures Pow(2, 8 * channelSize * m) == Pow(Base(channelSize), m)
  {
    PowMul(2, 8 * channelSize, m);
  }

  /** The weights are base powers: the least significant is base-1, and each
      is base times the next less significant one. */
  lemma WeightsAreBasePowers(channels: nat, channelSize: nat)
    requires ValidLayout(channels, channelSize)
    requires channelSize > 0
    ensures Weights(channels, channelSize) == BaseWeights(Base(channelSize), channels)
    ensures Weights(channels, channelSize)[channels - 1] == Base(channelSize) - 1
    ensures forall i, j :: 0 <= i && j == i + 1 && j < channels ==>
              Weights(channels, channelSize)[i] == Base(channelSize) * Weights(channels, channelSize)[j]
  {
    var a := Weights(channels, channelSize);
    var b := Base(channelSize);
    var w := BaseWeights(b, channels);
    forall j | 0 <= j < channels
      ensures a[j] == w[j]
    {
      PowOfBase(channelSize, channels - 1 - j);
    }
    assert a == w;
    BaseWeightsLast(b, channels);
    BaseWeightsStep(b, channels);
  }

  /** In BaseWeights the least significant weight is b-1. */
  lemma BaseWeightsLast(b: int, n: nat)
    requires n >= 1
    ensures BaseWeights(b, n)[n - 1] == b - 1
  {
    assert BaseWeights(b, n)[n - 1] == Pow(b, 0) * (b - 1);
  }

  /** In BaseWeights each weight is b times its less significant neighbour. */
  lemma BaseWeightsStep(b: int, n: nat)
    ensures forall i, j :: 0 <= i && j == i + 1 && j < n ==> BaseWeights(b, n)[i] == b * BaseWeights(b, n)[j]
  {
    var w := BaseWeights(b, n);
    forall i, j | 0 <= i && j == i + 1 && j < n
      ensures w[i] == b * w[j]
    {
      assert Pow(b, n - 1 - i) == b * Pow(b, n - 1 - j);
    }
  }

  /** Dropping the least significant weight leaves b times the weights of a
      layout with one channel fewer. */
  lemma BaseWeightsPrefix(b: int, k: nat)
    ensures forall i :: 0 <= i < k ==> BaseWeights(b, k + 1)[..k][i] == b * BaseWeights(b, k)[i]
  {
    var a, lower := BaseWeights(b, k + 1), BaseWeights(b, k);
    forall i | 0 <= i < k
      ensures a[..k][i] == b * lower[i]
    {
      assert a[i] == Pow(b, k - i) * (b - 1);
      assert lower[i] == Pow(b, k - 1 - i) * (b - 1);
      assert Pow(b, k - i) == b * Pow(b, k - 1 - i);
    }
  }

  /** Σ z[i] * a[i]. */
  function WeightedSum(z: seq<real>, a: seq<int>): real
    requires |z| == |a|
  {
    if |z| == 0 then 0.0
    else WeightedSum(z[..|z| - 1], a[..|a| - 1]) + z[|z| - 1] * a[|a| - 1] as real
  }

  /** Scaling every weight by b scales the sum by b. */
  lemma {:induction false} WeightedSumScale(z: seq<real>, a: seq<int>, a': seq<int>, b: int)
    requires |z| == |a| == |a'|
    requires forall i :: 0 <= i < |a| ==> a[i] == b * a'[i]
    ensures WeightedSum(z, a) == b as real * WeightedSum(z, a')
  {
    if |z| > 0 {
      var n := |z| - 1;
      WeightedSumScale(z[..n], a[..n], a'[..n], b);
      var s', x, y := WeightedSum(z[..n], a'[..n]), z[n], a'[n] as real;
      var B := b as real;
      assert a[n] as real == B * y;
      assert WeightedSum(z, a) == B * s' + x * (B * y);
      assert WeightedSum(z, a') == s' + x * y;
      Distribute(B, s', x, y);
    }
  }

  lemma Distribute(b: real, s: real, x: real, y: real)
    ensures b * s + x * (b * y) == b * (s + x * y)
  {
  }

  /** floor(d / base): what one peeling step carries to the next channel. */
  function Carry(d: real, b: int): int
    requires b >= 2
  {
    (d / b as real).Floor
  }

  /** The fractional part of d/base rescaled by base/(base-1): one channel's
      offset. */
  function Digit(d: real, b: int): real
    requires b >= 2
  {
    (d / b as real - Carry(d, b) as real) * b as real / (b - 1) as real
  }

  /** The offset-peeling loop of `update_cz` (channel_size > 0): starting
      from `d`, each of the `k` lower channels takes a digit and passes the
      carry on; the top channel takes what remains over base-1. The result
      lists channels most significant first. */
  function Peel(d: real, b: int, k: nat): (z: seq<real>)
    requires b >= 2
    decreases k
    ensures |z| == k + 1
    ensures forall j :: 1 <= j <= k ==> InChannelRange(z[j], b)
  {
    if k == 0 then [d / (b - 1) as real]
    else
      var upper := Peel(Carry(d, b) as real, b, k - 1);
      DigitStep(d, b);
      assert forall j :: 1 <= j < k ==> (upper + [Digit(d, b)])[j] == upper[j];
      upper + [Digit(d, b)]
  }

  /** One digit times base-1 is d minus base times the carry, and it lies in
      [0, base). */
  lemma DigitStep(d: real, b: int)
    requires b >= 2
    ensures Digit(d, b) * (b - 1) as real == d - b as real * Carry(d, b) as real
    ensures 0.0 <= Digit(d, b) * (b - 1) as real < b as real
  {
    var B, q := b as real, Carry(d, b) as real;
    DigitArithmetic(d, B, (b - 1) as real, q, Digit(d, b));
  }

  /** The real arithmetic of one peeling step, over plain reals. */
  lemma DigitArithmetic(d: real, b: real, b1: real, q: real, digit: real)
    requires b >= 2.0 && b1 == b - 1.0
    requires q <= d / b < q + 1.0
    requires digit == (d / b - q) * b / b1
    ensures digit * b1 == d - b * q
    ensures 0.0 <= digit * b1 < b
  {
    var x := d / b - q;
    var y := x * b;
    assert digit == y / b1;
    DivMulCancel(y, b1);
    assert digit * b1 == y;
    FractionTimesBase(x, b);
    assert 0.0 <= y < b;
    ScaleBack(d, q, b);
    assert y == d - b * q;
  }

  lemma DivMulCancel(t: real, c: real)
    requires c != 0.0
    ensures t / c * c == t
  {
  }

  lemma ScaleBack(d: real, q: real, b: real)
    requires b != 0.0
    ensures (d / b - q) * b == d - b * q
  {
  }

  lemma FractionTimesBase(x: real, b: real)
    requires 0.0 <= x < 1.0 && b > 0.0
    ensures 0.0 <= x * b < b
  {
  }

  /** The peeled offsets reconstruct d exactly: Σ z[i] * a[i] == d. */
  lemma {:induction false} PeelReconstructs(d: real, b: int, k: nat)
    requires b >= 2
    decreases k
    ensures WeightedSum(Peel(d, b, k), BaseWeights(b, k + 1)) == d
  {
    if k == 0 {
      TopChannelReconstructs(d, b);
    } else {
      PeelReconstructs(Carry(d, b) as real, b, k - 1);
      PeelStepReconstructs(d, b, k);
    }
  }

  /** With no lower channel the single offset d/(base-1) has weight base-1. */
  lemma TopChannelReconstructs(d: real, b: int)
    requires b >= 2
    ensures WeightedSum(Peel(d, b, 0), BaseWeights(b, 1)) == d
  {
    var z, a := Peel(d, b, 0), BaseWeights(b, 1);
    assert z == [d / (b - 1) as real];
    BaseWeightsLast(b, 1);
    assert a == [b - 1];
    assert z[..0] == [] && a[..0] == [];
    assert WeightedSum(z, a) == d / (b - 1) as real * (b - 1) as real;
    DivMulCancel(d, (b - 1) as real);
  }

  /** One peeling step: if the carry is reconstructed by the upper channels,
      d is reconstructed by them plus the new digit. */
  lemma PeelStepReconstructs(d: real, b: int, k: nat)
    requires b >= 2 && k > 0
    requires WeightedSum(Peel(Carry(d, b) as real, b, k - 1), BaseWeights(b, k)) == Carry(d, b) as real
    ensures WeightedSum(Peel(d, b, k), BaseWeights(b, k + 1)) == d
  {
    var high := WeightedSum(Peel(Carry(d, b) as real, b, k - 1), BaseWeights(b, k + 1)[..k]);
    var digit := Digit(d, b);
    PeelSumSplit(d, b, k);
    UpperChannelsScale(d, b, k);
    DigitStep(d, b);
    LinearClose(WeightedSum(Peel(d, b, k), BaseWeights(b, k + 1)), high,
                digit * (b - 1) as real, b as real * Carry(d, b) as real, d);
  }

  lemma LinearClose(total: real, high: real, low: real, carried: real, d: real)
    requires total == high + low && high == carried && low == d - carried
    ensures total == d
  {
  }

  /** The sum over a peeled layout is the upper channels' sum plus the digit
      times base-1. */
  lemma PeelSumSplit(d: real, b: int, k: nat)
    requires b >= 2 && k > 0
    ensures WeightedSum(Peel(d, b, k), BaseWeights(b, k + 1))
         == WeightedSum(Peel(Carry(d, b) as real, b, k - 1), BaseWeights(b, k + 1)[..k])
            + Digit(d, b) * (b - 1) as real
  {
    var z, a := Peel(d, b, k), BaseWeights(b, k + 1);
    var upper := Peel(Carry(d, b) as real, b, k - 1);
    var digit := Digit(d, b);
    assert z[..k] == upper && z[k] == digit by {
      assert z == upper + [digit];
    }
    assert a[k] as real == (b - 1) as real by {
      BaseWeightsLast(b, k + 1);
    }
    SumSplitLast(z, a, upper, digit, (b - 1) as real);
  }

  /** Splitting off the last term of a weighted sum. */
  lemma SumSplitLast(z: seq<real>, a: seq<int>, upper: seq<real>, last: real, weight: real)
    requires |z| == |a| > 0 && z[..|z| - 1] == upper && z[|z| - 1] == last
    requires a[|a| - 1] as real == weight
    ensures WeightedSum(z, a) == WeightedSum(upper, a[..|a| - 1]) + last * weight
  {
  }

  /** The upper channels' weights are base times those of a layout with one
      channel fewer, so their sum is base times the carry. */
  lemma UpperChannelsScale(d: real, b: int, k: nat)
    requires b >= 2 && k > 0
    requires WeightedSum(Peel(Carry(d, b) as real, b, k - 1), BaseWeights(b, k)) == Carry(d, b) as real
    ensures WeightedSum(Peel(Carry(d, b) as real, b, k - 1), BaseWeights(b, k + 1)[..k])
         == b as real * Carry(d, b) as real
  {
    BaseWeightsPrefix(b, k);
    WeightedSumScale(Peel(Carry(d, b) as real, b, k - 1), BaseWeights(b, k + 1)[..k], BaseWeights(b, k), b);
  }

  /** An offset whose channel value z*(base-1) is one channel's value in [0, base). */
  predicate InChannelRange(z: real, b: int)
  {
    0.0 <= z * (b - 1) as real < b as real
  }

  /** The per-channel coefficients and offsets handed to the shader. */
  datatype Coefficients = Coefficients(c: seq<real>, z: seq<real>)

  /** The constants the constructor fixes: the channel layout, the linear
      scaling of the image and the derived base and weights. */
  datatype Layout = Layout(
    channels: nat,
    channelSize: nat,
    bzero: real,
    bscale: real,
    base: int,
    a: seq<int>)

  /** The calculator state: the constants, the current window and colour-map
      size, and the last computed coefficients (none before the first update). */
  datatype Uniforms = Uniforms(
    layout: Layout,
    minmax: (real, real),
    colormapSize: int,
    cz: Option<Coefficients>)

  /** The constructor's invariant. */
  predicate Valid(l: Layout)
  {
    && ValidLayout(l.channels, l.channelSize)
    && l.base == Base(l.channelSize)
    && l.a == Weights(l.channels, l.channelSize)
  }

  /** `update_cz` divides by N, by max-min and by alpha*N; the double
      arithmetic yields infinities or NaN unless all three are non-zero. */
  predicate Computable(minmax: (real, real), n: int)
  {
    n != 0 && n != 1 && minmax.1 != minmax.0
  }

  /** alpha = (1 - 1/N) / (max - min): the colour-map coordinate gained per
      physical unit; the window spans N-1 of the N colour-map cells. */
  function Alpha(minmax: (real, real), n: int): (alpha: real)
    requires Computable(minmax, n)
    ensures alpha != 0.0
  {
    AlphaNumerator(n);
    (1.0 - 1.0 / n as real) / (minmax.1 - minmax.0)
  }

  lemma AlphaNumerator(n: int)
    requires n != 0 && n != 1
    ensures 1.0 - 1.0 / n as real != 0.0
    ensures n > 1 ==> 1.0 - 1.0 / n as real > 0.0
  {
    if n > 1 {
      assert 1.0 / n as real < 1.0;
    }
  }

  /** The window spans N-1 of the N colour-map cells, and alpha is positive
      for a proper window and more than one cell. */
  lemma AlphaSpansWindow(minmax: (real, real), n: int)
    requires Computable(minmax, n)
    ensures Alpha(minmax, n) * (minmax.1 - minmax.0) == 1.0 - 1.0 / n as real
    ensures n > 1 && minmax.1 > minmax.0 ==> Alpha(minmax, n) > 0.0
  {
    AlphaNumerator(n);
  }

  /** The raw-value offset d = -0.5/(alpha*N) + min - bzero. */
  function Offset(minmax: (real, real), n: int, bzero: real): real
    requires Computable(minmax, n)
  {
    -0.5 / (Alpha(minmax, n) * n as real) + minmax.0 - bzero
  }

  /** Every weight times the factor k. */
  function Scale(k: real, a: seq<int>): (c: seq<real>)
    ensures |c| == |a|
  {
    seq(|a|, i requires 0 <= i < |a| => k * a[i] as real)
  }

  /** The offsets: d split into channel digits, or d itself over the single
      weight 1 for floating-point samples. In both branches the digits
      reconstruct d through the weights, and every channel below the top
      one lies in one channel's range. */
  function Offsets(l: Layout, d: real): (z: seq<real>)
    requires Valid(l)
    ensures |z| == l.channels
    ensures WeightedSum(z, l.a) == d
    ensures l.channelSize == 0 ==> z == [d]
    ensures forall j :: 1 <= j < l.channels ==> InChannelRange(z[j], l.base)
  {
    if l.channelSize > 0 then
      WeightsAreBasePowers(l.channels, l.channelSize);
      PeelReconstructs(d, l.base, l.channels - 1);
      Peel(d, l.base, l.channels - 1)
    else
      assert l.a == [1];
      var z := [d / l.a[0] as real];
      assert z[..0] == [] && l.a[..0] == [];
      z
  }

  /** `update_cz`, defined when the divisions it performs are. */
  function ComputeCz(l: Layout, minmax: (real, real), n: int): (r: Option<Coefficients>)
    requires Valid(l)
    ensures r.Some? <==> Computable(minmax, n)
    ensures r.Some? ==> |r.value.c| == l.channels && |r.value.z| == l.channels
    ensures r.Some? ==> r.value.c == Scale(l.bscale * Alpha(minmax, n), l.a)
    ensures r.Some? ==> WeightedSum(r.value.z, l.a) == Offset(minmax, n, l.bzero)
  {
    if !Computable(minmax, n) then None
    else Some(Coefficients(Scale(l.bscale * Alpha(minmax, n), l.a), Offsets(l, Offset(minmax, n, l.bzero))))
  }

  /** The coefficients c[i] = k*a[i], k = bscale*alpha, follow the weights:
      the single coefficient k for floating-point samples; otherwise the least
      significant is k*(base-1) and each is base times the next. */
  lemma CoefficientsFollowWeights(l: Layout, k: real)
    requires Valid(l)
    ensures l.channelSize == 0 ==> Scale(k, l.a) == [k]
    ensures l.channelSize > 0 ==> Scale(k, l.a)[l.channels - 1] == k * (l.base - 1) as real
    ensures l.channelSize > 0 ==>
      forall i, j :: 0 <= i && j == i + 1 && j < l.channels ==> Scale(k, l.a)[i] == l.base as real * Scale(k, l.a)[j]
  {
    WeightFacts(l);
    CoefficientsFromWeightFacts(l, k);
  }

  /** What a valid layout's weights satisfy: the single weight 1 for
      floating-point samples; otherwise base-1 last and a factor base
      between neighbours. */
  lemma WeightFacts(l: Layout)
    requires Valid(l)
    ensures |l.a| == l.channels > 0
    ensures l.channelSize == 0 ==> l.a == [1]
    ensures l.channelSize > 0 ==> l.a[l.channels - 1] == l.base - 1
    ensures l.channelSize > 0 ==>
      forall i, j :: 0 <= i && j == i + 1 && j < l.channels ==> l.a[i] == l.base * l.a[j]
  {
    if l.channelSize > 0 {
      WeightsAreBasePowers(l.channels, l.channelSize);
    }
  }

  lemma CoefficientsFromWeightFacts(l: Layout, k: real)
    requires |l.a| == l.channels > 0
    requires l.channelSize == 0 ==> l.a == [1]
    requires l.channelSize > 0 ==> l.a[l.channels - 1] == l.base - 1
    requires l.channelSize > 0 ==>
      forall i, j :: 0 <= i && j == i + 1 && j < l.channels ==> l.a[i] == l.base * l.a[j]
    ensures l.channelSize == 0 ==> Scale(k, l.a) == [k]
    ensures l.channelSize > 0 ==> Scale(k, l.a)[l.channels - 1] == k * (l.base - 1) as real
    ensures l.channelSize > 0 ==>
      forall i, j :: 0 <= i && j == i + 1 && j < l.channels ==> Scale(k, l.a)[i] == l.base as real * Scale(k, l.a)[j]
  {
    if l.channelSize > 0 {
      ScaledIntegerWeights(k, l.a, l.base);
    } else {
      ScaledUnitWeight(k);
    }
  }

  /** The single weight 1 scaled by k. */
  lemma ScaledUnitWeight(k: real)
    ensures Scale(k, [1]) == [k]
  {
    assert Scale(k, [1])[0] == k * 1.0;
  }

  /** Integer-channel weights scaled by k: the last is k*(base-1) and each
      is base times the next. */
  lemma ScaledIntegerWeights(k: real, a: seq<int>, b: int)
    requires |a| > 0 && a[|a| - 1] == b - 1
    requires forall i, j :: 0 <= i && j == i + 1 && j < |a| ==> a[i] == b * a[j]
    ensures Scale(k, a)[|a| - 1] == k * (b - 1) as real
    ensures forall i, j :: 0 <= i && j == i + 1 && j < |a| ==> Scale(k, a)[i] == b as real * Scale(k, a)[j]
  {
    ScaleKeepsStep(k, a, b);
  }

  /** Scaling keeps the ratio between neighbouring weights. */
  lemma ScaleKeepsStep(k: real, a: seq<int>, b: int)
    requires forall i, j :: 0 <= i && j == i + 1 && j < |a| ==> a[i] == b * a[j]
    ensures forall i, j :: 0 <= i && j == i + 1 && j < |a| ==> Scale(k, a)[i] == b as real * Scale(k, a)[j]
  {
    forall i, j | 0 <= i && j == i + 1 && j < |a|
      ensures Scale(k, a)[i] == b as real * Scale(k, a)[j]
    {
      ScaleStepAt(k, a, b, i);
    }
  }

  lemma ScaleStepAt(k: real, a: seq<int>, b: int, i: nat)
    requires i + 1 < |a| && a[i] == b * a[i + 1]
    ensures Scale(k, a)[i] == b as real * Scale(k, a)[i + 1]
  {
    var x, y := a[i], a[i + 1];
    assert Scale(k, a)[i] == k * x as real;
    assert Scale(k, a)[i + 1] == k * y as real;
    ScaleStep(k, b, x, y);
  }

  lemma ScaleStep(k: real, b: int, x: int, y: int)
    requires x == b * y
    ensures k * x as real == b as real * (k * y as real)
  {
    assert x as real == b as real * y as real;
  }

  /** The constructor: validates the layout and fixes base and weights;
      the window and colour-map size start at the class's defaults, which
      are parameters here. No coefficients are computed yet. */
  function NewUniforms(channels: nat, channelSize: nat, bzero: real, bscale: real,
                       initialMinMax: (real, real), initialColorMapSize: int): (u: Uniforms)
    requires channels < 256 && channelSize < 256
    requires ValidLayout(channels, channelSize)
    ensures Valid(u.layout)
    ensures u.layout.channels == channels && u.layout.channelSize == channelSize
    ensures u.layout.bzero == bzero && u.layout.bscale == bscale
    ensures u.minmax == initialMinMax && u.colormapSize == initialColorMapSize
    ensures u.cz.None?
  {
    Uniforms(Layout(channels, channelSize, bzero, bscale, Base(channelSize), Weights(channels, channelSize)),
             initialMinMax, initialColorMapSize, None)
  }

  /** The coefficients, once computed, belong to the current window and size. */
  predicate UpToDate(u: Uniforms)
  {
    Valid(u.layout) && (u.cz.Some? ==> u.cz == ComputeCz(u.layout, u.minmax, u.colormapSize))
  }

  /** `setMinMax`: recomputes only for a different window. */
  function SetMinMax(u: Uniforms, minmax: (real, real)): (r: Uniforms)
    requires Valid(u.layout)
    ensures r.layout == u.layout && r.minmax == minmax && r.colormapSize == u.colormapSize
    ensures minmax == u.minmax ==> r.cz == u.cz
    ensures minmax != u.minmax ==> r.cz == ComputeCz(r.layout, r.minmax, r.colormapSize)
  {
    if minmax != u.minmax then
      u.(minmax := minmax, cz := ComputeCz(u.layout, minmax, u.colormapSize))
    else u
  }

  /** `setColorMapSize`: recomputes only for a different size. */
  function SetColorMapSize(u: Uniforms, size: int): (r: Uniforms)
    requires Valid(u.layout)
    ensures r.layout == u.layout && r.minmax == u.minmax && r.colormapSize == size
    ensures size == u.colormapSize ==> r.cz == u.cz
    ensures size != u.colormapSize ==> r.cz == ComputeCz(r.layout, r.minmax, r.colormapSize)
  {
    if size != u.colormapSize then
      u.(colormapSize := size, cz := ComputeCz(u.layout, u.minmax, size))
    else u
  }

  /** Setting the same value twice is setting it once, and both setters keep
      the coefficients up to date. */
  lemma SettersIdempotentAndUpToDate(u: Uniforms, minmax: (real, real), size: int)
    requires UpToDate(u)
    ensures SetMinMax(SetMinMax(u, minmax), minmax) == SetMinMax(u, minmax)
    ensures SetColorMapSize(SetColorMapSize(u, size), size) == SetColorMapSize(u, size)
    ensures UpToDate(SetMinMax(u, minmax)) && UpToDate(SetColorMapSize(u, size))
  {
  }

  /** Once both setters have run, the coefficients exist exactly when the
      window and size are computable, provided at least one setter changed
      its value; otherwise whatever was there before remains. */
  lemma SettersComputeCoefficients(u: Uniforms, minmax: (real, real), size: int)
    requires UpToDate(u)
    requires minmax != u.minmax || size != u.colormapSize
    ensures var r := SetColorMapSize(SetMinMax(u, minmax), size);
            r.cz == ComputeCz(u.layout, minmax, size)
  {
  }
}
