/** The integer listeners: minimum and maximum, exponentially weighted average, running average
    and a circular buffer. Each is a fold over the values pushed into it; the lemmas say what
    that fold is worth for every stream of values of either sign. */
module VulcanListeners {
  import opened Arith

  const FP_SCALE: int := 1000
  const MAX_WINDOW: int := 16
  /** u32 counters and differences wrap here. */
  const U32: int := 0x1_0000_0000
  const S64_LIMIT: int := 0x8000_0000_0000_0000

  predicate IsS64(x: int) {
    -S64_LIMIT <= x < S64_LIMIT
  }

  function Abs(x: int): nat {
    if x < 0 then -x else x
  }

  function Min(a: nat, b: nat): nat {
    if a < b then a else b
  }

  // ---------------------------------------------------------------- signed division

  function Sdiv(a: int, b: int): int {
    if b == 0 then 0
    else
      var q: int := DivNat(Abs(a), Abs(b));
      if (a < 0) != (b < 0) then -q else q
  }

  /** Sdiv is the one quotient whose remainder is smaller than the divisor and has the sign of
      the dividend: it truncates toward zero. */
  lemma SdivTruncates(a: int, b: int, q: int)
    requires b != 0
    ensures q == Sdiv(a, b) <==>
      var r := a - q * b;
      Abs(r) < Abs(b) && (r == 0 || (r < 0 <==> a < 0))
  {
    var n, d := Abs(a), Abs(b);
    var r := a - q * b;
    DivMod(n, d);
    var m := if (a < 0) != (b < 0) then -q else q;
    assert m * d == (if a < 0 then -(q * b) else q * b);
    if Abs(r) < d && (r == 0 || (r < 0 <==> a < 0)) {
      assert n == m * d + Abs(r);
      DivUnique(n, d, m, Abs(r));
    }
  }

  lemma DivBetween(n: nat, d: int, lo: int, hi: int)
    requires d > 0 && lo * d <= n <= hi * d
    ensures lo <= DivNat(n, d) <= hi
  {
    DivAtLeast(n, d, lo);
    Distrib(hi, 1, d);
    DivBelow(n, d, hi + 1);
  }

  lemma SdivBetween(a: int, b: int, lo: int, hi: int)
    requires b > 0 && lo * b <= a <= hi * b
    ensures lo <= Sdiv(a, b) <= hi
  {
    if a >= 0 {
      DivBetween(a, b, lo, hi);
    } else {
      assert (-hi) * b == -(hi * b) && (-lo) * b == -(lo * b);
      DivBetween(-a, b, -hi, -lo);
    }
  }

  // ---------------------------------------------------------------- streams

  function Total(vs: seq<int>): int {
    if vs == [] then 0 else Total(vs[..|vs| - 1]) + vs[|vs| - 1]
  }

  /** The last k values of a stream. */
  function Last(vs: seq<int>, k: nat): seq<int>
    requires k <= |vs|
  {
    vs[|vs| - k..]
  }

  ghost predicate Least(vs: seq<int>, x: int) {
    x in vs && forall i :: 0 <= i < |vs| ==> x <= vs[i]
  }

  ghost predicate Greatest(vs: seq<int>, x: int) {
    x in vs && forall i :: 0 <= i < |vs| ==> vs[i] <= x
  }

  ghost predicate Within(vs: seq<int>, lo: int, hi: int) {
    forall i :: 0 <= i < |vs| ==> lo <= vs[i] <= hi
  }

  lemma {:induction false} TotalWithin(vs: seq<int>, lo: int, hi: int)
    requires Within(vs, lo, hi)
    ensures lo * |vs| <= Total(vs) <= hi * |vs|
    decreases |vs|
  {
    if vs == [] {
    } else {
      var m := |vs| - 1;
      TotalWithin(vs[..m], lo, hi);
      Distrib(m, 1, lo);
      Distrib(m, 1, hi);
    }
  }

  /** Dropping the oldest value subtracts it. */
  lemma {:induction false} TotalDropFirst(vs: seq<int>)
    requires vs != []
    ensures Total(vs) == vs[0] + Total(vs[1..])
    decreases |vs|
  {
    var m := |vs| - 1;
    if m > 0 {
      TotalDropFirst(vs[..m]);
      assert vs[..m][1..] == vs[1..][..m - 1];
    }
  }

  // ---------------------------------------------------------------- minimum and maximum

  datatype MinMax = MinMax(min: int, max: int, count: nat)

  function MinMaxUpdate(mm: MinMax, v: int): MinMax {
    MinMax(if mm.count == 0 || v < mm.min then v else mm.min,
           if mm.count == 0 || v > mm.max then v else mm.max,
           (mm.count + 1) % U32)
  }

  function MinMaxOf(vs: seq<int>): MinMax {
    if vs == [] then MinMax(0, 0, 0) else MinMaxUpdate(MinMaxOf(vs[..|vs| - 1]), vs[|vs| - 1])
  }

  function GetMin(mm: MinMax): int {
    if mm.count != 0 then mm.min else 0
  }

  function GetMax(mm: MinMax): int {
    if mm.count != 0 then mm.max else 0
  }

  /** mm describes the last k values. */
  ghost predicate Describes(mm: MinMax, vs: seq<int>, k: nat)
    requires k <= |vs|
  {
    && mm.count == k
    && (k > 0 ==> Least(Last(vs, k), mm.min) && Greatest(Last(vs, k), mm.max))
  }

  lemma ExtremesStep(vs: seq<int>, lo: int, hi: int, v: int)
    requires Least(vs, lo) && Greatest(vs, hi)
    ensures Least(vs + [v], if v < lo then v else lo)
    ensures Greatest(vs + [v], if v > hi then v else hi)
  {
    var all := vs + [v];
    assert all[|vs|] == v;
    assert forall x :: x in vs ==> x in all;
  }

  lemma DescribesStep(mm: MinMax, vs: seq<int>, k: nat, v: int)
    requires k <= |vs| && Describes(mm, vs, k) && k + 1 < U32
    ensures Describes(MinMaxUpdate(mm, v), vs + [v], k + 1)
  {
    assert (k + 1) % U32 == k + 1;
    assert Last(vs + [v], k + 1) == Last(vs, k) + [v];
    if k > 0 {
      ExtremesStep(Last(vs, k), mm.min, mm.max, v);
    }
  }

  lemma ModStep(n: nat, d: nat)
    requires d > 1
    ensures (n + 1) % d == if n % d == d - 1 then 0 else n % d + 1
  {
    DivMod(n, d);
    var q, r := n / d, n % d;
    if r == d - 1 {
      Distrib(q, 1, d);
      DivUnique(n + 1, d, q + 1, 0);
    } else {
      DivUnique(n + 1, d, q, r + 1);
    }
  }

  lemma {:induction false} MinMaxDescribes(vs: seq<int>)
    ensures |vs| % U32 <= |vs| && Describes(MinMaxOf(vs), vs, |vs| % U32)
    decreases |vs|
  {
    if vs != [] {
      var m := |vs| - 1;
      MinMaxDescribes(vs[..m]);
      ModStep(m, U32);
      if |vs| % U32 != 0 {
        DescribesStep(MinMaxOf(vs[..m]), vs[..m], m % U32, vs[m]);
        assert vs == vs[..m] + [vs[m]];
      }
    }
  }

  /** The counter wraps, and the listener starts over when it does: it reports the extremes of
      the values pushed since the last wrap, and 0 at a wrap. */
  lemma MinMaxExact(vs: seq<int>)
    ensures |vs| % U32 <= |vs|
    ensures var mm, since := MinMaxOf(vs), Last(vs, |vs| % U32);
            && (since == [] ==> GetMin(mm) == 0 && GetMax(mm) == 0)
            && (since != [] ==> Least(since, GetMin(mm)) && Greatest(since, GetMax(mm)))
  {
    MinMaxDescribes(vs);
  }

  /** Before the first wrap the extremes are those of the whole stream. */
  lemma MinMaxOfShortStream(vs: seq<int>)
    requires 0 < |vs| < U32
    ensures Least(vs, GetMin(MinMaxOf(vs))) && Greatest(vs, GetMax(MinMaxOf(vs)))
  {
    assert Last(vs, |vs|) == vs;
    hide Last, Least, Greatest, GetMin, GetMax, MinMaxOf;
    assert |vs| % U32 == |vs|;
    MinMaxExact(vs);
  }

  // ---------------------------------------------------------------- exponentially weighted average

  datatype Ewma = Ewma(value: int, initialized: bool)

  /** The weight of the old value, computed in u32. */
  function OldWeight(alpha: nat): nat {
    (FP_SCALE - alpha) % U32
  }

  /** The dividend of an update. */
  function Blend(old': int, v: int, alpha: nat): int {
    alpha * v + OldWeight(alpha) * old'
  }

  function Smooth(old': int, v: int, alpha: nat): int {
    Sdiv(Blend(old', v, alpha), FP_SCALE)
  }

  function EwmaUpdate(e: Ewma, v: int, alpha: nat): Ewma {
    Ewma(if e.initialized then Smooth(e.value, v, alpha) else v, true)
  }

  function EwmaOf(vs: seq<int>, alpha: nat): Ewma {
    if vs == [] then Ewma(0, false) else EwmaUpdate(EwmaOf(vs[..|vs| - 1], alpha), vs[|vs| - 1], alpha)
  }

  function GetEwma(e: Ewma): int {
    if e.initialized then e.value else 0
  }

  lemma Convex(a: nat, b: nat, x: int, y: int, lo: int, hi: int)
    requires lo <= x <= hi && lo <= y <= hi
    ensures lo * (a + b) <= a * x + b * y <= hi * (a + b)
  {
    MulMono(lo, x, a);
    MulMono(x, hi, a);
    MulMono(lo, y, b);
    MulMono(y, hi, b);
    Distrib(a, b, lo);
    Distrib(a, b, hi);
  }

  lemma BlendWithin(old': int, v: int, alpha: nat, lo: int, hi: int)
    requires alpha <= FP_SCALE && lo <= v <= hi && lo <= old' <= hi
    ensures lo * FP_SCALE <= Blend(old', v, alpha) <= hi * FP_SCALE
  {
    Convex(alpha, FP_SCALE - alpha, v, old', lo, hi);
  }

  /** Truncation never carries the average out of the range of what was pushed. */
  lemma {:induction false} EwmaWithin(vs: seq<int>, alpha: nat, lo: int, hi: int)
    requires alpha <= FP_SCALE && vs != [] && Within(vs, lo, hi)
    ensures EwmaOf(vs, alpha).initialized && lo <= EwmaOf(vs, alpha).value <= hi
    decreases |vs|
  {
    var m := |vs| - 1;
    if m > 0 {
      EwmaWithin(vs[..m], alpha, lo, hi);
      var was := EwmaOf(vs[..m], alpha).value;
      BlendWithin(was, vs[m], alpha, lo, hi);
      SdivBetween(Blend(was, vs[m], alpha), FP_SCALE, lo, hi);
    }
  }

  ghost predicate EwmaBetween(vs: seq<int>, alpha: nat) {
    GetMin(MinMaxOf(vs)) <= GetEwma(EwmaOf(vs, alpha)) <= GetMax(MinMaxOf(vs))
  }

  /** The average lies between the minimum and the maximum of every stream exactly when alpha
      is at most the scale: above it the u32 weight of the old value wraps. */
  lemma EwmaBetweenExactly(alpha: nat)
    requires alpha < U32
    ensures alpha <= FP_SCALE <==> (forall vs: seq<int> :: 0 < |vs| < U32 ==> EwmaBetween(vs, alpha))
  {
    if alpha <= FP_SCALE {
      forall vs: seq<int> | 0 < |vs| < U32 ensures EwmaBetween(vs, alpha) {
        MinMaxOfShortStream(vs);
        EwmaWithin(vs, alpha, GetMin(MinMaxOf(vs)), GetMax(MinMaxOf(vs)));
      }
    } else {
      EwmaEscapes(alpha);
    }
  }

  lemma EwmaEscapes(alpha: nat)
    requires FP_SCALE < alpha < U32
    ensures !EwmaBetween([0, 1000], alpha)
  {
    var vs := [0, 1000];
    assert vs[..1] == [0] && [0][..0] == [];
    assert EwmaOf([0], alpha) == Ewma(0, true);
    var blend := Blend(0, 1000, alpha);
    assert blend == alpha * 1000;
    SdivBetween(blend, FP_SCALE, alpha, alpha);
    assert EwmaOf(vs, alpha).value == alpha;
    MinMaxOfShortStream(vs);
  }

  /** The same update in exact arithmetic. */
  ghost function ExactSmooth(old': real, v: int, alpha: nat): real {
    (alpha as real * v as real + (FP_SCALE - alpha) as real * old') / 1000.0
  }

  ghost function ExactEwma(vs: seq<int>, alpha: nat): real
    requires vs != []
  {
    var m := |vs| - 1;
    if m == 0 then vs[0] as real else ExactSmooth(ExactEwma(vs[..m], alpha), vs[m], alpha)
  }

  /** One integer update is the exact one, short of a remainder below the scale. */
  lemma UpdateRemainder(was: int, v: int, alpha: nat) returns (r: real)
    requires alpha <= FP_SCALE
    ensures -1000.0 < r < 1000.0
    ensures 1000.0 * Smooth(was, v, alpha) as real
         == alpha as real * v as real + (FP_SCALE - alpha) as real * was as real - r
  {
    var now := Smooth(was, v, alpha);
    SdivTruncates(Blend(was, v, alpha), FP_SCALE, now);
    r := (Blend(was, v, alpha) - now * FP_SCALE) as real;
  }

  /** How far the integer average is from the exact one. */
  ghost function EwmaDrift(vs: seq<int>, alpha: nat): real
    requires vs != []
  {
    GetEwma(EwmaOf(vs, alpha)) as real - ExactEwma(vs, alpha)
  }

  lemma {:induction false} EwmaStarts(vs: seq<int>, alpha: nat)
    ensures EwmaOf(vs, alpha).initialized <==> vs != []
  {
  }

  /** The last push of a longer stream, on both sides. */
  lemma LastPush(vs: seq<int>, alpha: nat)
    requires |vs| > 1
    ensures var m := |vs| - 1;
            && GetEwma(EwmaOf(vs, alpha)) == Smooth(GetEwma(EwmaOf(vs[..m], alpha)), vs[m], alpha)
            && ExactEwma(vs, alpha) == ExactSmooth(ExactEwma(vs[..m], alpha), vs[m], alpha)
  {
    EwmaStarts(vs[..|vs| - 1], alpha);
  }

  lemma Cancel(p: real, c: real, was: real, exactWas: real, drift: real, now: real, exactNow: real, r: real)
    requires drift == was - exactWas
    requires 1000.0 * now == p + c * was - r
    requires exactNow == (p + c * exactWas) / 1000.0
    ensures 1000.0 * (now - exactNow) == c * drift - r
  {
    assert c * drift == c * was - c * exactWas;
  }

  /** A push scales the drift down and adds less than one truncation. */
  lemma SmoothKeeps(was: int, exactWas: real, v: int, alpha: nat, bound: real)
    requires 0 < alpha <= FP_SCALE && alpha as real * bound == 1000.0
    requires -bound < was as real - exactWas < bound
    ensures -bound < Smooth(was, v, alpha) as real - ExactSmooth(exactWas, v, alpha) < bound
  {
    var now, exactNow := Smooth(was, v, alpha) as real, ExactSmooth(exactWas, v, alpha);
    var a, c, drift := alpha as real, (FP_SCALE - alpha) as real, was as real - exactWas;
    var r := UpdateRemainder(was, v, alpha);
    Cancel(a * v as real, c, was as real, exactWas, drift, now, exactNow, r);
    ErrorStep(a, c, drift, now - exactNow, bound, r);
  }

  /** Truncation errors do not build up: after any number of pushes the integer average is
      within FP_SCALE / alpha of the exact one. */
  lemma {:induction false} EwmaError(vs: seq<int>, alpha: nat, bound: real)
    requires 0 < alpha <= FP_SCALE && vs != [] && alpha as real * bound == 1000.0
    ensures -bound < EwmaDrift(vs, alpha) < bound
    decreases |vs|
  {
    if |vs| == 1 {
      ErrorStart(vs, alpha);
    } else {
      var before, v := vs[..|vs| - 1], vs[|vs| - 1];
      EwmaError(before, alpha, bound);
      SmoothKeeps(GetEwma(EwmaOf(before, alpha)), ExactEwma(before, alpha), v, alpha, bound);
      LastPush(vs, alpha);
    }
  }

  lemma ErrorStart(vs: seq<int>, alpha: nat)
    requires |vs| == 1
    ensures EwmaDrift(vs, alpha) == 0.0
  {
    EwmaStarts(vs[..0], alpha);
  }

  lemma ErrorStep(a: real, c: real, d: real, e: real, b: real, r: real)
    requires 0.0 < a && 0.0 <= c && a + c == 1000.0 && -1000.0 < r < 1000.0
    requires 1000.0 * e == c * d - r
    requires a * b == 1000.0 && -b < d < b
    ensures -b < e < b
  {
    assert c * b == 1000.0 * b - 1000.0;
    NonNegative(c, b - d);
    NonNegative(c, b + d);
    assert c * (b - d) == c * b - c * d;
    assert c * (b + d) == c * b + c * d;
  }

  function Constant(n: nat, v: int): (vs: seq<int>)
    ensures |vs| == n && forall i :: 0 <= i < n ==> vs[i] == v
  {
    seq(n, _ => v)
  }

  ghost predicate AllEqual(vs: seq<int>, v: int) {
    forall i :: 0 <= i < |vs| ==> vs[i] == v
  }

  /** Every push of the stream is computed without leaving s64. */
  predicate BlendsFit(vs: seq<int>, alpha: nat) {
    vs == [] || (
      var before := vs[..|vs| - 1];
      && BlendsFit(before, alpha)
      && (before != [] ==> IsS64(Blend(GetEwma(EwmaOf(before, alpha)), vs[|vs| - 1], alpha))))
  }

  /** On a wrapped weight a positive constant stream grows, as far as its arithmetic fits s64. */
  lemma {:induction false} EwmaGrows(vs: seq<int>, alpha: nat, v: int)
    requires FP_SCALE < alpha < U32 && v > 0 && vs != [] && AllEqual(vs, v) && BlendsFit(vs, alpha)
    ensures GetEwma(EwmaOf(vs, alpha)) >= v
    ensures |vs| > 1 ==> GetEwma(EwmaOf(vs, alpha)) > v
    decreases |vs|
  {
    if |vs| == 1 {
      EwmaStarts(vs[..0], alpha);
    } else {
      var before := vs[..|vs| - 1];
      EwmaGrows(before, alpha, v);
      EwmaStarts(before, alpha);
      SmoothGrows(GetEwma(EwmaOf(before, alpha)), v, alpha);
    }
  }

  lemma SmoothGrows(was: int, v: int, alpha: nat)
    requires FP_SCALE < alpha < U32 && 0 < v <= was
    ensures Smooth(was, v, alpha) > v
  {
    var w := OldWeight(alpha);
    assert w == U32 + FP_SCALE - alpha;
    MulMono(v, was, w);
    Distrib(alpha, w, v);
    assert 2 * v * FP_SCALE <= Blend(was, v, alpha);
    SdivBetween(Blend(was, v, alpha), FP_SCALE, 2 * v, Blend(was, v, alpha));
  }

  /** A positive constant stream whose arithmetic fits s64 has that constant as its average
      exactly when alpha is at most the scale or only one value was pushed. */
  lemma EwmaOfConstant(vs: seq<int>, alpha: nat, v: int)
    requires alpha < U32 && v > 0 && vs != [] && AllEqual(vs, v)
    ensures alpha <= FP_SCALE || |vs| == 1 ==> GetEwma(EwmaOf(vs, alpha)) == v
    ensures BlendsFit(vs, alpha) ==> (GetEwma(EwmaOf(vs, alpha)) == v <==> alpha <= FP_SCALE || |vs| == 1)
  {
    if alpha <= FP_SCALE {
      EwmaWithin(vs, alpha, v, v);
    } else {
      if BlendsFit(vs, alpha) {
        EwmaGrows(vs, alpha, v);
      }
      if |vs| == 1 {
        EwmaStarts(vs[..0], alpha);
      }
    }
  }

  lemma BlendOfOne(alpha: nat, v: int)
    requires alpha < U32 && v > 0 && v * (U32 + FP_SCALE) < S64_LIMIT
    ensures IsS64(Blend(v, v, alpha))
  {
    var sum := alpha + OldWeight(alpha);
    Convex(alpha, OldWeight(alpha), v, v, v, v);
    MulMono(sum, U32 + FP_SCALE, v);
    MulMono(0, sum, v);
    hide OldWeight;
    assert Blend(v, v, alpha) == v * sum;
  }

  /** With any alpha the second push of a value below about 2^31 fits. */
  lemma SecondPushFits(vs: seq<int>, alpha: nat, v: int)
    requires alpha < U32 && v > 0 && v * (U32 + FP_SCALE) < S64_LIMIT && |vs| == 2 && AllEqual(vs, v)
    ensures BlendsFit(vs, alpha)
  {
    var one := vs[..1];
    EwmaStarts(one[..0], alpha);
    BlendOfOne(alpha, v);
    hide Blend, IsS64, Smooth;
    assert GetEwma(EwmaOf(one, alpha)) == v;
    assert BlendsFit(one[..0], alpha) && BlendsFit(one, alpha);
  }

  predicate KeepsConstant(n: nat, v: int, alpha: nat) {
    BlendsFit(Constant(n, v), alpha) ==> GetEwma(EwmaOf(Constant(n, v), alpha)) == v
  }

  /** The average of a constant stays that constant for every number of pushes exactly when alpha
      is at most the scale; the second push shows the difference. */
  lemma EwmaKeepsConstantExactly(alpha: nat, v: int)
    requires alpha < U32 && v > 0 && v * (U32 + FP_SCALE) < S64_LIMIT
    ensures alpha <= FP_SCALE <==> (forall n: nat :: n > 0 ==> KeepsConstant(n, v, alpha))
  {
    if alpha <= FP_SCALE {
      forall n: nat | n > 0 ensures KeepsConstant(n, v, alpha) {
        EwmaOfConstant(Constant(n, v), alpha, v);
      }
    } else {
      SecondPushFits(Constant(2, v), alpha, v);
      EwmaOfConstant(Constant(2, v), alpha, v);
      assert !KeepsConstant(2, v, alpha);
    }
  }

  // ---------------------------------------------------------------- running average

  datatype Average = Average(sum: int, count: nat)

  function AverageUpdate(a: Average, v: int): Average {
    Average(a.sum + v, a.count + 1)
  }

  function AverageOf(vs: seq<int>): Average {
    if vs == [] then Average(0, 0) else AverageUpdate(AverageOf(vs[..|vs| - 1]), vs[|vs| - 1])
  }

  function GetAverage(a: Average): int {
    if a.count != 0 then Sdiv(a.sum, a.count) else 0
  }

  lemma {:induction false} AverageExact(vs: seq<int>)
    ensures AverageOf(vs) == Average(Total(vs), |vs|)
    decreases |vs|
  {
    if vs == [] {
    } else {
      AverageExact(vs[..|vs| - 1]);
    }
  }

  /** The running average, too, lies between what the minimum and maximum listener reports. */
  lemma AverageBetween(vs: seq<int>)
    requires 0 < |vs| < U32
    ensures GetMin(MinMaxOf(vs)) <= GetAverage(AverageOf(vs)) <= GetMax(MinMaxOf(vs))
  {
    var lo, hi := GetMin(MinMaxOf(vs)), GetMax(MinMaxOf(vs));
    MinMaxOfShortStream(vs);
    TotalWithin(vs, lo, hi);
    AverageExact(vs);
    SdivBetween(Total(vs), |vs|, lo, hi);
  }

  /** The arithmetic of the next push stays in s64 when every value is at most bound in size and
      both FP_SCALE * bound and (|vs| + 1) * bound are below 2^63. */
  lemma PushFits(vs: seq<int>, v: int, alpha: nat, bound: int)
    requires alpha <= FP_SCALE && vs != []
    requires Within(vs, -bound, bound) && -bound <= v <= bound
    requires FP_SCALE * bound < S64_LIMIT && (|vs| + 1) * bound < S64_LIMIT
    ensures IsS64(alpha * v) && IsS64(OldWeight(alpha) * GetEwma(EwmaOf(vs, alpha)))
    ensures IsS64(Blend(GetEwma(EwmaOf(vs, alpha)), v, alpha))
    ensures IsS64(AverageUpdate(AverageOf(vs), v).sum)
  {
    EwmaWithin(vs, alpha, -bound, bound);
    var was := GetEwma(EwmaOf(vs, alpha));
    BlendWithin(was, v, alpha, -bound, bound);
    ProductFits(alpha, v, bound);
    ProductFits(FP_SCALE - alpha, was, bound);
    AverageExact(vs);
    TotalWithin(vs, -bound, bound);
    Distrib(|vs|, 1, bound);
    assert (-bound) * |vs| == -(|vs| * bound);
  }

  lemma ProductFits(weight: nat, v: int, bound: int)
    requires weight <= FP_SCALE && -bound <= v <= bound && FP_SCALE * bound < S64_LIMIT
    ensures IsS64(weight * v)
  {
    MulMono(v, bound, weight);
    MulMono(-bound, v, weight);
    MulMono(weight, FP_SCALE, bound);
    assert (-bound) * weight == -(bound * weight);
  }

  // ---------------------------------------------------------------- rolling window

  datatype Window = Window(values: seq<int>, head: nat, count: nat, sum: int)

  predicate WindowOk(rw: Window) {
    |rw.values| == MAX_WINDOW
  }

  function EmptyWindow(): (rw: Window)
    ensures WindowOk(rw)
  {
    Window(seq(MAX_WINDOW, _ => 0), 0, 0, 0)
  }

  function WindowUpdate(rw: Window, v: int, windowSize: nat): (rw': Window)
    requires WindowOk(rw)
    ensures WindowOk(rw')
  {
    var w := Min(windowSize, MAX_WINDOW);
    if w == 0 then rw
    else
      var idx := if rw.head >= MAX_WINDOW then 0 else rw.head;
      Window(rw.values[idx := v],
             (idx + 1) % MAX_WINDOW,
             if rw.count < w then rw.count + 1 else rw.count,
             (if rw.count >= w then rw.sum - rw.values[idx] else rw.sum) + v)
  }

  function WindowOf(vs: seq<int>, windowSize: nat): (rw: Window)
    ensures WindowOk(rw)
  {
    if vs == [] then EmptyWindow()
    else WindowUpdate(WindowOf(vs[..|vs| - 1], windowSize), vs[|vs| - 1], windowSize)
  }

  function GetKthRecent(rw: Window, k: nat): int
    requires WindowOk(rw)
  {
    if k >= rw.count || k >= MAX_WINDOW then 0
    else rw.values[(rw.head + MAX_WINDOW - 1 - k) % MAX_WINDOW]
  }

  function GetLatest(rw: Window): int
    requires WindowOk(rw)
  {
    if rw.count == 0 then 0 else rw.values[(rw.head + MAX_WINDOW - 1) % MAX_WINDOW]
  }

  function GetWindowAverage(rw: Window): int {
    if rw.count == 0 then 0 else Sdiv(rw.sum, rw.count)
  }

  /** The slot k pushes behind the latest. */
  function Behind(head: nat, k: nat): (slot: nat)
    requires head < MAX_WINDOW && k < MAX_WINDOW
    ensures slot < MAX_WINDOW
  {
    if k < head then head - 1 - k else head + MAX_WINDOW - 1 - k
  }

  function Recent(vs: seq<int>, k: nat): int {
    if k < |vs| then vs[|vs| - 1 - k] else 0
  }

  /** The buffer holds the last 16 pushes behind head, and zeros behind those. */
  ghost predicate Holds(values: seq<int>, head: nat, vs: seq<int>) {
    && |values| == MAX_WINDOW && head < MAX_WINDOW
    && forall k :: 0 <= k < MAX_WINDOW ==> values[Behind(head, k)] == Recent(vs, k)
  }

  function NextSlot(head: nat): (h: nat)
    requires head < MAX_WINDOW
    ensures h < MAX_WINDOW && h == (head + 1) % MAX_WINDOW
  {
    if head == MAX_WINDOW - 1 then 0 else head + 1
  }

  lemma HoldsStep(values: seq<int>, head: nat, vs: seq<int>, v: int)
    requires Holds(values, head, vs)
    ensures Holds(values[head := v], NextSlot(head), vs + [v])
  {
    var h, values' := NextSlot(head), values[head := v];
    forall k | 0 <= k < MAX_WINDOW ensures values'[Behind(h, k)] == Recent(vs + [v], k) {
      if k > 0 {
        assert Behind(h, k) == Behind(head, k - 1) != head;
        assert Recent(vs + [v], k) == Recent(vs, k - 1);
      }
    }
  }

  /** Total of the last 16. */
  function RecentTotal(vs: seq<int>): int {
    Total(Last(vs, Min(|vs|, MAX_WINDOW)))
  }

  /** What a push adds, it takes away again 16 pushes later. */
  lemma RecentTotalStep(vs: seq<int>, v: int)
    ensures RecentTotal(vs + [v]) == RecentTotal(vs) + v - Recent(vs, MAX_WINDOW - 1)
  {
    var kept := Last(vs, Min(|vs|, MAX_WINDOW));
    if |vs| < MAX_WINDOW {
      assert Last(vs + [v], |vs| + 1) == kept + [v];
      assert (kept + [v])[..|kept|] == kept;
    } else {
      TotalDropFirst(kept);
      assert Last(vs + [v], MAX_WINDOW) == kept[1..] + [v];
      assert (kept[1..] + [v])[..MAX_WINDOW - 1] == kept[1..];
    }
  }

  /** What a stream leaves in the buffer: count is capped by the window size, but head wraps at
      16 whatever the size, so sum covers the last 16 pushes. */
  ghost predicate Tracks(rw: Window, vs: seq<int>, w: nat) {
    && Holds(rw.values, rw.head, vs)
    && rw.count == Min(|vs|, w)
    && rw.sum == RecentTotal(vs)
  }

  lemma TracksStep(rw: Window, vs: seq<int>, windowSize: nat, v: int)
    requires windowSize > 0 && Tracks(rw, vs, Min(windowSize, MAX_WINDOW))
    ensures Tracks(WindowUpdate(rw, v, windowSize), vs + [v], Min(windowSize, MAX_WINDOW))
  {
    HoldsStep(rw.values, rw.head, vs, v);
    RecentTotalStep(vs, v);
    assert Behind(rw.head, MAX_WINDOW - 1) == rw.head;
    assert rw.values[rw.head] == Recent(vs, MAX_WINDOW - 1);
    assert (rw.head + 1) % MAX_WINDOW == NextSlot(rw.head);
  }

  lemma {:induction false} WindowContents(vs: seq<int>, windowSize: nat)
    requires windowSize > 0
    ensures Tracks(WindowOf(vs, windowSize), vs, Min(windowSize, MAX_WINDOW))
    decreases |vs|
  {
    if vs == [] {
    } else {
      var m := |vs| - 1;
      WindowContents(vs[..m], windowSize);
      TracksStep(WindowOf(vs[..m], windowSize), vs[..m], windowSize, vs[m]);
      assert vs == vs[..m] + [vs[m]];
    }
  }

  lemma {:induction false} WindowOff(vs: seq<int>)
    ensures WindowOf(vs, 0) == EmptyWindow()
    decreases |vs|
  {
    if vs == [] {
    } else {
      WindowOff(vs[..|vs| - 1]);
    }
  }

  lemma KthOf(rw: Window, vs: seq<int>, w: nat, k: nat)
    requires w <= MAX_WINDOW && Tracks(rw, vs, w) && k < rw.count
    ensures GetKthRecent(rw, k) == vs[|vs| - 1 - k]
  {
    assert rw.values[Behind(rw.head, k)] == Recent(vs, k);
  }

  /** For every window size and every stream: the accessors return the k-th most recent push
      for every k below min(pushes, size, 16), and 0 from there on. */
  lemma WindowRecalls(vs: seq<int>, windowSize: nat, k: nat)
    ensures var rw, n := WindowOf(vs, windowSize), Min(|vs|, Min(windowSize, MAX_WINDOW));
            && rw.count == n
            && GetKthRecent(rw, k) == (if k < n then vs[|vs| - 1 - k] else 0)
            && GetLatest(rw) == (if n > 0 then vs[|vs| - 1] else 0)
  {
    if windowSize == 0 {
      WindowOff(vs);
    } else {
      WindowContents(vs, windowSize);
      var rw, w := WindowOf(vs, windowSize), Min(windowSize, MAX_WINDOW);
      if rw.count > 0 {
        KthOf(rw, vs, w, 0);
      }
      if k < rw.count {
        KthOf(rw, vs, w, k);
      }
    }
  }

  /** The mean over the window the size asks for. */
  function TrueMean(vs: seq<int>, windowSize: nat): int {
    var n := Min(|vs|, Min(windowSize, MAX_WINDOW));
    Sdiv(Total(Last(vs, n)), n)
  }

  lemma WindowAverageIs(vs: seq<int>, windowSize: nat)
    requires windowSize > 0 && vs != []
    ensures GetWindowAverage(WindowOf(vs, windowSize))
         == Sdiv(RecentTotal(vs), Min(|vs|, Min(windowSize, MAX_WINDOW)))
  {
    WindowContents(vs, windowSize);
  }

  /** The reported average is the mean over the window on every stream of n values exactly when
      the size is 16 or more, the window has not been filled beyond its size, or it is off. */
  lemma WindowMeanExactly(n: nat, windowSize: nat)
    ensures (windowSize == 0 || windowSize >= MAX_WINDOW || n <= windowSize) <==>
            (forall vs: seq<int> :: |vs| == n ==>
               GetWindowAverage(WindowOf(vs, windowSize)) == TrueMean(vs, windowSize))
  {
    if windowSize == 0 || windowSize >= MAX_WINDOW || n <= windowSize {
      forall vs: seq<int> | |vs| == n
        ensures GetWindowAverage(WindowOf(vs, windowSize)) == TrueMean(vs, windowSize)
      {
        if windowSize == 0 {
          WindowOff(vs);
        } else if vs != [] {
          WindowAverageIs(vs, windowSize);
        }
      }
    } else {
      WindowMeanFails(n, windowSize);
    }
  }

  /** n copies of the window size: the mean is the size, the report is min(n, 16). */
  lemma WindowMeanFails(n: nat, windowSize: nat)
    requires 0 < windowSize < MAX_WINDOW && windowSize < n
    ensures var vs := Constant(n, windowSize);
            && |vs| == n
            && GetWindowAverage(WindowOf(vs, windowSize)) == Min(n, MAX_WINDOW)
            && TrueMean(vs, windowSize) == windowSize
            && Min(n, MAX_WINDOW) != windowSize
  {
    var vs := Constant(n, windowSize);
    WindowAverageIs(vs, windowSize);
    MeanOfConstant(Last(vs, Min(n, MAX_WINDOW)), windowSize);
    MeanOfConstant(Last(vs, windowSize), windowSize);
  }

  lemma MeanOfConstant(vs: seq<int>, v: nat)
    requires v > 0 && forall i :: 0 <= i < |vs| ==> vs[i] == v
    ensures Sdiv(Total(vs), v) == |vs|
  {
    TotalWithin(vs, v, v);
    SdivBetween(Total(vs), v, |vs|, |vs|);
  }

  // ---------------------------------------------------------------- the structures in place

  class MinMaxListener {
    var minVal: int
    var maxVal: int
    var count: nat

    constructor ()
      ensures View() == MinMaxOf([])
    {
      minVal, maxVal, count := 0, 0, 0;
    }

    function View(): MinMax
      reads this
    {
      MinMax(minVal, maxVal, count)
    }

    method Update(v: int)
      modifies this
      ensures View() == MinMaxUpdate(old(View()), v)
    {
      if count == 0 {
        minVal := v;
        maxVal := v;
      } else {
        if v < minVal { minVal := v; }
        if v > maxVal { maxVal := v; }
      }
      count := (count + 1) % U32;
    }
  }

  class EwmaListener {
    var value: int
    var initialized: bool

    constructor ()
      ensures View() == EwmaOf([], 0)
    {
      value, initialized := 0, false;
    }

    function View(): Ewma
      reads this
    {
      Ewma(value, initialized)
    }

    method Update(v: int, alpha: nat)
      modifies this
      ensures View() == EwmaUpdate(old(View()), v, alpha)
    {
      if !initialized {
        value := v;
        initialized := true;
      } else {
        value := Sdiv(alpha * v + ((FP_SCALE - alpha) % U32) * value, FP_SCALE);
      }
    }
  }

  class AverageListener {
    var sum: int
    var count: nat

    constructor ()
      ensures View() == AverageOf([])
    {
      sum, count := 0, 0;
    }

    function View(): Average
      reads this
    {
      Average(sum, count)
    }

    method Update(v: int)
      modifies this
      ensures View() == AverageUpdate(old(View()), v)
    {
      sum := sum + v;
      count := count + 1;
    }
  }

  class RollingWindow {
    const values: array<int>
    var head: nat
    var count: nat
    var sum: int

    constructor ()
      ensures Valid() && fresh(values) && View() == EmptyWindow()
    {
      values := new int[MAX_WINDOW](_ => 0);
      head, count, sum := 0, 0, 0;
    }

    ghost predicate Valid()
      reads this
    {
      values.Length == MAX_WINDOW
    }

    ghost function View(): (rw: Window)
      requires Valid()
      reads this, values
      ensures WindowOk(rw)
    {
      Window(values[..], head, count, sum)
    }

    method Update(v: int, windowSize: nat)
      requires Valid()
      modifies this, values
      ensures Valid() && View() == WindowUpdate(old(View()), v, windowSize)
    {
      var w := windowSize;
      if w > MAX_WINDOW {
        w := MAX_WINDOW;
      }
      if w == 0 {
        return;
      }
      var idx := head;
      if idx >= MAX_WINDOW {
        idx := 0;
      }
      if count >= w {
        sum := sum - values[idx];
      }
      values[idx] := v;
      sum := sum + v;
      head := (idx + 1) % MAX_WINDOW;
      if count < w {
        count := count + 1;
      }
    }

    method KthRecent(k: nat) returns (r: int)
      requires Valid()
      ensures r == GetKthRecent(View(), k)
    {
      if k >= count || k >= MAX_WINDOW {
        return 0;
      }
      r := values[(head + MAX_WINDOW - 1 - k) % MAX_WINDOW];
    }
  }
}
