/** Age histograms of the LHD policy: recording, coarsening in place, and the one-pass scan
    that turns a histogram into hit densities. Counters are unbounded integers. */
module LhdHistogram {
  import opened Arith

  const LOG_MAX_AGE: nat := 14
  const MAX_AGE: nat := 16384
  const HIT_SCALING_FACTOR: nat := 0x10_0000
  const HIT_DENSITY_SCALING_FACTOR: nat := 0x10_0000
  const TOTAL_EVENTS_THRESH: nat := HIT_SCALING_FACTOR / 100000

  // ---------------------------------------------------------------- sums

  function Sum(h: seq<nat>, lo: nat, hi: nat): nat
    requires lo <= hi <= |h|
    decreases hi - lo
  {
    if lo == hi then 0 else Sum(h, lo, hi - 1) + h[hi - 1]
  }

  function Total(h: seq<nat>): nat {
    Sum(h, 0, |h|)
  }

  lemma {:induction false} SumSplit(h: seq<nat>, lo: nat, mid: nat, hi: nat)
    requires lo <= mid <= hi <= |h|
    ensures Sum(h, lo, hi) == Sum(h, lo, mid) + Sum(h, mid, hi)
    decreases hi - mid
  {
    if mid < hi {
      SumSplit(h, lo, mid, hi - 1);
    }
  }

  lemma {:induction false} SumSame(h: seq<nat>, h': seq<nat>, lo: nat, hi: nat)
    requires lo <= hi <= |h| && hi <= |h'| && forall i :: lo <= i < hi ==> h[i] == h'[i]
    ensures Sum(h, lo, hi) == Sum(h', lo, hi)
    decreases hi - lo
  {
    if lo < hi {
      SumSame(h, h', lo, hi - 1);
    }
  }

  lemma {:induction false} SumZero(h: seq<nat>, lo: nat, hi: nat)
    requires lo <= hi <= |h|
    ensures Sum(h, lo, hi) == 0 <==> forall i :: lo <= i < hi ==> h[i] == 0
    decreases hi - lo
  {
    if lo < hi {
      SumZero(h, lo, hi - 1);
    }
  }

  /** h' is h with w more in bucket b: ranges holding b gain w, others nothing. */
  lemma {:induction false} SumBump(h: seq<nat>, h': seq<nat>, b: nat, w: nat, lo: nat, hi: nat)
    requires lo <= hi <= |h| == |h'| && b < |h|
    requires forall i :: 0 <= i < |h| ==> h'[i] == h[i] + (if i == b then w else 0)
    ensures Sum(h', lo, hi) == Sum(h, lo, hi) + (if lo <= b < hi then w else 0)
    decreases hi - lo
  {
    if lo < hi {
      SumBump(h, h', b, w, lo, hi - 1);
    }
  }

  // ---------------------------------------------------------------- recording

  /** get_age: the raw age in units of 2^s, saturating at the last bucket. */
  function Age(raw: nat, s: nat): (a: nat)
    ensures a < MAX_AGE
  {
    if Shr(raw, s) >= MAX_AGE then MAX_AGE - 1 else Shr(raw, s)
  }

  /** Bucket a takes the raw ages from a to a + 1 times 2^s; the last takes all from there on. */
  lemma AgeExactly(raw: nat, s: nat, a: nat)
    ensures Age(raw, s) == a <==>
              a < MAX_AGE && a * Pow2(s) <= raw && (a < MAX_AGE - 1 ==> raw < (a + 1) * Pow2(s))
  {
    if a > 0 {
      ShrBelow(raw, s, a);
    }
    ShrBelow(raw, s, a + 1);
    ShrBelow(raw, s, MAX_AGE);
    if a == MAX_AGE - 1 {
      MulMono(a, MAX_AGE, Pow2(s));
    }
  }

  /** What bucket i holds after recording the raw ages one by one at shift s. */
  function Recorded(ages: seq<nat>, s: nat, i: nat): nat {
    if ages == [] then 0
    else
      var added := if Age(ages[|ages| - 1], s) == i then HIT_SCALING_FACTOR else 0;
      Recorded(ages[..|ages| - 1], s, i) + added
  }

  function Histogram(ages: seq<nat>, s: nat): (h: seq<nat>)
    ensures |h| == MAX_AGE
  {
    seq(MAX_AGE, i requires 0 <= i => Recorded(ages, s, i))
  }

  lemma {:induction false} HistogramMass(ages: seq<nat>, s: nat)
    ensures Total(Histogram(ages, s)) == |ages| * HIT_SCALING_FACTOR
    decreases |ages|
  {
    if ages == [] {
      SumZero(Histogram(ages, s), 0, |Histogram(ages, s)|);
    } else {
      var n := |ages| - 1;
      HistogramMass(ages[..n], s);
      SumBump(Histogram(ages[..n], s), Histogram(ages, s), Age(ages[n], s), HIT_SCALING_FACTOR, 0,
              |Histogram(ages, s)|);
    }
  }

  // ---------------------------------------------------------------- coarsening, as values

  /** Blocks of 2^delta buckets are added up at the bottom, the buckets above them are
      cleared, and the last bucket is kept as it was. */
  function Coarse(h: seq<nat>, delta: nat): (r: seq<nat>)
    requires |h| == MAX_AGE && delta > 0
    ensures |r| == MAX_AGE
  {
    seq(MAX_AGE, j requires 0 <= j < MAX_AGE => CoarseAt(h, delta, j))
  }

  function CoarseAt(h: seq<nat>, delta: nat, j: nat): nat
    requires |h| == MAX_AGE && delta > 0 && j < MAX_AGE
  {
    if j < Shr(MAX_AGE, delta) then
      BlockFits(delta, j);
      Sum(h, j * Pow2(delta), j * Pow2(delta) + Pow2(delta))
    else if j < MAX_AGE - 1 then 0
    else h[j]
  }

  lemma BlockFits(delta: nat, j: nat)
    requires j < Shr(MAX_AGE, delta)
    ensures 0 <= j * Pow2(delta) && j * Pow2(delta) + Pow2(delta) <= MAX_AGE
  {
    var p := Pow2(delta);
    DivMod(MAX_AGE, p);
    MulMono(j + 1, Shr(MAX_AGE, delta), p);
    Distrib(j, 1, p);
    MulMono(0, j, p);
  }

  lemma MaxAgePow2()
    ensures Pow2(LOG_MAX_AGE) == MAX_AGE
  {
    assert Pow2(4) == 16;
    Pow2Add(4, 4);
    Pow2Add(8, 4);
    Pow2Add(12, 2);
  }

  /** The blocks cover the histogram exactly when there are at most 14 halvings. */
  lemma BlocksCover(delta: nat)
    requires delta > 0
    ensures delta <= LOG_MAX_AGE ==> Shr(MAX_AGE, delta) * Pow2(delta) == MAX_AGE && Shr(MAX_AGE, delta) >= 1
    ensures delta > LOG_MAX_AGE ==> Shr(MAX_AGE, delta) == 0
    ensures Shr(MAX_AGE, delta) <= MAX_AGE / 2
  {
    MaxAgePow2();
    if delta <= LOG_MAX_AGE {
      Pow2Add(LOG_MAX_AGE - delta, delta);
      DivUnique(MAX_AGE, Pow2(delta), Pow2(LOG_MAX_AGE - delta), 0);
    } else {
      Pow2Mono(LOG_MAX_AGE + 1, delta);
      ShrBelow(MAX_AGE, delta, 1);
    }
    Pow2Mono(1, delta);
    assert Pow2(1) == 2;
    MulMono(2, Pow2(delta), MAX_AGE / 2 + 1);
    assert (MAX_AGE / 2 + 1) * Pow2(delta) == Pow2(delta) * (MAX_AGE / 2 + 1);
    ShrBelow(MAX_AGE, delta, MAX_AGE / 2 + 1);
  }

  lemma {:induction false} BlockSums(h: seq<nat>, delta: nat, m: nat)
    requires |h| == MAX_AGE && delta > 0 && m <= Shr(MAX_AGE, delta) <= MAX_AGE / 2
    ensures 0 <= m * Pow2(delta) <= MAX_AGE
    ensures Sum(Coarse(h, delta), 0, m) == Sum(h, 0, m * Pow2(delta))
  {
    if m > 0 {
      var p := Pow2(delta);
      BlockSums(h, delta, m - 1);
      BlockFits(delta, m - 1);
      Distrib(m - 1, 1, p);
      SumSplit(h, 0, (m - 1) * p, m * p);
    }
  }

  /** With at most 14 halvings the buckets below the last receive the whole old mass, the
      last bucket's included, and the last bucket keeps its own; beyond that the mass below
      the last bucket is lost. */
  lemma CoarseMass(h: seq<nat>, delta: nat)
    requires |h| == MAX_AGE && delta > 0
    ensures var r := Coarse(h, delta);
            && r[MAX_AGE - 1] == h[MAX_AGE - 1]
            && (delta <= LOG_MAX_AGE ==> Sum(r, 0, |r| - 1) == Total(h))
            && (delta > LOG_MAX_AGE ==> Sum(r, 0, |r| - 1) == 0)
  {
    var m := Shr(MAX_AGE, delta);
    BlocksCover(delta);
    BlockSums(h, delta, m);
    GapIsEmpty(Coarse(h, delta), m);
    if delta > LOG_MAX_AGE {
      SumZero(Coarse(h, delta), 0, m);
    }
  }

  lemma GapIsEmpty(r: seq<nat>, m: nat)
    requires |r| == MAX_AGE && m <= MAX_AGE - 1 && forall j :: m <= j < MAX_AGE - 1 ==> r[j] == 0
    ensures Sum(r, 0, |r| - 1) == Sum(r, 0, m)
  {
    SumSplit(r, 0, m, |r| - 1);
    SumZero(r, m, |r| - 1);
  }

  // ---------------------------------------------------------------- coarsening against recording

  ghost predicate BelowLast(ages: seq<nat>, s: nat) {
    forall n :: 0 <= n < |ages| ==> Shr(ages[n], s) < MAX_AGE - 1
  }

  lemma {:induction false} ShrShr(x: nat, a: nat, b: nat)
    ensures Shr(x, a + b) == Shr(Shr(x, a), b)
  {
    Pow2Add(a, b);
    DivDiv(x, Pow2(a), Pow2(b));
  }

  /** A recorded age falls in block j at shift s exactly when it is j at shift s + delta. */
  lemma AgeInBlock(raw: nat, s: nat, delta: nat, j: nat)
    requires 0 < delta && Shr(raw, s) < MAX_AGE - 1
    ensures (j * Pow2(delta) <= Age(raw, s) < j * Pow2(delta) + Pow2(delta)) <==> Age(raw, s + delta) == j
    ensures Age(raw, s + delta) == Shr(Age(raw, s), delta)
    ensures Age(raw, s + delta) <= MAX_AGE / 2
  {
    var a, p := Shr(raw, s), Pow2(delta);
    ShrShr(raw, s, delta);
    DivMod(a, p);
    var q := Shr(a, delta);
    Distrib(j, 1, p);
    if j * p <= a < j * p + p {
      DivUnique(a, p, j, a - j * p);
    }
    Pow2Mono(1, delta);
    assert Pow2(1) == 2;
    MulMono(2, p, MAX_AGE / 2 + 1);
    assert (MAX_AGE / 2 + 1) * p == p * (MAX_AGE / 2 + 1);
    ShrBelow(a, delta, MAX_AGE / 2 + 1);
  }

  lemma AgeBelowBlocks(raw: nat, s: nat, delta: nat)
    requires 0 < delta <= LOG_MAX_AGE && Shr(raw, s) < MAX_AGE - 1
    ensures Age(raw, s + delta) < Shr(MAX_AGE, delta)
  {
    AgeInBlock(raw, s, delta, 0);
    BlocksCover(delta);
    ShrBelow(Age(raw, s), delta, Shr(MAX_AGE, delta));
  }

  lemma {:induction false} BlockRecorded(ages: seq<nat>, s: nat, delta: nat, j: nat)
    requires 0 < delta && j < Shr(MAX_AGE, delta) && BelowLast(ages, s)
    requires 0 <= j * Pow2(delta) && j * Pow2(delta) + Pow2(delta) <= MAX_AGE
    ensures Sum(Histogram(ages, s), j * Pow2(delta), j * Pow2(delta) + Pow2(delta)) == Recorded(ages, s + delta, j)
    decreases |ages|
  {
    var lo := j * Pow2(delta);
    var hi := lo + Pow2(delta);
    if ages == [] {
      SumZero(Histogram(ages, s), lo, hi);
    } else {
      var n := |ages| - 1;
      BlockRecorded(ages[..n], s, delta, j);
      SumBump(Histogram(ages[..n], s), Histogram(ages, s), Age(ages[n], s), HIT_SCALING_FACTOR, lo, hi);
      AgeInBlock(ages[n], s, delta, j);
    }
  }

  lemma {:induction false} NeverRecorded(ages: seq<nat>, s: nat, i: nat)
    requires forall n :: 0 <= n < |ages| ==> Age(ages[n], s) != i
    ensures Recorded(ages, s, i) == 0
    decreases |ages|
  {
    if ages != [] {
      NeverRecorded(ages[..|ages| - 1], s, i);
    }
  }

  lemma {:induction false} OnceRecorded(ages: seq<nat>, s: nat, n: nat)
    requires n < |ages|
    ensures Recorded(ages, s, Age(ages[n], s)) > 0
    decreases |ages|
  {
    if n < |ages| - 1 {
      OnceRecorded(ages[..|ages| - 1], s, n);
    }
  }

  lemma CoarseOfUnsaturated(ages: seq<nat>, s: nat, delta: nat)
    requires 0 < delta <= LOG_MAX_AGE && BelowLast(ages, s)
    ensures Coarse(Histogram(ages, s), delta) == Histogram(ages, s + delta)
  {
    var c, r := Coarse(Histogram(ages, s), delta), Histogram(ages, s + delta);
    BlocksCover(delta);
    forall j | 0 <= j < MAX_AGE ensures c[j] == r[j] {
      if j < Shr(MAX_AGE, delta) {
        BlockFits(delta, j);
        BlockRecorded(ages, s, delta, j);
      } else {
        forall n | 0 <= n < |ages| ensures Age(ages[n], s + delta) != j {
          AgeBelowBlocks(ages[n], s, delta);
        }
        NeverRecorded(ages, s + delta, j);
        if j == MAX_AGE - 1 {
          NeverRecorded(ages, s, j);
        }
      }
    }
  }

  /** The last bucket is counted twice. */
  lemma SaturatedGainsMass(h: seq<nat>, delta: nat)
    requires |h| == MAX_AGE && 0 < delta <= LOG_MAX_AGE
    ensures Total(Coarse(h, delta)) == Total(h) + h[MAX_AGE - 1]
  {
    var r := Coarse(h, delta);
    CoarseMass(h, delta);
    assert Total(r) == Sum(r, 0, |r| - 1) + r[MAX_AGE - 1];
  }

  lemma SaturatedDiffers(h: seq<nat>, r: seq<nat>, delta: nat)
    requires |h| == |r| == MAX_AGE && 0 < delta <= LOG_MAX_AGE
    requires h[MAX_AGE - 1] > 0 && Total(h) == Total(r)
    ensures Coarse(h, delta) != r
  {
    SaturatedGainsMass(h, delta);
  }

  lemma LastBucketFilled(ages: seq<nat>, s: nat, n: nat)
    requires n < |ages| && Shr(ages[n], s) >= MAX_AGE - 1
    ensures Histogram(ages, s)[MAX_AGE - 1] > 0
  {
    assert Age(ages[n], s) == MAX_AGE - 1;
    OnceRecorded(ages, s, n);
  }

  lemma SameMass(ages: seq<nat>, s: nat, t: nat)
    ensures Total(Histogram(ages, s)) == Total(Histogram(ages, t))
  {
    HistogramMass(ages, s);
    HistogramMass(ages, t);
  }

  lemma SaturatedDisagrees(ages: seq<nat>, s: nat, delta: nat)
    requires 0 < delta <= LOG_MAX_AGE && Histogram(ages, s)[MAX_AGE - 1] > 0
    ensures Coarse(Histogram(ages, s), delta) != Histogram(ages, s + delta)
  {
    hide Histogram, Coarse;
    SameMass(ages, s, s + delta);
    SaturatedDiffers(Histogram(ages, s), Histogram(ages, s + delta), delta);
  }

  /** Coarsening a recorded histogram gives the histogram recorded at the coarser shift
      exactly when no recorded age had reached the last bucket. */
  lemma CoarseningCommutes(ages: seq<nat>, s: nat, delta: nat)
    requires 0 < delta <= LOG_MAX_AGE
    ensures Coarse(Histogram(ages, s), delta) == Histogram(ages, s + delta) <==> BelowLast(ages, s)
  {
    if BelowLast(ages, s) {
      CoarseOfUnsaturated(ages, s, delta);
    } else {
      var n :| 0 <= n < |ages| && Shr(ages[n], s) >= MAX_AGE - 1;
      LastBucketFilled(ages, s, n);
      SaturatedDisagrees(ages, s, delta);
    }
  }

  // ---------------------------------------------------------------- hit densities, as values

  function Suffix(h: seq<nat>, i: nat): nat
    requires i <= |h|
  {
    Sum(h, i, |h|)
  }

  /** Sum over k in i..n-1 of (k - i + 1) * h[k]. */
  function Weighted(h: seq<nat>, i: nat, n: nat): nat
    requires i <= n <= |h|
    decreases n - i
  {
    if n == i then 0 else Weighted(h, i, n - 1) + MulNat(n - i, h[n - 1])
  }

  function MulNat(a: nat, b: nat): (r: nat)
    ensures r == a * b
  {
    MulMono(0, a, b);
    a * b
  }

  ghost function Events(hits: seq<nat>, evictions: seq<nat>, i: nat): nat
    requires |hits| == |evictions| == MAX_AGE && i < MAX_AGE
  {
    hits[MAX_AGE - 1] + Suffix(evictions, i)
  }

  /** The expected remaining lifetime, up to scale: an eviction at age k >= i weighs
      k - i + 1, and the hits of the last bucket weigh as if at the end. */
  ghost function Lifetime(hits: seq<nat>, evictions: seq<nat>, i: nat): nat
    requires |hits| == |evictions| == MAX_AGE && i < MAX_AGE
  {
    Weighted(evictions, i, MAX_AGE) + MulNat(MAX_AGE - i, hits[MAX_AGE - 1])
  }

  ghost predicate Rated(hits: seq<nat>, evictions: seq<nat>, i: nat)
    requires |hits| == |evictions| == MAX_AGE && i < MAX_AGE
  {
    Events(hits, evictions, i) > TOTAL_EVENTS_THRESH
  }

  ghost function Density(hits: seq<nat>, evictions: seq<nat>, i: nat): nat
    requires |hits| == |evictions| == MAX_AGE && i < MAX_AGE
  {
    if Rated(hits, evictions, i) then
      LifetimeCoversEvents(hits, evictions, i);
      DivNat(Suffix(hits, i) * HIT_DENSITY_SCALING_FACTOR, Lifetime(hits, evictions, i))
    else 0
  }

  lemma {:induction false} WeightedAtLeast(h: seq<nat>, i: nat, n: nat)
    requires i <= n <= |h|
    ensures Weighted(h, i, n) >= Sum(h, i, n)
    decreases n - i
  {
    if i < n {
      WeightedAtLeast(h, i, n - 1);
      MulMono(1, n - i, h[n - 1]);
    }
  }

  /** The divisor is never zero where a density is computed. */
  lemma LifetimeCoversEvents(hits: seq<nat>, evictions: seq<nat>, i: nat)
    requires |hits| == |evictions| == MAX_AGE && i < MAX_AGE
    ensures Lifetime(hits, evictions, i) >= Events(hits, evictions, i)
  {
    WeightedAtLeast(evictions, i, MAX_AGE);
    MulMono(1, MAX_AGE - i, hits[MAX_AGE - 1]);
  }

  lemma {:induction false} WeightedStep(h: seq<nat>, i: nat, n: nat)
    requires i < n <= |h|
    ensures Weighted(h, i, n) == Weighted(h, i + 1, n) + Sum(h, i, n)
    decreases n - i
  {
    if n == i + 1 {
      assert Weighted(h, i, i + 1) == Weighted(h, i, i) + MulNat(1, h[i]);
      assert Sum(h, i, i + 1) == Sum(h, i, i) + h[i];
    } else {
      WeightedStep(h, i, n - 1);
      Distrib(n - i - 1, 1, h[n - 1]);
    }
  }

  /** Going back one age adds all later events once more. */
  lemma LifetimeStep(hits: seq<nat>, evictions: seq<nat>, i: nat)
    requires |hits| == |evictions| == MAX_AGE && i + 1 < MAX_AGE
    ensures Lifetime(hits, evictions, i) == Lifetime(hits, evictions, i + 1) + Events(hits, evictions, i)
  {
    WeightedStep(evictions, i, MAX_AGE);
    Distrib(MAX_AGE - i - 1, 1, hits[MAX_AGE - 1]);
  }

  /** The last age: all there is are its own hits and evictions. */
  lemma LastAge(hits: seq<nat>, evictions: seq<nat>)
    requires |hits| == |evictions| == MAX_AGE
    ensures var last := MAX_AGE - 1;
            && Suffix(hits, last) == hits[last]
            && Events(hits, evictions, last) == Lifetime(hits, evictions, last) == hits[last] + evictions[last]
  {
    var last := MAX_AGE - 1;
    assert Sum(hits, last, MAX_AGE) == Sum(hits, last, last) + hits[last];
    assert Sum(evictions, last, MAX_AGE) == Sum(evictions, last, last) + evictions[last];
    assert Weighted(evictions, last, MAX_AGE) == Weighted(evictions, last, last) + MulNat(1, evictions[last]);
  }

  /** Every earlier age adds its own hits to the hits to come, and its evictions, not its hits, to
      the events. */
  lemma EarlierAge(hits: seq<nat>, evictions: seq<nat>, i: nat)
    requires |hits| == |evictions| == MAX_AGE && i + 1 < MAX_AGE
    ensures Suffix(hits, i) == Suffix(hits, i + 1) + hits[i]
    ensures Events(hits, evictions, i) == Events(hits, evictions, i + 1) + evictions[i]
    ensures Lifetime(hits, evictions, i) == Lifetime(hits, evictions, i + 1) + Events(hits, evictions, i)
  {
    SuffixStep(hits, i);
    SuffixStep(evictions, i);
    LifetimeStep(hits, evictions, i);
  }

  /** The density is the hits to come over the lifetime, scaled by 2^20 and rounded down, where
      there are more than ten events, and 0 elsewhere. */
  lemma DensityExactly(hits: seq<nat>, evictions: seq<nat>, i: nat)
    requires |hits| == |evictions| == MAX_AGE && i < MAX_AGE
    ensures var d, n := Density(hits, evictions, i), Lifetime(hits, evictions, i);
            && (Events(hits, evictions, i) <= 10 ==> d == 0)
            && (Events(hits, evictions, i) > 10 ==> d * n <= Suffix(hits, i) * 0x10_0000 < (d + 1) * n)
  {
    if Rated(hits, evictions, i) {
      LifetimeCoversEvents(hits, evictions, i);
      DivMod(Suffix(hits, i) * HIT_DENSITY_SCALING_FACTOR, Lifetime(hits, evictions, i));
      Distrib(Density(hits, evictions, i), 1, Lifetime(hits, evictions, i));
    }
  }

  lemma SuffixStep(h: seq<nat>, i: nat)
    requires i < |h|
    ensures Suffix(h, i) == h[i] + Suffix(h, i + 1)
  {
    SumSplit(h, i, i + 1, |h|);
    assert Sum(h, i, i + 1) == Sum(h, i, i) + h[i];
  }

  /** Ages without enough events form a suffix: below some cut every age is rated, from the
      cut on none is, and those have density zero. */
  lemma {:induction false} RatedAgesFormPrefix(hits: seq<nat>, evictions: seq<nat>, n: nat) returns (cut: nat)
    requires |hits| == |evictions| == MAX_AGE && n < MAX_AGE
    ensures cut <= n
    ensures forall i :: 0 <= i < n ==> (Rated(hits, evictions, i) <==> i < cut)
    ensures forall i :: cut <= i < n ==> Density(hits, evictions, i) == 0
  {
    if n == 0 {
      cut := 0;
    } else {
      cut := RatedAgesFormPrefix(hits, evictions, n - 1);
      if Rated(hits, evictions, n - 1) {
        RatedBelow(hits, evictions, n - 1);
        cut := n;
      }
    }
  }

  lemma RatedBelow(hits: seq<nat>, evictions: seq<nat>, j: nat)
    requires |hits| == |evictions| == MAX_AGE && j < MAX_AGE && Rated(hits, evictions, j)
    ensures forall i :: 0 <= i <= j ==> Rated(hits, evictions, i)
  {
    forall i | 0 <= i <= j ensures Rated(hits, evictions, i) {
      SumSplit(evictions, i, j, MAX_AGE);
    }
  }

  // ---------------------------------------------------------------- one class in memory

  ghost function Decayed(h: seq<nat>): (r: seq<nat>)
    ensures |r| == |h|
  {
    seq(|h|, i requires 0 <= i < |h| => h[i] * 9 / 10)
  }

  /** Before any reconfiguration the density falls with age and grows with the class number. */
  function InitialDensity(index: nat, age: nat): nat {
    DivNat(HIT_DENSITY_SCALING_FACTOR * (index + 1), age + 1)
  }

  /** It is the class number plus one over the age plus one, scaled by 2^20 and rounded down: it
      never grows with age and never falls with the class. */
  lemma InitialDensityExactly(index: nat, age: nat)
    ensures var d := InitialDensity(index, age);
            d * (age + 1) <= 0x10_0000 * (index + 1) < (d + 1) * (age + 1)
    ensures InitialDensity(index, age + 1) <= InitialDensity(index, age) <= InitialDensity(index + 1, age)
  {
    var x, y, d := HIT_DENSITY_SCALING_FACTOR * (index + 1), HIT_DENSITY_SCALING_FACTOR * (index + 2), age + 1;
    DivMod(x, d);
    Distrib(x / d, 1, d);
    MulMono(d, d + 1, InitialDensity(index, age + 1));
    DivMod(x, d + 1);
    DivAtLeast(x, d, x / (d + 1));
    DivAtLeast(y, d, x / d);
  }

  /** A decayed counter is nine tenths of what it was, rounded down, so no counter but 0 stays. */
  lemma DecayExactly(h: seq<nat>, i: nat)
    requires i < |h|
    ensures 10 * Decayed(h)[i] <= 9 * h[i] < 10 * Decayed(h)[i] + 10
    ensures Decayed(h)[i] == h[i] <==> h[i] == 0
  {
  }

  class LhdClass {
    const hits: array<nat>
    const evictions: array<nat>
    const hitDensities: array<nat>
    var totalHits: nat
    var totalEvictions: nat

    ghost predicate Valid() {
      && hits.Length == evictions.Length == hitDensities.Length == MAX_AGE
      && hits != evictions && hits != hitDensities && evictions != hitDensities
    }

    /** The densities are those of the histograms h of hits and e of evictions. */
    ghost predicate ModelledOn(h: seq<nat>, e: seq<nat>)
      requires Valid() && |h| == |e| == MAX_AGE
      reads hitDensities
    {
      forall i :: 0 <= i < MAX_AGE - 1 ==> hitDensities[i] == Density(h, e, i)
    }

    /** Zeroed counters, and the densities lhd_init gives class number index. */
    constructor (index: nat)
      ensures Valid() && fresh(hits) && fresh(evictions) && fresh(hitDensities)
      ensures hits[..] == evictions[..] == seq(MAX_AGE, _ => 0)
      ensures forall i :: 0 <= i < MAX_AGE ==> hitDensities[i] == InitialDensity(index, i)
    {
      hits := new nat[MAX_AGE](_ => 0);
      evictions := new nat[MAX_AGE](_ => 0);
      hitDensities := new nat[MAX_AGE](i requires 0 <= i => InitialDensity(index, i));
      totalHits, totalEvictions := 0, 0;
    }

    /** update_class: every counter loses a tenth, and the totals are recomputed. */
    method Update()
      requires Valid()
      modifies this, hits, evictions
      ensures hits[..] == Decayed(old(hits[..])) && evictions[..] == Decayed(old(evictions[..]))
      ensures totalHits == Total(hits[..]) && totalEvictions == Total(evictions[..])
    {
      totalHits, totalEvictions := 0, 0;
      ghost var h, e := Decayed(hits[..]), Decayed(evictions[..]);
      for i := 0 to MAX_AGE
        invariant forall k :: 0 <= k < MAX_AGE ==> hits[k] == if k < i then h[k] else old(hits[k])
        invariant forall k :: 0 <= k < MAX_AGE ==> evictions[k] == if k < i then e[k] else old(evictions[k])
        invariant totalHits == Sum(h, 0, i) && totalEvictions == Sum(e, 0, i)
      {
        hits[i] := hits[i] * 9 / 10;
        evictions[i] := evictions[i] * 9 / 10;
        totalHits := totalHits + hits[i];
        totalEvictions := totalEvictions + evictions[i];
      }
      assert hits[..] == h && evictions[..] == e;
    }

    /** Buckets below n are done, the others untouched. */
    ghost predicate CoarsenedBelow(a: array<nat>, was: seq<nat>, delta: nat, n: nat)
      requires a.Length == |was| == MAX_AGE && delta > 0
      reads a
    {
      forall i :: 0 <= i < MAX_AGE ==> a[i] == if i < n then CoarseAt(was, delta, i) else was[i]
    }

    /** compress_distribution on this class: coarsen both histograms in place. */
    method Compress(delta: nat)
      requires Valid() && delta > 0
      modifies hits, evictions
      ensures hits[..] == Coarse(old(hits[..]), delta)
      ensures evictions[..] == Coarse(old(evictions[..]), delta)
    {
      ghost var h, e := hits[..], evictions[..];
      BlocksCover(delta);
      var m := Shr(MAX_AGE, delta);
      for j := 0 to m
        invariant CoarsenedBelow(hits, h, delta, j) && CoarsenedBelow(evictions, e, delta, j)
      {
        GatherBlock(delta, j, h, e);
      }
      for j := m to MAX_AGE - 1
        invariant CoarsenedBelow(hits, h, delta, j) && CoarsenedBelow(evictions, e, delta, j)
      {
        hits[j] := 0;
        evictions[j] := 0;
      }
      assert hits[..] == Coarse(h, delta);
      assert evictions[..] == Coarse(e, delta);
    }

    /** Bucket j receives the sum of its block, read from buckets not yet overwritten. */
    method GatherBlock(delta: nat, j: nat, ghost h: seq<nat>, ghost e: seq<nat>)
      requires Valid() && delta > 0 && j < Shr(MAX_AGE, delta) && |h| == |e| == MAX_AGE
      requires CoarsenedBelow(hits, h, delta, j) && CoarsenedBelow(evictions, e, delta, j)
      modifies hits, evictions
      ensures CoarsenedBelow(hits, h, delta, j + 1) && CoarsenedBelow(evictions, e, delta, j + 1)
    {
      var p := Pow2(delta);
      BlockFits(delta, j);
      Pow2Mono(1, delta);
      assert Pow2(1) == 2;
      MulMono(2, p, j);
      var lo := j * p;
      hits[j] := hits[lo];
      evictions[j] := evictions[lo];
      assert Sum(h, lo, lo + 1) == Sum(h, lo, lo) + h[lo];
      assert Sum(e, lo, lo + 1) == Sum(e, lo, lo) + e[lo];
      for k := 1 to p
        invariant forall i :: 0 <= i < MAX_AGE && i != j ==> hits[i] == if i < j then CoarseAt(h, delta, i) else h[i]
        invariant forall i :: 0 <= i < MAX_AGE && i != j ==>
                    evictions[i] == if i < j then CoarseAt(e, delta, i) else e[i]
        invariant hits[j] == Sum(h, lo, lo + k) && evictions[j] == Sum(e, lo, lo + k)
      {
        hits[j] := hits[j] + hits[lo + k];
        evictions[j] := evictions[j] + evictions[lo + k];
      }
    }

    /** model_hit_density on this class: one backward scan fills in every density below the
        last, each the closed form over the whole histogram. */
    method ModelHitDensity()
      requires Valid()
      modifies hitDensities
      ensures ModelledOn(hits[..], evictions[..])
      ensures hitDensities[MAX_AGE - 1] == old(hitDensities[MAX_AGE - 1])
    {
      ghost var h, e := hits[..], evictions[..];
      var hitsSoFar := hits[MAX_AGE - 1];
      var events := hitsSoFar + evictions[MAX_AGE - 1];
      var lifetime := events;
      ScanStarts(h, e);
      var index := MAX_AGE - 1;
      while index > 0
        invariant 0 <= index <= MAX_AGE - 1
        invariant hits[..] == h && evictions[..] == e
        invariant hitsSoFar == Suffix(h, index)
        invariant events == Events(h, e, index)
        invariant lifetime == Lifetime(h, e, index)
        invariant forall i :: index <= i < MAX_AGE - 1 ==> hitDensities[i] == Density(h, e, i)
        invariant hitDensities[MAX_AGE - 1] == old(hitDensities[MAX_AGE - 1])
      {
        index := index - 1;
        SuffixStep(h, index);
        SuffixStep(e, index);
        LifetimeStep(h, e, index);
        LifetimeCoversEvents(h, e, index);
        hitsSoFar := hitsSoFar + hits[index];
        events := events + evictions[index];
        lifetime := lifetime + events;
        if events > TOTAL_EVENTS_THRESH {
          hitDensities[index] := DivNat(hitsSoFar * HIT_DENSITY_SCALING_FACTOR, lifetime);
        } else {
          hitDensities[index] := 0;
        }
      }
    }
  }

  lemma ScanStarts(h: seq<nat>, e: seq<nat>)
    requires |h| == |e| == MAX_AGE
    ensures Suffix(h, MAX_AGE - 1) == h[MAX_AGE - 1]
    ensures Events(h, e, MAX_AGE - 1) == h[MAX_AGE - 1] + e[MAX_AGE - 1] == Lifetime(h, e, MAX_AGE - 1)
  {
    var m := MAX_AGE - 1;
    SuffixStep(h, m);
    SuffixStep(e, m);
    assert Suffix(h, MAX_AGE) == 0 && Suffix(e, MAX_AGE) == 0;
    assert Weighted(e, m, MAX_AGE) == Weighted(e, m, m) + MulNat(1, e[m]);
  }
}
