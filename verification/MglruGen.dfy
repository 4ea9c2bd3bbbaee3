/** Generations and tiers of the MGLRU policy: the record shared by every hook
    (struct mglru_global_metadata), its aging and retirement, and the feedback controller
    that decides which tiers are protected. Counters are unbounded integers. */
module MglruGen {
  import opened Arith

  const MAX_NR_TIERS: nat := 4
  const MIN_NR_GENS: nat := 2
  const MAX_NR_GENS: nat := 4
  const MIN_LRU_BATCH: nat := 64
  const ALMOST_EMPTY: nat := 4

  // ---------------------------------------------------------------- controller, as values

  /** Per-tier event counters and their running averages. */
  datatype Ctrl = Ctrl(refaulted: seq<nat>, evicted: seq<nat>, protect: seq<nat>,
                       avgRefaulted: seq<nat>, avgTotal: seq<nat>)
  {
    ghost predicate Shaped() {
      && |refaulted| == |evicted| == |avgRefaulted| == |avgTotal| == MAX_NR_TIERS
      && |protect| == MAX_NR_TIERS - 1
    }
  }

  datatype CtrlPos = CtrlPos(refaulted: nat, total: nat, gain: nat)

  ghost function Reading(c: Ctrl, tier: nat, gain: nat): CtrlPos
    requires c.Shaped() && tier < MAX_NR_TIERS
  {
    CtrlPos(c.avgRefaulted[tier] + c.refaulted[tier],
            c.avgTotal[tier] + c.evicted[tier] + (if tier > 0 then c.protect[tier - 1] else 0),
            gain)
  }

  predicate PositiveCtrlErr(sp: CtrlPos, pv: CtrlPos) {
    || pv.refaulted < MIN_LRU_BATCH
    || pv.refaulted * (sp.total + MIN_LRU_BATCH) * sp.gain <= (sp.refaulted + 1) * pv.total * pv.gain
  }

  /** Tier t keeps up with tier 0: its refault ratio is at most about twice tier 0's. */
  ghost predicate TierPasses(c: Ctrl, t: nat)
    requires c.Shaped() && t < MAX_NR_TIERS
  {
    PositiveCtrlErr(Reading(c, 0, 1), Reading(c, t, 2))
  }

  /** r is the end of the longest prefix of tiers 1, 2, 3 that all pass. */
  ghost predicate LongestPassingPrefix(c: Ctrl, r: nat)
    requires c.Shaped()
  {
    && r < MAX_NR_TIERS
    && (forall t :: 1 <= t <= r ==> TierPasses(c, t))
    && (r + 1 < MAX_NR_TIERS ==> !TierPasses(c, r + 1))
  }

  /** Fewer refaults or a larger total never turn a passing tier into a failing one; nor do more
      refaults or a smaller total of tier 0. */
  lemma PassesMonotone(sp: CtrlPos, pv: CtrlPos, sp': CtrlPos, pv': CtrlPos)
    requires PositiveCtrlErr(sp, pv) && sp'.gain == sp.gain && pv'.gain == pv.gain
    requires pv'.refaulted <= pv.refaulted && pv'.total >= pv.total
    requires sp'.refaulted >= sp.refaulted && sp'.total <= sp.total
    ensures PositiveCtrlErr(sp', pv')
  {
    if pv'.refaulted >= MIN_LRU_BATCH {
      var a, b := pv.refaulted * (sp.total + MIN_LRU_BATCH), pv'.refaulted * (sp'.total + MIN_LRU_BATCH);
      var c, d := (sp.refaulted + 1) * pv.total, (sp'.refaulted + 1) * pv'.total;
      ProductMono(pv'.refaulted, pv.refaulted, sp'.total + MIN_LRU_BATCH, sp.total + MIN_LRU_BATCH);
      ProductMono(sp.refaulted + 1, sp'.refaulted + 1, pv.total, pv'.total);
      MulMono(b, a, sp.gain);
      MulMono(c, d, pv.gain);
    }
  }

  lemma ProductMono(a: nat, a': nat, b: nat, b': nat)
    requires a <= a' && b <= b'
    ensures a * b <= a' * b'
  {
    MulMono(a, a', b);
    MulMono(b, b', a');
  }

  /** Tier t refaults too much: it has at least a batch of refaults, and more of them per page
      evicted or protected than twice the quotient of tier 0, taken with one refault and a batch
      of pages more. With a batch of refaults and no such page it refaults too much as well. */
  ghost predicate Exceeds(c: Ctrl, t: nat)
    requires c.Shaped() && t < MAX_NR_TIERS
  {
    var sp, pv := Reading(c, 0, 1), Reading(c, t, 2);
    && pv.refaulted >= 64
    && (pv.total > 0 ==>
          pv.refaulted as real / pv.total as real
          > 2.0 * (sp.refaulted + 1) as real / (sp.total + 64) as real)
  }

  /** The integer comparison decides exactly that. */
  lemma PassesExactly(c: Ctrl, t: nat)
    requires c.Shaped() && t < MAX_NR_TIERS
    ensures TierPasses(c, t) <==> !Exceeds(c, t)
  {
    var sp, pv := Reading(c, 0, 1), Reading(c, t, 2);
    assert pv.refaulted * (sp.total + MIN_LRU_BATCH) * 1 == pv.refaulted * (sp.total + MIN_LRU_BATCH);
    if pv.total > 0 {
      RatioTest(pv.refaulted, pv.total, sp.refaulted + 1, sp.total + MIN_LRU_BATCH);
    } else if pv.refaulted > 0 {
      MulMono(1, pv.refaulted, sp.total + MIN_LRU_BATCH);
    }
  }

  lemma RatioTest(a: nat, b: nat, c: nat, d: nat)
    requires b > 0 && d > 0
    ensures a * d <= c * b * 2 <==> !(a as real / b as real > 2.0 * c as real / d as real)
  {
    QuotientOver(a as real, b as real, 2.0 * c as real, d as real);
    ProductAsReal(a, d);
    ProductAsReal(2 * c, b);
    ProductAsReal(2, c);
    assert c * b * 2 == 2 * c * b;
  }

  /** The tiers up to the threshold do not refault too much, and the next one, if any, does. */
  lemma ThresholdExactly(c: Ctrl, r: nat)
    requires c.Shaped()
    ensures LongestPassingPrefix(c, r) <==>
            && r < MAX_NR_TIERS
            && (forall t :: 1 <= t <= r ==> !Exceeds(c, t))
            && (r + 1 < MAX_NR_TIERS ==> Exceeds(c, r + 1))
  {
    forall t: nat | t < MAX_NR_TIERS ensures TierPasses(c, t) <==> !Exceeds(c, t) {
      PassesExactly(c, t);
    }
  }

  /** What a carry-over reset leaves: averages hold half of each reading, counters are zero. */
  ghost function Halved(c: Ctrl): (r: Ctrl)
    requires c.Shaped()
    ensures r.Shaped()
  {
    Ctrl(seq(MAX_NR_TIERS, _ => 0), seq(MAX_NR_TIERS, _ => 0), seq(MAX_NR_TIERS - 1, _ => 0),
         seq(MAX_NR_TIERS, t requires 0 <= t < MAX_NR_TIERS => Reading(c, t, 1).refaulted / 2),
         seq(MAX_NR_TIERS, t requires 0 <= t < MAX_NR_TIERS => Reading(c, t, 1).total / 2))
  }

  ghost function HalvedTimes(c: Ctrl, k: nat): (r: Ctrl)
    requires c.Shaped()
    ensures r.Shaped()
  {
    if k == 0 then c else Halved(HalvedTimes(c, k - 1))
  }

  /** A carry-over reset halves, rounding down, what is reported for every tier. */
  lemma HalvedReading(c: Ctrl, t: nat, gain: nat)
    requires c.Shaped() && t < MAX_NR_TIERS
    ensures Reading(Halved(c), t, gain)
         == CtrlPos(Reading(c, t, gain).refaulted / 2, Reading(c, t, gain).total / 2, gain)
  {
  }

  /** k retirements with no event in between divide every reading by 2^k, rounding down
      once: repeated rounding loses nothing. */
  lemma {:induction false} RepeatedHalving(c: Ctrl, k: nat, t: nat, gain: nat)
    requires c.Shaped() && t < MAX_NR_TIERS
    ensures Reading(HalvedTimes(c, k), t, gain)
         == CtrlPos(Shr(Reading(c, t, gain).refaulted, k), Shr(Reading(c, t, gain).total, k), gain)
  {
    var was := Reading(c, t, gain);
    if k > 0 {
      RepeatedHalving(c, k - 1, t, gain);
      HalvedReading(HalvedTimes(c, k - 1), t, gain);
      ShrStep(was.refaulted, k - 1);
      ShrStep(was.total, k - 1);
    }
  }

  /** Protection decays: once the refaults of every tier fall below 2^k batches, k quiet
      retirements turn protection off for all tiers. */
  lemma ProtectionDecays(c: Ctrl, k: nat)
    requires c.Shaped()
    requires forall t :: 1 <= t < MAX_NR_TIERS ==> Reading(c, t, 2).refaulted < MIN_LRU_BATCH * Pow2(k)
    ensures LongestPassingPrefix(HalvedTimes(c, k), MAX_NR_TIERS - 1)
  {
    forall t | 1 <= t <= MAX_NR_TIERS - 1
      ensures TierPasses(HalvedTimes(c, k), t)
    {
      RepeatedHalving(c, k, t, 2);
      ShrBelow(Reading(c, t, 2).refaulted, k, MIN_LRU_BATCH);
    }
  }

  // ---------------------------------------------------------------- generations, as values

  /** The live window minSeq..maxSeq of generations over four physical slots. */
  datatype Gen = Gen(minSeq: nat, maxSeq: nat, nrPages: seq<int>, ctrl: Ctrl)
  {
    ghost predicate Shaped() {
      |nrPages| == MAX_NR_GENS && ctrl.Shaped()
    }

    function Slot(seqNo: nat): (g: nat)
      ensures g < MAX_NR_GENS
    {
      seqNo % MAX_NR_GENS
    }

    /** read_nr_pages_stat: a negative counter reads as zero. */
    function Pages(g: nat): nat
      requires |nrPages| == MAX_NR_GENS && g < MAX_NR_GENS
    {
      if nrPages[g] < 0 then 0 else nrPages[g]
    }
  }

  /** Subtraction of unsigned 64-bit sequence numbers. */
  function USub(a: nat, b: nat): int {
    if a >= b then a - b else TWO_64 + a - b
  }

  /** When aging is asked for. The loop of should_run_aging never meets the youngest
      generation, so its "too many young pages" test cannot fire. */
  ghost predicate AgingNeeded(g: Gen)
    requires g.Shaped()
  {
    || g.minSeq + MIN_NR_GENS > g.maxSeq
    || (g.minSeq + MIN_NR_GENS == g.maxSeq
        && 4 * g.Pages(g.Slot(g.minSeq)) < g.Pages(g.Slot(g.minSeq)) + g.Pages(g.Slot(g.minSeq + 1)))
  }

  /** Retire the oldest generation when it is almost empty. */
  ghost function IncMin(g: Gen): (r: (bool, Gen))
    requires g.Shaped()
    ensures r.1.Shaped()
  {
    if g.Pages(g.Slot(g.minSeq)) <= ALMOST_EMPTY
    then (true, g.(minSeq := g.minSeq + 1, ctrl := Halved(g.ctrl)))
    else (false, g)
  }

  /** Open a new youngest generation; a full window must first retire its oldest. */
  ghost function IncMax(g: Gen): (r: (bool, Gen))
    requires g.Shaped()
    ensures r.1.Shaped()
  {
    if g.maxSeq - g.minSeq + 1 == MAX_NR_GENS then
      var (ok, g') := IncMin(g);
      if ok then (true, g'.(maxSeq := g'.maxSeq + 1)) else (false, g')
    else
      (true, g.(maxSeq := g.maxSeq + 1))
  }

  /** Retiring succeeds exactly when at most four pages are left in the oldest slot; it then drops
      that generation and halves the controller, and otherwise changes nothing. */
  lemma IncMinExactly(g: Gen)
    requires g.Shaped()
    ensures var (ok, r) := IncMin(g);
            && (ok <==> g.Pages(g.minSeq % 4) <= 4)
            && r.minSeq - g.minSeq == (if ok then 1 else 0)
            && r.ctrl == (if ok then Halved(g.ctrl) else g.ctrl)
            && r.maxSeq == g.maxSeq && r.nrPages == g.nrPages
  {
  }

  /** Opening a generation fails exactly when the window is full and its oldest cannot retire; a
      full window stays at four, and any other grows by one without a reset. */
  lemma IncMaxExactly(g: Gen)
    requires g.Shaped() && g.minSeq <= g.maxSeq
    ensures var (ok, r) := IncMax(g);
            var full := g.maxSeq == g.minSeq + 3;
            && (ok <==> !full || IncMin(g).0)
            && r.maxSeq - g.maxSeq == (if ok then 1 else 0)
            && (full && ok ==> r.maxSeq == r.minSeq + 3)
            && (if full then r == IncMin(g).1.(maxSeq := r.maxSeq) else r == g.(maxSeq := r.maxSeq))
  {
  }

  /** The locked prologue of evict_folios: aging, then retirement decided on the sequence
      numbers read before aging. */
  ghost function Rotate(g: Gen): (r: Gen)
    requires g.Shaped()
    ensures r.Shaped()
  {
    var aged := if AgingNeeded(g) then IncMax(g).1 else g;
    if USub(g.maxSeq, g.minSeq) > MIN_NR_GENS then IncMin(aged).1 else aged
  }

  ghost predicate WindowOk(g: Gen) {
    g.minSeq + 2 <= g.maxSeq <= g.minSeq + 3
  }

  /** At most the retirement threshold of pages sits in the youngest slot, and in the slot
      outside the window when there is one. */
  ghost predicate SparseOk(g: Gen)
    requires g.Shaped()
  {
    && g.nrPages[g.Slot(g.maxSeq)] <= ALMOST_EMPTY
    && (g.maxSeq == g.minSeq + 2 ==> g.nrPages[g.Slot(g.maxSeq + 1)] <= ALMOST_EMPTY)
  }

  /** In a legal window aging is asked for exactly when there are three generations and the second
      oldest has more than three times the pages of the oldest. */
  lemma AgingExactly(g: Gen)
    requires g.Shaped() && WindowOk(g)
    ensures AgingNeeded(g) <==>
            g.maxSeq == g.minSeq + 2 && g.Pages((g.minSeq + 1) % 4) > 3 * g.Pages(g.minSeq % 4)
  {
  }

  /** The rotation keeps the window at three or four generations and the edge slots sparse;
      aging succeeds whenever it is asked for; counters per slot do not change. */
  lemma RotateKeepsWindow(g: Gen)
    requires g.Shaped() && WindowOk(g) && SparseOk(g)
    ensures var r := Rotate(g);
            && WindowOk(r) && SparseOk(r) && r.nrPages == g.nrPages
            && g.minSeq <= r.minSeq && g.maxSeq <= r.maxSeq
            && (AgingNeeded(g) ==> IncMax(g).0 && r.maxSeq == g.maxSeq + 1 && r.minSeq == g.minSeq)
            && (r.minSeq != g.minSeq <==> g.maxSeq == g.minSeq + 3 && g.Pages(g.Slot(g.minSeq)) <= ALMOST_EMPTY)
  {
    if g.maxSeq == g.minSeq + 3 {
      assert g.Slot(g.maxSeq + 1) == g.Slot(g.minSeq);
    }
  }

  /** The slot drained, the slot promoted into, the youngest slot and (in a window of three)
      the slot outside the window are pairwise different. */
  lemma SlotsDistinct(g: Gen)
    requires WindowOk(g)
    ensures g.Slot(g.minSeq + 1) == (g.Slot(g.minSeq) + 1) % MAX_NR_GENS
    ensures g.Slot(g.minSeq) != g.Slot(g.minSeq + 1)
    ensures g.Slot(g.maxSeq) !in {g.Slot(g.minSeq), g.Slot(g.minSeq + 1)}
    ensures g.maxSeq == g.minSeq + 2 ==>
              g.Slot(g.maxSeq + 1) !in {g.Slot(g.minSeq), g.Slot(g.minSeq + 1), g.Slot(g.maxSeq)}
    ensures g.Slot(g.maxSeq - 1) != g.Slot(g.maxSeq)
    ensures g.maxSeq == g.minSeq + 2 ==> g.Slot(g.maxSeq - 1) != g.Slot(g.maxSeq + 1)
  {
  }

  // ---------------------------------------------------------------- the record in memory

  /** struct mglru_global_metadata: sequence numbers and counter arrays, updated in place. */
  class LruGen {
    var minSeq: nat
    var maxSeq: nat
    const nrPages: array<int>
    const refaulted: array<nat>
    const evicted: array<nat>
    const protect: array<nat>
    const avgRefaulted: array<nat>
    const avgTotal: array<nat>

    ghost function Cells(): set<object> {
      {this, nrPages, refaulted, evicted, protect, avgRefaulted, avgTotal}
    }

    ghost predicate Valid() {
      && nrPages.Length == MAX_NR_GENS
      && refaulted.Length == evicted.Length == avgRefaulted.Length == avgTotal.Length == MAX_NR_TIERS
      && protect.Length == MAX_NR_TIERS - 1
      && refaulted != evicted && refaulted != protect && refaulted != avgRefaulted && refaulted != avgTotal
      && evicted != protect && evicted != avgRefaulted && evicted != avgTotal
      && avgRefaulted != avgTotal && avgRefaulted != protect && avgTotal != protect
    }

    ghost function CtrlView(): Ctrl
      reads Cells()
    {
      Ctrl(refaulted[..], evicted[..], protect[..], avgRefaulted[..], avgTotal[..])
    }

    ghost function View(): Gen
      reads Cells()
    {
      Gen(minSeq, maxSeq, nrPages[..], CtrlView())
    }

    /** mglru_init: the zeroed record, with a full window of four generations. */
    constructor ()
      ensures Valid() && fresh(Cells())
      ensures View() == Gen(0, MIN_NR_GENS + 1, [0, 0, 0, 0],
                            Ctrl([0, 0, 0, 0], [0, 0, 0, 0], [0, 0, 0], [0, 0, 0, 0], [0, 0, 0, 0]))
    {
      minSeq, maxSeq := 0, MIN_NR_GENS + 1;
      nrPages := new int[MAX_NR_GENS](_ => 0);
      refaulted := new nat[MAX_NR_TIERS](_ => 0);
      evicted := new nat[MAX_NR_TIERS](_ => 0);
      protect := new nat[MAX_NR_TIERS - 1](_ => 0);
      avgRefaulted := new nat[MAX_NR_TIERS](_ => 0);
      avgTotal := new nat[MAX_NR_TIERS](_ => 0);
      new;
      assert nrPages[..] == [0, 0, 0, 0] && protect[..] == [0, 0, 0];
      assert refaulted[..] == evicted[..] == avgRefaulted[..] == avgTotal[..] == [0, 0, 0, 0];
    }

    method ReadCtrlPos(tier: nat, gain: nat) returns (pos: CtrlPos)
      requires Valid() && tier < MAX_NR_TIERS
      ensures pos == Reading(CtrlView(), tier, gain)
    {
      var r := avgRefaulted[tier] + refaulted[tier];
      var total := avgTotal[tier] + evicted[tier];
      if tier > 0 {
        total := total + protect[tier - 1];
      }
      pos := CtrlPos(r, total, gain);
    }

    /** Without carry-over nothing happens (one history generation is kept); with it every
        reading is halved. */
    method ResetCtrlPos(carryover: bool)
      requires Valid()
      modifies refaulted, evicted, protect, avgRefaulted, avgTotal
      ensures CtrlView() == if carryover then Halved(old(CtrlView())) else old(CtrlView())
    {
      if !carryover {
        return;
      }
      ghost var c := CtrlView();
      for tier := 0 to MAX_NR_TIERS
        invariant HalvedBelow(c, tier)
      {
        HalveTier(tier, c);
      }
    }

    /** Tiers below n are reset, the others as in c. */
    ghost predicate HalvedBelow(c: Ctrl, n: nat)
      requires Valid() && c.Shaped() && n <= MAX_NR_TIERS
      reads Cells()
    {
      && (forall t :: 0 <= t < MAX_NR_TIERS ==> refaulted[t] == if t < n then 0 else c.refaulted[t])
      && (forall t :: 0 <= t < MAX_NR_TIERS ==> evicted[t] == if t < n then 0 else c.evicted[t])
      && (forall t :: 0 <= t < MAX_NR_TIERS ==>
            avgRefaulted[t] == if t < n then Reading(c, t, 1).refaulted / 2 else c.avgRefaulted[t])
      && (forall t :: 0 <= t < MAX_NR_TIERS ==>
            avgTotal[t] == if t < n then Reading(c, t, 1).total / 2 else c.avgTotal[t])
      && (forall j :: 0 <= j < MAX_NR_TIERS - 1 ==> protect[j] == if j + 1 < n then 0 else c.protect[j])
    }

    method HalveTier(tier: nat, ghost c: Ctrl)
      requires Valid() && c.Shaped() && tier < MAX_NR_TIERS && HalvedBelow(c, tier)
      modifies refaulted, evicted, protect, avgRefaulted, avgTotal
      ensures HalvedBelow(c, tier + 1)
    {
      avgRefaulted[tier] := (avgRefaulted[tier] + refaulted[tier]) / 2;
      var sum := avgTotal[tier] + evicted[tier];
      if tier > 0 {
        sum := sum + protect[tier - 1];
      }
      avgTotal[tier] := sum / 2;
      refaulted[tier] := 0;
      evicted[tier] := 0;
      if tier > 0 {
        protect[tier - 1] := 0;
      }
    }

    /** Scan tiers upwards until one refaults too much. */
    method GetTierIdx() returns (r: nat)
      requires Valid()
      ensures LongestPassingPrefix(CtrlView(), r)
      ensures r < MAX_NR_TIERS && forall t :: 1 <= t <= r ==> !Exceeds(CtrlView(), t)
      ensures r + 1 < MAX_NR_TIERS ==> Exceeds(CtrlView(), r + 1)
    {
      hide Exceeds;
      ghost var c := CtrlView();
      var sp := ReadCtrlPos(0, 1);
      var tier := 1;
      while tier < MAX_NR_TIERS
        invariant 1 <= tier <= MAX_NR_TIERS
        invariant c == CtrlView()
        invariant forall t :: 1 <= t < tier ==> TierPasses(c, t)
      {
        var pv := ReadCtrlPos(tier, 2);
        assert TierPasses(c, tier) == PositiveCtrlErr(sp, pv);
        if !PositiveCtrlErr(sp, pv) {
          break;
        }
        tier := tier + 1;
      }
      r := tier - 1;
      ThresholdExactly(c, r);
    }

    method ShouldRunAging() returns (aging: bool)
      requires Valid()
      ensures aging == AgingNeeded(View())
    {
      if minSeq + MIN_NR_GENS > maxSeq {
        return true;
      }
      var old_, young, total := 0, 0, 0;
      var maxIter := if MAX_NR_GENS < maxSeq - minSeq then MAX_NR_GENS else maxSeq - minSeq;
      ghost var v := View();
      for i := 0 to maxIter
        invariant young == 0
        invariant maxSeq == minSeq + 2 && i >= 1 ==> old_ == v.Pages(v.Slot(minSeq))
        invariant maxSeq == minSeq + 2 && i == 0 ==> old_ == 0 && total == 0
        invariant maxSeq == minSeq + 2 && i == 1 ==> total == v.Pages(v.Slot(minSeq))
        invariant maxSeq == minSeq + 2 && i == 2 ==> total == v.Pages(v.Slot(minSeq)) + v.Pages(v.Slot(minSeq + 1))
        invariant total >= 0
      {
        var s := minSeq + i;
        var pages := nrPages[s % MAX_NR_GENS];
        var size := if pages < 0 then 0 else pages;
        total := total + size;
        if s == maxSeq {
          young := young + size;
        } else if s + MIN_NR_GENS == maxSeq {
          old_ := old_ + size;
        }
      }
      if minSeq + MIN_NR_GENS < maxSeq {
        return false;
      }
      return young * MIN_NR_GENS > total || old_ * (MIN_NR_GENS + 2) < total;
    }

    method TryToIncMinSeq() returns (ok: bool)
      requires Valid()
      modifies Cells()
      ensures (ok, View()) == IncMin(old(View()))
    {
      var pages := nrPages[minSeq % MAX_NR_GENS];
      if pages > ALMOST_EMPTY {
        return false;
      }
      minSeq := minSeq + 1;
      ResetCtrlPos(true);
      return true;
    }

    method TryToIncMaxSeq() returns (ok: bool)
      requires Valid()
      modifies Cells()
      ensures (ok, View()) == IncMax(old(View()))
    {
      if maxSeq - minSeq + 1 == MAX_NR_GENS {
        var retired := TryToIncMinSeq();
        if !retired {
          return false;
        }
      }
      ResetCtrlPos(false);
      maxSeq := maxSeq + 1;
      return true;
    }

    /** The part of evict_folios that runs under the lock. */
    method AgeAndRetire()
      requires Valid()
      modifies Cells()
      ensures View() == Rotate(old(View()))
    {
      var min0, max0 := minSeq, maxSeq;
      var aging := ShouldRunAging();
      if aging {
        var _ := TryToIncMaxSeq();
      }
      if USub(max0, min0) > MIN_NR_GENS {
        var _ := TryToIncMinSeq();
      }
    }
  }
}
