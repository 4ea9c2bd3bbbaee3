/** The S3-FIFO policy as a state machine: a small and a main list, frequencies, approximate
    list sizes and a ghost set; what every run keeps, how far the sizes can drift, and why
    eviction from the main list is complete. */
module S3Fifo {
  import opened Lists
  import opened PageCache

  datatype FolioMeta = FolioMeta(freq: int, inMain: bool)

  /** Events that let the sizes drift, counted since the start of the run: insertions counted
      but not made, ineligible folios moved without being flagged, evictions of such folios,
      moves never counted because the iteration reported failure, and what the resets of negative
      sizes added to them. No hook reads them. */
  datatype Drift = Drift(lostSmall: nat, lostMain: nat, strayed: nat, straysEvicted: nat, uncounted: nat,
                         resetSmall: nat, resetMain: nat)

  datatype State = State(meta: map<Folio, FolioMeta>, small: seq<Folio>, main: seq<Folio>,
                         ghosts: set<PageKey>, smallSize: int, mainSize: int,
                         resident: map<Folio, PageKey>, admitted: set<Folio>, drift: Drift)

  // ---------------------------------------------------------------- hooks on one folio

  /** folio_added: a page remembered as evicted starts in the main list. The size is counted
      first and not taken back when an insertion fails. */
  ghost function Added(s: State, f: Folio, k: PageKey, relevant: bool, listOk: bool, metaOk: bool): State {
    var s1 := s.(resident := s.resident[f := k]);
    if !relevant then s1
    else
      var toMain := k in s.ghosts;
      var inserted := listOk && metaOk;
      var s2 := s1.(ghosts := s.ghosts - {k}, admitted := s.admitted + {f},
                    mainSize := s.mainSize + (if toMain then 1 else 0),
                    smallSize := s.smallSize + (if toMain then 0 else 1));
      if !inserted then
        s2.(drift := if toMain then s.drift.(lostMain := s.drift.lostMain + 1)
                     else s.drift.(lostSmall := s.drift.lostSmall + 1))
      else if toMain then s2.(main := s.main + [f], meta := s.meta[f := FolioMeta(0, true)])
      else s2.(small := s.small + [f], meta := s.meta[f := FolioMeta(0, false)])
  }

  function Capped(freq: int): int {
    if freq + 1 > 3 then 3 else freq + 1
  }

  ghost function Accessed(s: State, f: Folio, relevant: bool): State {
    if !relevant || f !in s.meta then s
    else s.(meta := s.meta[f := s.meta[f].(freq := Capped(s.meta[f].freq))])
  }

  /** folio_evicted, with no relevance check; then the kernel drops the folio. */
  ghost function Evicted(s: State, f: Folio, ghostOk: bool): State
    requires f in s.resident
  {
    var s1 := s.(ghosts := if ghostOk then s.ghosts + {s.resident[f]} else s.ghosts,
                 resident := s.resident - {f}, admitted := s.admitted - {f},
                 small := Without(s.small, f), main := Without(s.main, f));
    if f !in s.meta then s1
    else
      s1.(meta := s.meta - {f},
          mainSize := s.mainSize - (if s.meta[f].inMain then 1 else 0),
          smallSize := s.smallSize - (if s.meta[f].inMain then 0 else 1),
          drift := if !s.meta[f].inMain && f in s.main
                   then s.drift.(straysEvicted := s.drift.straysEvicted + 1) else s.drift)
  }

  ghost function GhostDropped(s: State, k: PageKey): State {
    s.(ghosts := s.ghosts - {k})
  }

  // ---------------------------------------------------------------- eviction from the small list

  datatype SmallScan = SmallScan(s: State, selected: seq<Folio>, moved: nat)

  /** One node of the small list: an eligible folio used at most once is chosen; every other
      goes to the main list, flagged only if it earned it. */
  ghost function SmallVisit(sc: SmallScan, f: Folio, eligible: set<Folio>, request: nat): SmallScan {
    var s := sc.s;
    if |sc.selected| >= request || f !in s.small then sc
    else
      var toMain := s.(small := Without(s.small, f), main := s.main + [f]);
      if f !in eligible || f !in s.meta then
        SmallScan(toMain.(drift := s.drift.(strayed := s.drift.strayed + 1)), sc.selected, sc.moved + 1)
      else if s.meta[f].freq > 1 then
        SmallScan(toMain.(meta := s.meta[f := s.meta[f].(inMain := true)]), sc.selected, sc.moved + 1)
      else
        SmallScan(s.(small := Without(s.small, f) + [f]), sc.selected + [f], sc.moved)
  }

  ghost function SmallPass(sc: SmallScan, visits: seq<Folio>, eligible: set<Folio>, request: nat): SmallScan
    decreases |visits|
  {
    if visits == [] then sc
    else SmallVisit(SmallPass(sc, visits[..|visits| - 1], eligible, request), visits[|visits| - 1], eligible, request)
  }

  /** The sizes follow the reported number of moves; a size found negative is reset. */
  ghost function CountMoves(s: State, moved: nat): State {
    s.(smallSize := if s.smallSize < 0 then 0 else s.smallSize - moved,
       mainSize := if s.mainSize < 0 then moved else s.mainSize + moved,
       drift := s.drift.(resetSmall := s.drift.resetSmall + (if s.smallSize < 0 then moved - s.smallSize else 0),
                         resetMain := s.drift.resetMain + (if s.mainSize < 0 then -s.mainSize else 0)))
  }

  ghost function EvictSmall(s: State, request: nat, visits: seq<Folio>, eligible: set<Folio>, ok: bool): State {
    var sc := SmallPass(SmallScan(s, [], 0), visits, eligible, request);
    if ok then CountMoves(sc.s, sc.moved)
    else sc.s.(drift := sc.s.drift.(uncounted := sc.s.drift.uncounted + sc.moved))
  }

  // ---------------------------------------------------------------- eviction from the main list

  datatype MainScan = MainScan(meta: map<Folio, FolioMeta>, main: seq<Folio>, selected: seq<Folio>)

  /** One node of the main list in pass id: an eligible folio loses one use, and is chosen if
      fewer than id are left. Either way the node goes to the tail. */
  ghost function MainVisit(sc: MainScan, f: Folio, eligible: set<Folio>, id: nat, request: nat): MainScan {
    if |sc.selected| >= request || f !in sc.main then sc
    else
      var rotated := Without(sc.main, f) + [f];
      if f !in eligible || f !in sc.meta then MainScan(sc.meta, rotated, sc.selected)
      else
        var left := sc.meta[f].freq - 1;
        MainScan(sc.meta[f := sc.meta[f].(freq := left)], rotated,
                 if left < id then sc.selected + [f] else sc.selected)
  }

  ghost function MainPass(sc: MainScan, order: seq<Folio>, eligible: set<Folio>, id: nat, request: nat): MainScan
    decreases |order|
  {
    if order == [] then sc
    else MainVisit(MainPass(sc, order[..|order| - 1], eligible, id, request), order[|order| - 1], eligible, id, request)
  }

  /** Passes 0 .. n-1 with rising thresholds, each over its own visiting order; passes do
      nothing once the request is full. */
  ghost function MainPasses(sc: MainScan, orders: seq<seq<Folio>>, eligible: set<Folio>, request: nat, n: nat): MainScan
    requires n <= |orders|
  {
    if n == 0 then sc
    else MainPass(MainPasses(sc, orders, eligible, request, n - 1), orders[n - 1], eligible, n - 1, request)
  }

  const PASSES: nat := 4

  ghost function EvictMain(s: State, request: nat, orders: seq<seq<Folio>>, eligible: set<Folio>, n: nat): State
    requires n <= |orders|
  {
    var sc := MainPasses(MainScan(s.meta, s.main, []), orders, eligible, request, n);
    s.(meta := sc.meta, main := sc.main)
  }

  /** A signed size compared as an unsigned 64-bit one. */
  function AsU64(x: int): nat {
    x % 0x1_0000_0000_0000_0000
  }

  predicate FromSmall(smallSize: int, mainSize: int, cacheSize: nat) {
    AsU64(smallSize) >= cacheSize / 15 || mainSize <= 2 * smallSize
  }

  // ---------------------------------------------------------------- runs

  /** What the kernel does during one eviction call: the nodes it shows, which of them are
      eligible, how many main passes run to their end without reporting failure, and whether
      the small iteration succeeds. */
  datatype Iteration = Iteration(visits: seq<Folio>, orders: seq<seq<Folio>>, passes: nat,
                                 eligible: set<Folio>, ok: bool)

  datatype Event =
    | FolioAdded(folio: Folio, key: PageKey, relevant: bool, listOk: bool, metaOk: bool)
    | FolioAccessed(folio: Folio, relevant: bool)
    | FolioEvicted(folio: Folio, ghostOk: bool)
    | GhostDrop(key: PageKey)
    | Evict(request: nat, it: Iteration)

  ghost function EvictFolios(s: State, cacheSize: nat, request: nat, it: Iteration): State
    requires it.passes <= |it.orders|
  {
    if FromSmall(s.smallSize, s.mainSize, cacheSize)
    then EvictSmall(s, request, it.visits, it.eligible, it.ok)
    else EvictMain(s, request, it.orders, it.eligible, it.passes)
  }

  function Init(): State {
    State(map[], [], [], {}, 0, 0, map[], {}, Drift(0, 0, 0, 0, 0, 0, 0))
  }

  ghost predicate Enabled(s: State, e: Event) {
    match e
    case FolioAdded(f, k, _, _, _) => f !in s.resident && forall g :: g in s.resident ==> s.resident[g] != k
    case FolioAccessed(f, _) => f in s.resident
    case FolioEvicted(f, _) => f in s.resident
    case GhostDrop(_) => true
    case Evict(_, it) => |it.orders| == PASSES && it.passes <= PASSES
  }

  ghost function Next(cacheSize: nat, s: State, e: Event): State
    requires Enabled(s, e)
  {
    match e
    case FolioAdded(f, k, relevant, listOk, metaOk) => Added(s, f, k, relevant, listOk, metaOk)
    case FolioAccessed(f, relevant) => Accessed(s, f, relevant)
    case FolioEvicted(f, ghostOk) => Evicted(s, f, ghostOk)
    case GhostDrop(k) => GhostDropped(s, k)
    case Evict(request, it) => EvictFolios(s, cacheSize, request, it)
  }

  ghost predicate Reaches(cacheSize: nat, es: seq<Event>, s: State)
    decreases |es|
  {
    if es == [] then s == Init()
    else
      var n := |es| - 1;
      exists before :: Reaches(cacheSize, es[..n], before) && Enabled(before, es[n])
                       && s == Next(cacheSize, before, es[n])
  }

  // ---------------------------------------------------------------- the invariant

  /** Every tracked folio is on exactly one list, once, and only tracked folios are. */
  ghost predicate ListsOk(small: seq<Folio>, main: seq<Folio>, meta: map<Folio, FolioMeta>) {
    && NoDup(small) && NoDup(main)
    && (forall f :: f in small ==> f !in main)
    && (forall f :: f in meta <==> f in small || f in main)
  }

  /** Frequencies never exceed 3, and no folio of the small list is flagged. */
  ghost predicate MetaOk(small: seq<Folio>, meta: map<Folio, FolioMeta>) {
    && (forall f :: f in meta ==> meta[f].freq <= 3)
    && (forall f :: f in small && f in meta ==> !meta[f].inMain)
  }

  ghost predicate KernelOk(s: State) {
    && (forall f :: f in s.meta ==> f in s.admitted)
    && (forall f :: f in s.admitted ==> f in s.resident)
    && (forall f, g :: f in s.resident && g in s.resident && s.resident[f] == s.resident[g] ==> f == g)
  }

  /** No page that entered while watched is both resident and remembered as evicted. */
  ghost predicate GhostsOk(s: State) {
    forall f :: f in s.admitted && f in s.resident ==> s.resident[f] !in s.ghosts
  }

  /** The sizes miss the list lengths by exactly the events counted in the drift. */
  ghost predicate SizesOk(small: int, main: int, smallSize: int, mainSize: int, d: Drift) {
    && smallSize == small + d.lostSmall + d.uncounted - d.straysEvicted + d.resetSmall
    && mainSize == main + d.lostMain - d.uncounted + d.straysEvicted + d.resetMain
  }

  /** The strays still in the main list: folios there that are not flagged. */
  ghost function Strays(main: seq<Folio>, meta: map<Folio, FolioMeta>): set<Folio> {
    set f | f in main && f in meta && !meta[f].inMain
  }

  /** Every stray is still in the main list or was evicted; and without strays and uncounted
      moves no size is ever negative. */
  ghost predicate StraysOk(main: seq<Folio>, meta: map<Folio, FolioMeta>, d: Drift) {
    && |Strays(main, meta)| == d.strayed - d.straysEvicted
    && (d.strayed == 0 && d.uncounted == 0 ==> d.resetSmall == 0 && d.resetMain == 0)
  }

  ghost predicate Inv(s: State) {
    && ListsOk(s.small, s.main, s.meta)
    && MetaOk(s.small, s.meta)
    && KernelOk(s)
    && GhostsOk(s)
    && SizesOk(|s.small|, |s.main|, s.smallSize, s.mainSize, s.drift)
    && StraysOk(s.main, s.meta, s.drift)
  }

  // ---------------------------------------------------------------- preservation

  lemma StraysAfterAdd(main: seq<Folio>, meta: map<Folio, FolioMeta>, f: Folio)
    requires f !in meta && f !in main
    ensures Strays(main, meta[f := FolioMeta(0, false)]) == Strays(main, meta)
    ensures Strays(main + [f], meta[f := FolioMeta(0, true)]) == Strays(main, meta)
  {
  }

  lemma StraysAfterAccess(main: seq<Folio>, meta: map<Folio, FolioMeta>, f: Folio, freq: int)
    requires f in meta
    ensures Strays(main, meta[f := meta[f].(freq := freq)]) == Strays(main, meta)
  {
  }

  lemma StraysAfterEvict(main: seq<Folio>, meta: map<Folio, FolioMeta>, f: Folio)
    ensures |Strays(Without(main, f), meta - {f})| == |Strays(main, meta)| - (if f in Strays(main, meta) then 1 else 0)
  {
    assert Strays(Without(main, f), meta - {f}) == Strays(main, meta) - {f};
  }

  lemma StraysAfterMove(small: seq<Folio>, main: seq<Folio>, meta: map<Folio, FolioMeta>, f: Folio)
    requires ListsOk(small, main, meta) && MetaOk(small, meta) && f in small
    ensures |Strays(main + [f], meta)| == |Strays(main, meta)| + 1
    ensures Strays(main + [f], meta[f := meta[f].(inMain := true)]) == Strays(main, meta)
  {
    assert f !in Strays(main, meta);
    assert Strays(main + [f], meta) == Strays(main, meta) + {f};
  }

  lemma AddedLists(s: State, f: Folio, m: FolioMeta)
    requires ListsOk(s.small, s.main, s.meta) && f !in s.meta
    ensures ListsOk(s.small + [f], s.main, s.meta[f := m]) && ListsOk(s.small, s.main + [f], s.meta[f := m])
  {
    AppendNoDup(s.small, f);
    AppendNoDup(s.main, f);
  }

  lemma AddedKeeps(s: State, f: Folio, k: PageKey, relevant: bool, listOk: bool, metaOk: bool)
    requires Inv(s) && f !in s.resident && forall g :: g in s.resident ==> s.resident[g] != k
    ensures Inv(Added(s, f, k, relevant, listOk, metaOk))
  {
    assert f !in s.meta && f !in s.main;
    StraysAfterAdd(s.main, s.meta, f);
    AddedLists(s, f, FolioMeta(0, k in s.ghosts));
  }

  lemma AccessedKeeps(s: State, f: Folio, relevant: bool)
    requires Inv(s)
    ensures Inv(Accessed(s, f, relevant))
  {
    if f in s.meta {
      StraysAfterAccess(s.main, s.meta, f, Capped(s.meta[f].freq));
    }
  }

  lemma EvictedLists(s: State, f: Folio)
    requires ListsOk(s.small, s.main, s.meta)
    ensures ListsOk(Without(s.small, f), Without(s.main, f), s.meta - {f})
    ensures |Without(s.small, f)| == |s.small| - (if f in s.small then 1 else 0)
    ensures |Without(s.main, f)| == |s.main| - (if f in s.main then 1 else 0)
  {
    WithoutNoDup(s.small, f);
    WithoutNoDup(s.main, f);
  }

  lemma EvictedKeeps(s: State, f: Folio, ghostOk: bool)
    requires Inv(s) && f in s.resident
    ensures Inv(Evicted(s, f, ghostOk))
  {
    EvictedLists(s, f);
    StraysAfterEvict(s.main, s.meta, f);
    if f !in s.meta {
      assert s.meta - {f} == s.meta;
    }
  }

  lemma MovedLists(s: State, f: Folio, m: FolioMeta)
    requires ListsOk(s.small, s.main, s.meta) && f in s.small
    ensures ListsOk(Without(s.small, f), s.main + [f], s.meta)
    ensures ListsOk(Without(s.small, f), s.main + [f], s.meta[f := m])
    ensures |Without(s.small, f)| == |s.small| - 1
    ensures ListsOk(Without(s.small, f) + [f], s.main, s.meta)
  {
    WithoutNoDup(s.small, f);
    AppendNoDup(s.main, f);
    AppendNoDup(Without(s.small, f), f);
  }

  /** During the scan everything holds, with the moves so far not yet counted. */
  ghost predicate ScanInv(sc: SmallScan) {
    && ListsOk(sc.s.small, sc.s.main, sc.s.meta)
    && MetaOk(sc.s.small, sc.s.meta)
    && KernelOk(sc.s)
    && GhostsOk(sc.s)
    && SizesOk(|sc.s.small| + sc.moved, |sc.s.main| - sc.moved, sc.s.smallSize, sc.s.mainSize, sc.s.drift)
    && StraysOk(sc.s.main, sc.s.meta, sc.s.drift)
    && sc.moved <= |sc.s.main|
  }

  lemma StrayKeeps(sc: SmallScan, f: Folio)
    requires ScanInv(sc) && f in sc.s.small && f in sc.s.meta
    ensures var s := sc.s;
            ScanInv(SmallScan(s.(small := Without(s.small, f), main := s.main + [f],
                                 drift := s.drift.(strayed := s.drift.strayed + 1)), sc.selected, sc.moved + 1))
  {
    MovedLists(sc.s, f, sc.s.meta[f]);
    StraysAfterMove(sc.s.small, sc.s.main, sc.s.meta, f);
  }

  lemma EarnedKeeps(sc: SmallScan, f: Folio)
    requires ScanInv(sc) && f in sc.s.small && f in sc.s.meta
    ensures var s := sc.s;
            ScanInv(SmallScan(s.(small := Without(s.small, f), main := s.main + [f],
                                 meta := s.meta[f := s.meta[f].(inMain := true)]), sc.selected, sc.moved + 1))
  {
    MovedLists(sc.s, f, sc.s.meta[f].(inMain := true));
    StraysAfterMove(sc.s.small, sc.s.main, sc.s.meta, f);
    EarnedFlags(sc.s.small, sc.s.meta, f);
  }

  lemma EarnedFlags(small: seq<Folio>, meta: map<Folio, FolioMeta>, f: Folio)
    requires MetaOk(small, meta) && f in small && f in meta
    ensures MetaOk(Without(small, f), meta[f := meta[f].(inMain := true)])
  {
  }

  lemma SmallVisitKeeps(sc: SmallScan, f: Folio, eligible: set<Folio>, request: nat)
    requires ScanInv(sc)
    ensures ScanInv(SmallVisit(sc, f, eligible, request))
  {
    if |sc.selected| < request && f in sc.s.small {
      assert f in sc.s.meta;
      if f !in eligible {
        StrayKeeps(sc, f);
      } else if sc.s.meta[f].freq > 1 {
        EarnedKeeps(sc, f);
      } else {
        MovedLists(sc.s, f, sc.s.meta[f]);
      }
    }
  }

  lemma {:induction false} SmallPassKeeps(sc: SmallScan, visits: seq<Folio>, eligible: set<Folio>, request: nat)
    requires ScanInv(sc)
    ensures ScanInv(SmallPass(sc, visits, eligible, request))
    decreases |visits|
  {
    if visits != [] {
      var n := |visits| - 1;
      SmallPassKeeps(sc, visits[..n], eligible, request);
      SmallVisitKeeps(SmallPass(sc, visits[..n], eligible, request), visits[n], eligible, request);
    }
  }

  lemma EvictSmallKeeps(s: State, request: nat, visits: seq<Folio>, eligible: set<Folio>, ok: bool)
    requires Inv(s)
    ensures Inv(EvictSmall(s, request, visits, eligible, ok))
  {
    SmallPassKeeps(SmallScan(s, [], 0), visits, eligible, request);
  }

  /** What a main scan may change: it lowers frequencies and reorders the list. */
  ghost predicate Lowered(sc: MainScan, sc': MainScan) {
    && sc'.meta.Keys == sc.meta.Keys
    && (forall f :: f in sc.meta ==> sc'.meta[f].inMain == sc.meta[f].inMain && sc'.meta[f].freq <= sc.meta[f].freq)
    && NoDup(sc'.main) && |sc'.main| == |sc.main|
    && (forall f :: f in sc'.main <==> f in sc.main)
    && |sc.selected| <= |sc'.selected| && sc'.selected[..|sc.selected|] == sc.selected
  }

  lemma MainVisitLowers(sc: MainScan, f: Folio, eligible: set<Folio>, id: nat, request: nat)
    requires NoDup(sc.main)
    ensures Lowered(sc, MainVisit(sc, f, eligible, id, request))
  {
    if f in sc.main {
      WithoutNoDup(sc.main, f);
      AppendNoDup(Without(sc.main, f), f);
    }
  }

  lemma LoweredTrans(a: MainScan, b: MainScan, c: MainScan)
    requires Lowered(a, b) && Lowered(b, c)
    ensures Lowered(a, c)
  {
    assert c.selected[..|a.selected|] == b.selected[..|a.selected|] by {
      assert c.selected[..|b.selected|][..|a.selected|] == c.selected[..|a.selected|];
    }
  }

  lemma {:induction false} MainPassLowers(sc: MainScan, order: seq<Folio>, eligible: set<Folio>, id: nat, request: nat)
    requires NoDup(sc.main)
    ensures Lowered(sc, MainPass(sc, order, eligible, id, request))
    decreases |order|
  {
    if order != [] {
      var n := |order| - 1;
      MainPassLowers(sc, order[..n], eligible, id, request);
      var mid := MainPass(sc, order[..n], eligible, id, request);
      MainVisitLowers(mid, order[n], eligible, id, request);
      LoweredTrans(sc, mid, MainPass(sc, order, eligible, id, request));
    }
  }

  lemma {:induction false} MainPassesLower(sc: MainScan, orders: seq<seq<Folio>>, eligible: set<Folio>,
                                           request: nat, n: nat)
    requires NoDup(sc.main) && n <= |orders|
    ensures Lowered(sc, MainPasses(sc, orders, eligible, request, n))
  {
    if n > 0 {
      MainPassesLower(sc, orders, eligible, request, n - 1);
      var mid := MainPasses(sc, orders, eligible, request, n - 1);
      MainPassLowers(mid, orders[n - 1], eligible, n - 1, request);
      LoweredTrans(sc, mid, MainPasses(sc, orders, eligible, request, n));
    }
  }

  lemma EvictMainKeeps(s: State, request: nat, orders: seq<seq<Folio>>, eligible: set<Folio>, n: nat)
    requires Inv(s) && n <= |orders|
    ensures Inv(EvictMain(s, request, orders, eligible, n))
  {
    var sc := MainScan(s.meta, s.main, []);
    MainPassesLower(sc, orders, eligible, request, n);
    var r := MainPasses(sc, orders, eligible, request, n);
    assert Strays(r.main, r.meta) == Strays(s.main, s.meta);
  }

  lemma StepKeeps(cacheSize: nat, s: State, e: Event)
    requires Inv(s) && Enabled(s, e)
    ensures Inv(Next(cacheSize, s, e))
  {
    match e
    case FolioAdded(f, k, relevant, listOk, metaOk) => AddedKeeps(s, f, k, relevant, listOk, metaOk);
    case FolioAccessed(f, relevant) => AccessedKeeps(s, f, relevant);
    case FolioEvicted(f, ghostOk) => EvictedKeeps(s, f, ghostOk);
    case GhostDrop(k) =>
    case Evict(request, it) =>
      EvictSmallKeeps(s, request, it.visits, it.eligible, it.ok);
      EvictMainKeeps(s, request, it.orders, it.eligible, it.passes);
  }

  lemma {:induction false} RunsKeepInv(cacheSize: nat, es: seq<Event>, s: State)
    requires Reaches(cacheSize, es, s)
    ensures Inv(s)
    decreases |es|
  {
    if es != [] {
      var n := |es| - 1;
      var before :| Reaches(cacheSize, es[..n], before) && Enabled(before, es[n])
                    && s == Next(cacheSize, before, es[n]);
      RunsKeepInv(cacheSize, es[..n], before);
      StepKeeps(cacheSize, before, es[n]);
    }
  }

  // ---------------------------------------------------------------- what holds in every run

  ghost function Flagged(meta: map<Folio, FolioMeta>, inMain: bool): set<Folio> {
    set f | f in meta && meta[f].inMain == inMain
  }

  lemma FlagsAndLists(small: seq<Folio>, main: seq<Folio>, meta: map<Folio, FolioMeta>)
    requires ListsOk(small, main, meta) && MetaOk(small, meta)
    ensures |Flagged(meta, false)| == |small| + |Strays(main, meta)|
    ensures |Flagged(meta, true)| == |main| - |Strays(main, meta)|
  {
    ElemsSize(small);
    ElemsSize(main);
    assert Flagged(meta, false) == Elems(small) + Strays(main, meta);
    assert Elems(main) == Flagged(meta, true) + Strays(main, meta);
  }

  /** In every run each size is known exactly, against the lists and against the flags: it is off
      by the failed insertions, the moves never counted, the strays (those evicted, for the
      lists), and what resets of negative sizes added. */
  lemma SizesDrift(cacheSize: nat, es: seq<Event>, s: State)
    requires Reaches(cacheSize, es, s)
    ensures var d := s.drift;
            && s.smallSize == |s.small| + d.lostSmall + d.uncounted - d.straysEvicted + d.resetSmall
            && s.mainSize == |s.main| + d.lostMain - d.uncounted + d.straysEvicted + d.resetMain
            && s.smallSize == |Flagged(s.meta, false)| + d.lostSmall + d.uncounted - d.strayed + d.resetSmall
            && s.mainSize == |Flagged(s.meta, true)| + d.lostMain - d.uncounted + d.strayed + d.resetMain
            && s.smallSize + s.mainSize == |s.meta| + d.lostSmall + d.lostMain + d.resetSmall + d.resetMain
  {
    RunsKeepInv(cacheSize, es, s);
    FlagsAndLists(s.small, s.main, s.meta);
    ListsCover(s.small, s.main, s.meta);
  }

  /** In every run both sizes are the numbers of unflagged and flagged folios exactly when no
      insertion failed, no size was reset, and as many folios strayed as moves went uncounted;
      flag and list agree exactly when every stray has been evicted. If nothing strayed and every
      move was counted, no size was ever reset. */
  lemma SizesExactly(cacheSize: nat, es: seq<Event>, s: State)
    requires Reaches(cacheSize, es, s)
    ensures var d := s.drift;
            && (s.smallSize == |Flagged(s.meta, false)| && s.mainSize == |Flagged(s.meta, true)| <==>
                  d.lostSmall == d.lostMain == d.resetSmall == d.resetMain == 0 && d.strayed == d.uncounted)
            && ((forall f :: f in s.meta ==> (s.meta[f].inMain <==> f in s.main)) <==> d.strayed == d.straysEvicted)
            && (d.strayed == 0 && d.uncounted == 0 ==> d.resetSmall == 0 && d.resetMain == 0)
  {
    RunsKeepInv(cacheSize, es, s);
    SizesDrift(cacheSize, es, s);
    FlagsAgreeExactly(s);
  }

  lemma FlagsAgreeExactly(s: State)
    requires Inv(s)
    ensures (forall f :: f in s.meta ==> (s.meta[f].inMain <==> f in s.main))
       <==> s.drift.strayed == s.drift.straysEvicted
  {
    var strays := Strays(s.main, s.meta);
    if f :| f in strays {
      assert !s.meta[f].inMain && f in s.main;
    } else {
      assert strays == {};
      forall f | f in s.meta ensures s.meta[f].inMain <==> f in s.main {
        assert f !in strays;
      }
    }
  }

  lemma ListsCover(small: seq<Folio>, main: seq<Folio>, meta: map<Folio, FolioMeta>)
    requires ListsOk(small, main, meta)
    ensures |meta| == |small| + |main|
  {
    ElemsSize(small);
    ElemsSize(main);
    assert meta.Keys == Elems(small) + Elems(main);
    assert |meta| == |meta.Keys|;
  }

  /** In every run frequencies stay at most 3, every tracked folio is on exactly one list, and
      no page that entered while watched is both resident and remembered as evicted. */
  lemma RunsKeepPlaces(cacheSize: nat, es: seq<Event>, s: State)
    requires Reaches(cacheSize, es, s)
    ensures forall f :: f in s.meta ==> s.meta[f].freq <= 3 && (f in s.small <==> f !in s.main)
    ensures forall f :: f in s.meta ==> f in s.resident && s.resident[f] !in s.ghosts
    ensures forall f :: f in s.admitted ==> f in s.resident && s.resident[f] !in s.ghosts
  {
    RunsKeepInv(cacheSize, es, s);
  }

  lemma ReachesMore(cacheSize: nat, es: seq<Event>, s: State, e: Event)
    requires Reaches(cacheSize, es, s) && Enabled(s, e)
    ensures Reaches(cacheSize, es + [e], Next(cacheSize, s, e))
  {
    var all := es + [e];
    assert all[..|all| - 1] == es && all[|all| - 1] == e;
  }

  function Straying(f: Folio): Iteration {
    Iteration([f], [[], [], [], []], 0, {}, true)
  }

  /** A folio is added, strays because it cannot be evicted just then, and is evicted later. */
  function StrayEvents(f: Folio, k: PageKey, request: nat): seq<Event> {
    [FolioAdded(f, k, true, true, true), Evict(request, Straying(f)),
     FolioEvicted(f, true), Evict(request, Straying(f))]
  }

  /** The smallest run that drifts: in the end no folio is tracked, but the size of the main list
      says one, because the small list's size went negative and was reset. */
  lemma StrayRunDrifts(cacheSize: nat, f: Folio, k: PageKey, request: nat)
    requires cacheSize < 0x1_0000_0000_0000_0000 && request > 0
    ensures exists s :: && Reaches(cacheSize, StrayEvents(f, k, request), s)
                        && s.meta == map[] && s.smallSize == 0 && s.mainSize == 1
                        && s.drift == Drift(0, 0, 1, 1, 0, 1, 0)
  {
    var es := StrayEvents(f, k, request);
    var s1 := State(map[f := FolioMeta(0, false)], [f], [], {}, 1, 0, map[f := k], {f}, Drift(0, 0, 0, 0, 0, 0, 0));
    var s2 := State(s1.meta, [], [f], {}, 0, 1, map[f := k], {f}, Drift(0, 0, 1, 0, 0, 0, 0));
    var s3 := State(map[], [], [], {k}, -1, 1, map[], {}, Drift(0, 0, 1, 1, 0, 0, 0));
    var s4 := State(map[], [], [], {k}, 0, 1, map[], {}, Drift(0, 0, 1, 1, 0, 1, 0));
    StrayMoved(cacheSize, s1, f, request);
    StrayEvicted(cacheSize, s2, f, k);
    SizeReset(cacheSize, s3, f, request);
    assert Reaches(cacheSize, [], Init());
    hide Next;
    RunReaches(cacheSize, es, [Init(), s1, s2, s3, s4]);
  }

  ghost predicate StepOk(cacheSize: nat, es: seq<Event>, states: seq<State>, i: nat)
    requires i < |es| && |states| == |es| + 1
  {
    Enabled(states[i], es[i]) && states[i + 1] == Next(cacheSize, states[i], es[i])
  }

  /** A run given with all its states. */
  ghost predicate IsRun(cacheSize: nat, es: seq<Event>, states: seq<State>) {
    && |states| == |es| + 1 && states[0] == Init()
    && forall i :: 0 <= i < |es| ==> StepOk(cacheSize, es, states, i)
  }

  lemma {:induction false} RunReaches(cacheSize: nat, es: seq<Event>, states: seq<State>)
    requires IsRun(cacheSize, es, states)
    ensures Reaches(cacheSize, es, states[|es|])
    decreases |es|
  {
    hide Enabled, Next;
    if es != [] {
      var n := |es| - 1;
      var es', states' := es[..n], states[..n + 1];
      forall i | 0 <= i < n ensures StepOk(cacheSize, es', states', i) {
        assert StepOk(cacheSize, es, states, i);
      }
      RunReaches(cacheSize, es', states');
      assert StepOk(cacheSize, es, states, n);
    }
  }

  lemma StrayMoved(cacheSize: nat, s: State, f: Folio, request: nat)
    requires s.small == [f] && s.main == [] && s.smallSize == 1 && s.mainSize == 0 && request > 0
    ensures Next(cacheSize, s, Evict(request, Straying(f)))
         == s.(small := [], main := [f], smallSize := 0, mainSize := 1,
               drift := s.drift.(strayed := s.drift.strayed + 1))
  {
    StrayVisit(s, f, request);
    hide SmallPass, EvictMain;
  }

  lemma StrayEvicted(cacheSize: nat, s: State, f: Folio, k: PageKey)
    requires s == State(map[f := FolioMeta(0, false)], [], [f], {}, 0, 1, map[f := k], {f}, Drift(0, 0, 1, 0, 0, 0, 0))
    ensures Next(cacheSize, s, FolioEvicted(f, true))
         == State(map[], [], [], {k}, -1, 1, map[], {}, Drift(0, 0, 1, 1, 0, 0, 0))
  {
    assert Without([f], f) == [];
  }

  lemma SizeReset(cacheSize: nat, s: State, f: Folio, request: nat)
    requires cacheSize < 0x1_0000_0000_0000_0000 && s.small == [] && s.smallSize == -1 && s.mainSize == 1
    ensures Next(cacheSize, s, Evict(request, Straying(f)))
         == s.(smallSize := 0, drift := s.drift.(resetSmall := s.drift.resetSmall + 1))
  {
    NothingToVisit(s, f, request);
    hide SmallPass, EvictMain;
    assert AsU64(-1) == 0xFFFF_FFFF_FFFF_FFFF;
  }

  lemma StrayVisit(s: State, f: Folio, request: nat)
    requires s.small == [f] && s.main == [] && request > 0
    ensures SmallPass(SmallScan(s, [], 0), [f], {}, request)
         == SmallScan(s.(small := [], main := [f], drift := s.drift.(strayed := s.drift.strayed + 1)), [], 1)
  {
    assert [f][..0] == [];
    assert SmallPass(SmallScan(s, [], 0), [], {}, request) == SmallScan(s, [], 0);
  }

  lemma NothingToVisit(s: State, f: Folio, request: nat)
    requires s.small == []
    ensures SmallPass(SmallScan(s, [], 0), [f], {}, request) == SmallScan(s, [], 0)
  {
    assert [f][..0] == [];
    assert SmallPass(SmallScan(s, [], 0), [], {}, request) == SmallScan(s, [], 0);
  }

  // ---------------------------------------------------------------- completeness of main eviction

  ghost predicate Counted(sc: MainScan, eligible: set<Folio>, f: Folio) {
    f in eligible && f in sc.meta
  }

  /** A pass that did not fill the request took one use from every eligible node shown and
      chose exactly those left with fewer than id. */
  lemma {:induction false} PassVisitsAll(sc: MainScan, order: seq<Folio>, eligible: set<Folio>, id: nat, request: nat)
    requires NoDup(sc.main) && NoDup(order) && forall f :: f in order ==> f in sc.main
    requires |MainPass(sc, order, eligible, id, request).selected| < request
    ensures var r := MainPass(sc, order, eligible, id, request);
            && r.meta.Keys == sc.meta.Keys
            && (forall f :: f in sc.meta ==>
                  r.meta[f].freq == sc.meta[f].freq - (if f in order && f in eligible then 1 else 0))
            && (forall f :: f in r.selected <==>
                  f in sc.selected || (f in order && Counted(sc, eligible, f) && sc.meta[f].freq - 1 < id))
    decreases |order|
  {
    if order != [] {
      var n := |order| - 1;
      var mid := MainPass(sc, order[..n], eligible, id, request);
      MainPassLowers(sc, order[..n], eligible, id, request);
      MainVisitLowers(mid, order[n], eligible, id, request);
      PassVisitsAll(sc, order[..n], eligible, id, request);
      SplitLast(order);
    }
  }

  /** The pass in which a folio of frequency k is first chosen: half of k, rounded up. */
  function FirstPass(k: int): nat {
    if k <= 0 then 0 else (k + 1) / 2
  }

  /** After n full passes every eligible folio of the list has lost n uses, and the chosen
      ones are exactly the eligible ones whose first pass came up. */
  lemma {:induction false} PassesSelect(sc: MainScan, orders: seq<seq<Folio>>, eligible: set<Folio>,
                                        request: nat, n: nat)
    requires NoDup(sc.main) && n <= |orders| && sc.selected == []
    requires forall i :: 0 <= i < n ==> Covers(orders[i], sc.main)
    requires |MainPasses(sc, orders, eligible, request, n).selected| < request
    ensures var r := MainPasses(sc, orders, eligible, request, n);
            && r.meta.Keys == sc.meta.Keys
            && (forall f :: f in sc.meta ==>
                  r.meta[f].freq == sc.meta[f].freq - (if f in sc.main && f in eligible then n else 0))
            && (forall f :: f in r.selected <==>
                  f in sc.main && Counted(sc, eligible, f) && FirstPass(sc.meta[f].freq) < n)
  {
    hide MainPass, NoDup;
    if n > 0 {
      var mid := MainPasses(sc, orders, eligible, request, n - 1);
      MainPassesLower(sc, orders, eligible, request, n - 1);
      MainPassLowers(mid, orders[n - 1], eligible, n - 1, request);
      PassesSelect(sc, orders, eligible, request, n - 1);
      PassVisitsAll(mid, orders[n - 1], eligible, n - 1, request);
    }
  }

  /** If eviction from the main list ends short of the request, every eligible folio of the
      list was chosen, in every reachable state; the fourth pass never adds anyone. */
  lemma MainEvictionComplete(cacheSize: nat, es: seq<Event>, s: State, request: nat,
                             orders: seq<seq<Folio>>, eligible: set<Folio>)
    requires Reaches(cacheSize, es, s) && |orders| == PASSES
    requires forall i :: 0 <= i < PASSES ==> Covers(orders[i], s.main)
    requires |MainPasses(MainScan(s.meta, s.main, []), orders, eligible, request, PASSES).selected| < request
    ensures var sc := MainScan(s.meta, s.main, []);
            && (forall f :: f in s.main && f in eligible ==>
                  f in MainPasses(sc, orders, eligible, request, PASSES).selected)
            && (forall f :: f in MainPasses(sc, orders, eligible, request, PASSES).selected ==>
                  f in s.main && f in eligible && f in MainPasses(sc, orders, eligible, request, PASSES - 1).selected)
  {
    RunsKeepInv(cacheSize, es, s);
    var sc := MainScan(s.meta, s.main, []);
    FourPasses(sc, orders, eligible, request);
  }

  lemma FourPasses(sc: MainScan, orders: seq<seq<Folio>>, eligible: set<Folio>, request: nat)
    requires NoDup(sc.main) && |orders| == PASSES && sc.selected == []
    requires forall i :: 0 <= i < PASSES ==> Covers(orders[i], sc.main)
    requires forall f :: f in sc.meta ==> sc.meta[f].freq <= 3
    requires |MainPasses(sc, orders, eligible, request, PASSES).selected| < request
    ensures forall f :: f in sc.main && Counted(sc, eligible, f) ==>
              f in MainPasses(sc, orders, eligible, request, PASSES).selected
    ensures forall f :: f in MainPasses(sc, orders, eligible, request, PASSES).selected ==>
              f in sc.main && f in eligible && f in MainPasses(sc, orders, eligible, request, PASSES - 1).selected
  {
    PassesSelect(sc, orders, eligible, request, PASSES);
    var three := MainPasses(sc, orders, eligible, request, PASSES - 1);
    MainPassesLower(sc, orders, eligible, request, PASSES - 1);
    MainPassLowers(three, orders[PASSES - 1], eligible, PASSES - 1, request);
    PassesSelect(sc, orders, eligible, request, PASSES - 1);
  }
}
