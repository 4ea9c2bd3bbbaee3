/** What S3-FIFO makes of uses: frequencies count them, the small list keeps what was used at most
    once and passes on the rest, and a page evicted and not seen since starts in the main list. */
module S3FifoUses {
  import opened Lists
  import opened PageCache
  import opened S3Fifo

  function Min3(n: int): int {
    if n < 3 then n else 3
  }

  // ---------------------------------------------------------------- frequencies

  /** The relevant accesses of f since it was last added. */
  function UsesSince(es: seq<Event>, f: Folio): nat {
    if es == [] then 0
    else
      var earlier, e := UsesSince(es[..|es| - 1], f), es[|es| - 1];
      if e.FolioAdded? && e.folio == f then 0
      else if e.FolioAccessed? && e.folio == f && e.relevant then earlier + 1
      else earlier
  }

  /** The relevant accesses of f among the events. */
  function UsesIn(es: seq<Event>, f: Folio): nat {
    if es == [] then 0
    else UsesIn(es[..|es| - 1], f)
         + if es[|es| - 1].FolioAccessed? && es[|es| - 1].folio == f && es[|es| - 1].relevant then 1 else 0
  }

  /** An access never lowers a frequency, and raises it by one below 3. */
  lemma AccessRaises(s: State, f: Folio, g: Folio, relevant: bool)
    requires Inv(s) && g in s.meta
    ensures var now := Accessed(s, f, relevant).meta;
            && now.Keys == s.meta.Keys && s.meta[g].freq <= now[g].freq <= 3
            && (now[g].freq == s.meta[g].freq + 1 <==> f == g && relevant && s.meta[g].freq < 3)
            && (now[g].freq == s.meta[g].freq <==> f != g || !relevant || s.meta[g].freq == 3)
  {
  }

  lemma {:induction false} SmallPassKeepsFreq(sc: SmallScan, visits: seq<Folio>, eligible: set<Folio>, request: nat)
    ensures var r := SmallPass(sc, visits, eligible, request).s;
            && r.meta.Keys == sc.s.meta.Keys
            && (forall f :: f in r.meta ==> r.meta[f].freq == sc.s.meta[f].freq)
            && (forall f :: f in r.small ==> f in sc.s.small)
    decreases |visits|
  {
    hide SmallVisit;
    if visits != [] {
      var n := |visits| - 1;
      SmallPassKeepsFreq(sc, visits[..n], eligible, request);
      SmallVisitKeepsFreq(SmallPass(sc, visits[..n], eligible, request), visits[n], eligible, request);
    }
  }

  lemma SmallVisitKeepsFreq(sc: SmallScan, f: Folio, eligible: set<Folio>, request: nat)
    ensures var r := SmallVisit(sc, f, eligible, request).s;
            && r.meta.Keys == sc.s.meta.Keys
            && (forall g :: g in r.meta ==> r.meta[g].freq == sc.s.meta[g].freq)
            && (forall g :: g in r.small ==> g in sc.s.small)
  {
  }

  lemma {:induction false} MainPassKeepsOthers(sc: MainScan, order: seq<Folio>, eligible: set<Folio>, id: nat,
                                               request: nat)
    requires NoDup(sc.main)
    ensures var r := MainPass(sc, order, eligible, id, request);
            forall f :: f in sc.meta && f !in sc.main ==> f in r.meta && r.meta[f] == sc.meta[f]
    decreases |order|
  {
    if order != [] {
      var n := |order| - 1;
      MainPassKeepsOthers(sc, order[..n], eligible, id, request);
      MainPassLowers(sc, order[..n], eligible, id, request);
      hide NoDup;
    }
  }

  lemma {:induction false} MainPassesKeepOthers(sc: MainScan, orders: seq<seq<Folio>>, eligible: set<Folio>,
                                                request: nat, n: nat)
    requires NoDup(sc.main) && n <= |orders|
    ensures var r := MainPasses(sc, orders, eligible, request, n);
            forall f :: f in sc.meta && f !in sc.main ==> f in r.meta && r.meta[f] == sc.meta[f]
  {
    hide MainPass, NoDup;
    if n > 0 {
      var mid := MainPasses(sc, orders, eligible, request, n - 1);
      MainPassesKeepOthers(sc, orders, eligible, request, n - 1);
      MainPassesLower(sc, orders, eligible, request, n - 1);
      MainPassKeepsOthers(mid, orders[n - 1], eligible, n - 1, request);
    }
  }

  /** An eviction call leaves the frequencies of the small list alone. */
  lemma CallKeepsSmallFreq(s: State, cacheSize: nat, request: nat, it: Iteration, f: Folio)
    requires Inv(s) && it.passes <= |it.orders| && f in EvictFolios(s, cacheSize, request, it).small
    ensures var r := EvictFolios(s, cacheSize, request, it);
            f in s.small && f in s.meta && f in r.meta && r.meta[f].freq == s.meta[f].freq
  {
    hide FromSmall, SmallPass, MainPasses;
    SmallPassKeepsFreq(SmallScan(s, [], 0), it.visits, it.eligible, request);
    MainPassesKeepOthers(MainScan(s.meta, s.main, []), it.orders, it.eligible, request, it.passes);
  }

  lemma SmallStep(cacheSize: nat, s: State, e: Event, f: Folio)
    requires Inv(s) && Enabled(s, e) && f in Next(cacheSize, s, e).small
    requires f in s.small ==> f in s.meta && s.meta[f].freq <= 3
    ensures var r := Next(cacheSize, s, e);
            && f in r.meta
            && if e.FolioAdded? && e.folio == f then r.meta[f].freq == 0
               else && f in s.small
                    && r.meta[f].freq == if e.FolioAccessed? && e.folio == f && e.relevant
                                         then Min3(s.meta[f].freq + 1) else s.meta[f].freq
  {
    StepKeeps(cacheSize, s, e);
    match e
    case Evict(request, it) =>
      CallKeepsSmallFreq(s, cacheSize, request, it, f);
      hide EvictFolios;
    case _ =>
  }

  /** In every run the frequency of a folio of the small list is the smaller of 3 and its relevant
      accesses since it was added. */
  lemma {:induction false} SmallFrequencies(cacheSize: nat, es: seq<Event>, s: State, f: Folio)
    requires Reaches(cacheSize, es, s) && f in s.small
    ensures f in s.meta && s.meta[f].freq == Min3(UsesSince(es, f))
    decreases |es|
  {
    hide Next, Inv;
    if es != [] {
      var n := |es| - 1;
      var before :| Reaches(cacheSize, es[..n], before) && Enabled(before, es[n])
                    && s == Next(cacheSize, before, es[n]);
      RunsKeepInv(cacheSize, es[..n], before);
      if f in before.small {
        SmallFrequencies(cacheSize, es[..n], before, f);
      }
      SmallStep(cacheSize, before, es[n], f);
    }
  }

  /** Neither an eviction call nor the eviction of f. */
  predicate LeavesAlone(e: Event, f: Folio) {
    !e.Evict? && !(e.FolioEvicted? && e.folio == f)
  }

  lemma QuietStep(cacheSize: nat, s: State, e: Event, f: Folio)
    requires Inv(s) && Enabled(s, e) && f in s.meta && LeavesAlone(e, f)
    ensures var r := Next(cacheSize, s, e);
            && f in r.meta && s.meta[f].freq <= 3
            && r.meta[f].freq == if e.FolioAccessed? && e.folio == f && e.relevant
                                 then Min3(s.meta[f].freq + 1) else s.meta[f].freq
  {
  }

  /** On either list, k relevant accesses with no eviction call between take a frequency to the
      smaller of 3 and k more. */
  lemma {:induction false} UsesAddUp(cacheSize: nat, es: seq<Event>, s: State, more: seq<Event>, s': State, f: Folio)
    requires Reaches(cacheSize, es, s) && Reaches(cacheSize, es + more, s') && f in s.meta
    requires forall i :: 0 <= i < |more| ==> LeavesAlone(more[i], f)
    ensures f in s'.meta && s'.meta[f].freq == Min3(s.meta[f].freq + UsesIn(more, f))
    decreases |more|
  {
    hide Next, Inv, Reaches, UsesIn;
    RunsKeepInv(cacheSize, es, s);
    if more == [] {
      assert es + more == es;
      RunReachesOne(cacheSize, es, s, s');
      FreqAtMost3(s, f);
      UsesInNext(more);
    } else {
      var rest, last := more[..|more| - 1], more[|more| - 1];
      UsesInNext(more);
      var before := Before(cacheSize, es + more, s');
      assert (es + more)[..|es + more| - 1] == es + rest && (es + more)[|es + more| - 1] == last;
      UsesAddUp(cacheSize, es, s, rest, before, f);
      RunsKeepInv(cacheSize, es + rest, before);
      QuietStep(cacheSize, before, last, f);
    }
  }

  lemma UsesInNext(es: seq<Event>)
    ensures forall f :: UsesIn(es, f) ==
              if es == [] then 0
              else UsesIn(es[..|es| - 1], f)
                   + if es[|es| - 1].FolioAccessed? && es[|es| - 1].folio == f && es[|es| - 1].relevant then 1 else 0
  {
  }

  lemma FreqAtMost3(s: State, f: Folio)
    requires Inv(s) && f in s.meta
    ensures s.meta[f].freq <= 3
  {
  }

  lemma Before(cacheSize: nat, es: seq<Event>, s: State) returns (before: State)
    requires Reaches(cacheSize, es, s) && es != []
    ensures Reaches(cacheSize, es[..|es| - 1], before) && Enabled(before, es[|es| - 1])
    ensures s == Next(cacheSize, before, es[|es| - 1])
  {
    var n := |es| - 1;
    before :| Reaches(cacheSize, es[..n], before) && Enabled(before, es[n]) && s == Next(cacheSize, before, es[n]);
  }

  lemma {:induction false} RunReachesOne(cacheSize: nat, es: seq<Event>, s: State, s': State)
    requires Reaches(cacheSize, es, s) && Reaches(cacheSize, es, s')
    ensures s == s'
    decreases |es|
  {
    if es != [] {
      hide Reaches, Next;
      var a := Before(cacheSize, es, s);
      var b := Before(cacheSize, es, s');
      RunReachesOne(cacheSize, es[..|es| - 1], a, b);
    }
  }

  // ---------------------------------------------------------------- which list gives way

  /** The small list gives way when it holds at least a fifteenth of the cache, or main at most
      twice as much; a size gone negative always counts as at least a fifteenth. */
  lemma FromSmallExactly(small: int, main: int, cacheSize: nat)
    requires -0x8000_0000_0000_0000 <= small < 0x8000_0000_0000_0000
    requires cacheSize < 0x1_0000_0000_0000_0000
    ensures FromSmall(small, main, cacheSize) <==> small < 0 || 15 * (small + 1) > cacheSize || main <= small + small
  {
  }

  // ---------------------------------------------------------------- pages that come back

  /** The key f was last added with. */
  ghost predicate HasKey(es: seq<Event>, f: Folio, k: PageKey) {
    if es == [] then false
    else
      var e := es[|es| - 1];
      if e.FolioAdded? && e.folio == f then e.key == k else HasKey(es[..|es| - 1], f, k)
  }

  /** The page was evicted with room for its entry, and neither was the entry dropped nor did the
      page come back to a watched file since. */
  ghost predicate Gone(es: seq<Event>, k: PageKey) {
    if es == [] then false
    else
      var earlier, e := es[..|es| - 1], es[|es| - 1];
      match e
      case FolioEvicted(f, ghostOk) => (HasKey(earlier, f, k) && ghostOk) || Gone(earlier, k)
      case FolioAdded(_, key, relevant, _, _) => Gone(earlier, k) && !(key == k && relevant)
      case GhostDrop(key) => Gone(earlier, k) && key != k
      case _ => Gone(earlier, k)
  }

  lemma CallKeepsGhosts(s: State, cacheSize: nat, request: nat, it: Iteration)
    requires it.passes <= |it.orders|
    ensures var r := EvictFolios(s, cacheSize, request, it);
            r.ghosts == s.ghosts && r.resident == s.resident
  {
    hide FromSmall, SmallPass, MainPasses;
    SmallPassKeepsGhosts(SmallScan(s, [], 0), it.visits, it.eligible, request);
  }

  lemma {:induction false} SmallPassKeepsGhosts(sc: SmallScan, visits: seq<Folio>, eligible: set<Folio>, request: nat)
    ensures var r := SmallPass(sc, visits, eligible, request).s;
            r.ghosts == sc.s.ghosts && r.resident == sc.s.resident
    decreases |visits|
  {
    if visits != [] {
      SmallPassKeepsGhosts(sc, visits[..|visits| - 1], eligible, request);
    }
  }

  ghost predicate GhostsAre(es: seq<Event>, s: State) {
    && (forall k :: k in s.ghosts <==> Gone(es, k))
    && (forall f, k :: f in s.resident ==> (s.resident[f] == k <==> HasKey(es, f, k)))
  }

  lemma GhostsStep(cacheSize: nat, es: seq<Event>, s: State, e: Event)
    requires Enabled(s, e) && GhostsAre(es, s)
    ensures GhostsAre(es + [e], Next(cacheSize, s, e))
  {
    var all := es + [e];
    assert all[..|all| - 1] == es && all[|all| - 1] == e;
    hide Without;
    GoneNext(es, e);
    match e
    case Evict(request, it) =>
      CallKeepsGhosts(s, cacheSize, request, it);
      hide EvictFolios;
    case _ =>
  }

  lemma GoneNext(es: seq<Event>, e: Event)
    ensures forall k :: Gone(es + [e], k) <==>
              if e.FolioEvicted? then (HasKey(es, e.folio, k) && e.ghostOk) || Gone(es, k)
              else if e.FolioAdded? then Gone(es, k) && !(e.key == k && e.relevant)
              else if e.GhostDrop? then Gone(es, k) && e.key != k
              else Gone(es, k)
    ensures forall f, k :: HasKey(es + [e], f, k) <==>
              if e.FolioAdded? && e.folio == f then e.key == k else HasKey(es, f, k)
  {
    var all := es + [e];
    assert all[..|all| - 1] == es && all[|all| - 1] == e;
  }

  lemma {:induction false} RunsKeepGhosts(cacheSize: nat, es: seq<Event>, s: State)
    requires Reaches(cacheSize, es, s)
    ensures GhostsAre(es, s)
    decreases |es|
  {
    if es != [] {
      hide Reaches, Next, GhostsAre;
      var n := |es| - 1;
      var before := Before(cacheSize, es, s);
      RunsKeepGhosts(cacheSize, es[..n], before);
      GhostsStep(cacheSize, es[..n], before, es[n]);
      assert es == es[..n] + [es[n]];
    }
  }

  /** In every run the ghost map holds exactly the pages gone, and resident folios map the pages
      they were added with. */
  lemma GhostsExactly(cacheSize: nat, es: seq<Event>, s: State)
    requires Reaches(cacheSize, es, s)
    ensures forall k :: k in s.ghosts <==> Gone(es, k)
    ensures forall f, k :: f in s.resident ==> (s.resident[f] == k <==> HasKey(es, f, k))
  {
    RunsKeepGhosts(cacheSize, es, s);
  }

  /** At any point of any run a relevant add that succeeds puts the folio at the tail of the main
      list, flagged, if its page was gone, and of the small list, not flagged, if not. */
  lemma AddGoesExactly(cacheSize: nat, es: seq<Event>, s: State, f: Folio, k: PageKey)
    requires Reaches(cacheSize, es, s) && Enabled(s, FolioAdded(f, k, true, true, true))
    ensures var r := Added(s, f, k, true, true, true);
            && f in r.meta && r.meta[f] == FolioMeta(0, Gone(es, k))
            && r.main == (if Gone(es, k) then s.main + [f] else s.main)
            && r.small == (if Gone(es, k) then s.small else s.small + [f])
  {
    GhostsExactly(cacheSize, es, s);
  }

  /** An add that is not relevant, or that one of the insertions fails for, tracks nothing; but if
      relevant it has taken the page's entry and counted the folio as that list's. */
  lemma FailedAddExactly(cacheSize: nat, es: seq<Event>, s: State, e: Event)
    requires Reaches(cacheSize, es, s) && Enabled(s, e) && e.FolioAdded? && !(e.relevant && e.listOk && e.metaOk)
    ensures var r := Next(cacheSize, s, e);
            && r.meta == s.meta && r.main == s.main && r.small == s.small
            && r.ghosts == (if e.relevant then s.ghosts - {e.key} else s.ghosts)
            && r.mainSize == s.mainSize + (if e.relevant && Gone(es, e.key) then 1 else 0)
            && r.smallSize == s.smallSize + (if e.relevant && !Gone(es, e.key) then 1 else 0)
  {
    GhostsExactly(cacheSize, es, s);
  }

  // ---------------------------------------------------------------- the small list gives way

  /** Eligible and used at most once: what a pass over the small list lets go. */
  ghost predicate LetGo(s: State, eligible: set<Folio>, f: Folio) {
    f in eligible && f in s.meta && s.meta[f].freq <= 1
  }

  ghost predicate Earned(s: State, eligible: set<Folio>, f: Folio) {
    f in eligible && f in s.meta && s.meta[f].freq > 1
  }

  /** It chose each let go once, and reports the others as moved. */
  ghost predicate ChoseLetGo(s: State, r: SmallScan, order: seq<Folio>, eligible: set<Folio>) {
    && NoDup(r.selected) && (forall f :: f in r.selected <==> f in order && LetGo(s, eligible, f))
    && r.moved + |r.selected| == |order|
  }

  /** It moved the others to main. */
  ghost predicate MovedOthers(s: State, r: SmallScan, order: seq<Folio>, eligible: set<Folio>) {
    && (forall f :: f in r.s.small <==> f in s.small && (f in order ==> LetGo(s, eligible, f)))
    && (forall f :: f in r.s.main <==> f in s.main || (f in order && !LetGo(s, eligible, f)))
  }

  /** It flagged those that earned it. */
  ghost predicate FlaggedEarned(s: State, r: SmallScan, order: seq<Folio>, eligible: set<Folio>) {
    && r.s.meta.Keys == s.meta.Keys
    && (forall f :: f in s.meta ==> r.s.meta[f].freq == s.meta[f].freq)
    && (forall f :: f in s.meta ==>
          (r.s.meta[f].inMain <==> s.meta[f].inMain || (f in order && Earned(s, eligible, f))))
  }

  /** What a pass that showed the folios of order and had room for all it let go has done. */
  ghost predicate Sorted(s: State, r: SmallScan, order: seq<Folio>, eligible: set<Folio>) {
    ChoseLetGo(s, r, order, eligible) && MovedOthers(s, r, order, eligible) && FlaggedEarned(s, r, order, eligible)
  }

  lemma SortOne(s: State, mid: SmallScan, order: seq<Folio>, f: Folio, eligible: set<Folio>, request: nat)
    requires Sorted(s, mid, order, eligible) && f !in order && f in s.small && f in s.meta
    requires |mid.selected| < request
    ensures Sorted(s, SmallVisit(mid, f, eligible, request), order + [f], eligible)
  {
    assert forall g :: g in order + [f] <==> g in order || g == f;
    ChooseOne(s, mid, order, f, eligible, request);
    MoveOne(s, mid, order, f, eligible, request);
    FlagOne(s, mid, order, f, eligible, request);
    hide ChoseLetGo, MovedOthers, FlaggedEarned;
  }

  lemma ChooseOne(s: State, mid: SmallScan, order: seq<Folio>, f: Folio, eligible: set<Folio>, request: nat)
    requires ChoseLetGo(s, mid, order, eligible) && f !in order && |mid.selected| < request
    requires f in mid.s.small && f in mid.s.meta && f in s.meta && mid.s.meta[f].freq == s.meta[f].freq
    ensures ChoseLetGo(s, SmallVisit(mid, f, eligible, request), order + [f], eligible)
  {
    assert forall g :: g in order + [f] <==> g in order || g == f;
    if LetGo(s, eligible, f) {
      AppendNoDup(mid.selected, f);
      assert forall g :: g in mid.selected + [f] <==> g in mid.selected || g == f;
    }
    hide NoDup;
  }

  lemma MoveOne(s: State, mid: SmallScan, order: seq<Folio>, f: Folio, eligible: set<Folio>, request: nat)
    requires MovedOthers(s, mid, order, eligible) && f !in order && |mid.selected| < request
    requires f in s.small && f in mid.s.meta && f in s.meta && mid.s.meta[f].freq == s.meta[f].freq
    ensures MovedOthers(s, SmallVisit(mid, f, eligible, request), order + [f], eligible)
  {
    assert forall g :: g in order + [f] <==> g in order || g == f;
  }

  lemma FlagOne(s: State, mid: SmallScan, order: seq<Folio>, f: Folio, eligible: set<Folio>, request: nat)
    requires FlaggedEarned(s, mid, order, eligible) && f !in order && |mid.selected| < request
    requires f in mid.s.small && f in s.meta
    ensures FlaggedEarned(s, SmallVisit(mid, f, eligible, request), order + [f], eligible)
  {
    assert forall g :: g in order + [f] <==> g in order || g == f;
  }

  /** A pass over distinct folios of the small list that is not filled sorts them: it chooses the
      eligible ones used at most once, and moves the others to main, of which it flags the eligible
      ones and reports all. */
  lemma {:induction false} SmallPassSorts(s: State, order: seq<Folio>, eligible: set<Folio>, request: nat)
    requires ListsOk(s.small, s.main, s.meta) && NoDup(order) && forall f :: f in order ==> f in s.small
    requires |SmallPass(SmallScan(s, [], 0), order, eligible, request).selected| < request
    ensures Sorted(s, SmallPass(SmallScan(s, [], 0), order, eligible, request), order, eligible)
    decreases |order|
  {
    hide SmallVisit, ListsOk;
    if order != [] {
      var n := |order| - 1;
      var mid := SmallPass(SmallScan(s, [], 0), order[..n], eligible, request);
      SplitLast(order);
      VisitGrows(mid, order[n], eligible, request);
      SmallPassSorts(s, order[..n], eligible, request);
      TrackedSmall(s);
      SortOne(s, mid, order[..n], order[n], eligible, request);
      assert order == order[..n] + [order[n]];
    }
  }

  lemma TrackedSmall(s: State)
    requires ListsOk(s.small, s.main, s.meta)
    ensures forall f :: f in s.small ==> f in s.meta
  {
  }

  lemma VisitGrows(sc: SmallScan, f: Folio, eligible: set<Folio>, request: nat)
    ensures |sc.selected| <= |SmallVisit(sc, f, eligible, request).selected|
  {
  }

  lemma {:induction false} MovedExactly(sc: SmallScan, visits: seq<Folio>, eligible: set<Folio>, request: nat)
    requires NoDup(sc.s.small)
    ensures var r := SmallPass(sc, visits, eligible, request);
            && NoDup(r.s.small) && r.s.smallSize == sc.s.smallSize && r.s.mainSize == sc.s.mainSize
            && |r.s.small| + r.moved == |sc.s.small| + sc.moved && |r.s.main| - r.moved == |sc.s.main| - sc.moved
    decreases |visits|
  {
    hide SmallVisit, NoDup;
    if visits != [] {
      var n := |visits| - 1;
      MovedExactly(sc, visits[..n], eligible, request);
      OneMoved(SmallPass(sc, visits[..n], eligible, request), visits[n], eligible, request);
    }
  }

  lemma OneMoved(sc: SmallScan, f: Folio, eligible: set<Folio>, request: nat)
    requires NoDup(sc.s.small)
    ensures var r := SmallVisit(sc, f, eligible, request);
            && NoDup(r.s.small) && r.s.smallSize == sc.s.smallSize && r.s.mainSize == sc.s.mainSize
            && |r.s.small| + r.moved == |sc.s.small| + sc.moved && |r.s.main| - r.moved == |sc.s.main| - sc.moved
  {
    WithoutNoDup(sc.s.small, f);
    AppendNoDup(Without(sc.s.small, f), f);
    hide NoDup;
  }

  /** What a call on the small list makes of the sizes: nothing if the iteration failed; else the
      folios gone from the list are subtracted from its size and added to main's, where a negative
      size counts as nothing, and the small list's stays nothing. */
  lemma CallSizesExactly(s: State, request: nat, visits: seq<Folio>, eligible: set<Folio>, ok: bool)
    requires ListsOk(s.small, s.main, s.meta)
    ensures var r := EvictSmall(s, request, visits, eligible, ok);
            var gone := |s.small| - |r.small|;
            && gone == |r.main| - |s.main|
            && r.smallSize == (if !ok then s.smallSize else if s.smallSize < 0 then 0 else s.smallSize - gone)
            && r.mainSize == (if !ok then s.mainSize else (if s.mainSize < 0 then 0 else s.mainSize) + gone)
  {
    MovedExactly(SmallScan(s, [], 0), visits, eligible, request);
    hide SmallPass;
  }

  // ---------------------------------------------------------------- the order on the lists

  /** What an unfilled pass over order leaves of the two lists, c being those let go: what was not
      shown stays in front of the chosen, and the others went to the tail of main, as shown. */
  ghost predicate SmallOrdered(s: State, r: SmallScan, order: seq<Folio>, c: set<Folio>) {
    && r.s.small == Except(s.small, Elems(order)) + Only(order, c)
    && r.s.main == s.main + Except(order, c)
    && r.selected == Only(order, c)
  }

  lemma SmallVisitOrders(sc: SmallScan, f: Folio, eligible: set<Folio>, request: nat)
    requires |sc.selected| < request && f in sc.s.small && f in sc.s.meta
    ensures var r, fits, rest := SmallVisit(sc, f, eligible, request), LetGo(sc.s, eligible, f), Without(sc.s.small, f);
            && r.s.small == (if fits then rest + [f] else rest)
            && r.s.main == (if fits then sc.s.main else sc.s.main + [f])
            && r.selected == (if fits then sc.selected + [f] else sc.selected)
  {
    hide Without;
  }

  lemma SmallOrderOne(s: State, mid: SmallScan, r: SmallScan, order: seq<Folio>, f: Folio, c: set<Folio>)
    requires SmallOrdered(s, mid, order, c) && f !in order
    requires var rest := Without(mid.s.small, f);
             && r.s.small == (if f in c then rest + [f] else rest)
             && r.s.main == (if f in c then mid.s.main else mid.s.main + [f])
             && r.selected == (if f in c then mid.selected + [f] else mid.selected)
    ensures SmallOrdered(s, r, order + [f], c)
  {
    hide Without, Only, Except, Elems;
    OneShown(s.small, s.main, order, f, c);
    OnlyMore(order, f, c);
  }

  lemma {:induction false} SmallPassOrders(s: State, order: seq<Folio>, eligible: set<Folio>, request: nat,
                                           c: set<Folio>)
    requires ListsOk(s.small, s.main, s.meta) && NoDup(order)
    requires forall f :: f in order ==> f in s.small && (f in c <==> LetGo(s, eligible, f))
    requires |SmallPass(SmallScan(s, [], 0), order, eligible, request).selected| < request
    ensures SmallOrdered(s, SmallPass(SmallScan(s, [], 0), order, eligible, request), order, c)
    decreases |order|
  {
    hide SmallVisit, ListsOk, ChoseLetGo, SmallOrdered, LetGo, Without, NoDup;
    if order == [] {
      NothingSorted(s, c);
    } else {
      var n := |order| - 1;
      var mid := SmallPass(SmallScan(s, [], 0), order[..n], eligible, request);
      SplitLast(order);
      VisitGrows(mid, order[n], eligible, request);
      SmallPassSorts(s, order[..n], eligible, request);
      SmallPassOrders(s, order[..n], eligible, request, c);
      TrackedSmall(s);
      SameLetGo(s, mid, order[..n], eligible);
      SmallVisitOrders(mid, order[n], eligible, request);
      SmallOrderOne(s, mid, SmallVisit(mid, order[n], eligible, request), order[..n], order[n], c);
      assert order == order[..n] + [order[n]];
    }
  }

  lemma SameLetGo(s: State, mid: SmallScan, order: seq<Folio>, eligible: set<Folio>)
    requires Sorted(s, mid, order, eligible)
    ensures forall f :: LetGo(mid.s, eligible, f) <==> LetGo(s, eligible, f)
    ensures forall f :: f in s.small && f !in order ==> f in mid.s.small
    ensures mid.s.meta.Keys == s.meta.Keys
  {
  }

  lemma NothingSorted(s: State, c: set<Folio>)
    ensures SmallOrdered(s, SmallScan(s, [], 0), [], c)
  {
    assert Elems<Folio>([]) == {};
    ExceptNone(s.small);
  }

  /** An unfilled pass over the main list leaves what was not shown in front of what was, as shown. */
  lemma {:induction false} MainPassOrders(sc: MainScan, order: seq<Folio>, eligible: set<Folio>, id: nat, request: nat)
    requires NoDup(sc.main) && NoDup(order) && forall f :: f in order ==> f in sc.main
    requires |MainPass(sc, order, eligible, id, request).selected| < request
    ensures MainPass(sc, order, eligible, id, request).main == Except(sc.main, Elems(order)) + order
    decreases |order|
  {
    hide MainVisit, NoDup, Without, Except, Elems;
    if order == [] {
      NoneShown(sc.main, order);
    } else {
      var init, f := order[..|order| - 1], order[|order| - 1];
      var mid := MainPass(sc, init, eligible, id, request);
      SplitLast(order);
      MainPassLowers(sc, init, eligible, id, request);
      MainVisitLowers(mid, f, eligible, id, request);
      MainVisitMoves(mid, f, eligible, id, request);
      hide Lowered;
      MainPassOrders(sc, init, eligible, id, request);
      TakeOff(sc.main, Elems(init), init, f);
      ElemsMore(init, f);
      assert order == init + [f];
      var front := Except(sc.main, Elems(order));
      assert front + init + [f] == front + (init + [f]);
    }
  }

  lemma MainVisitMoves(sc: MainScan, f: Folio, eligible: set<Folio>, id: nat, request: nat)
    ensures MainVisit(sc, f, eligible, id, request).main
         == if |sc.selected| < request && f in sc.main then Without(sc.main, f) + [f] else sc.main
  {
    hide Without;
  }

  lemma NoneShown(main: seq<Folio>, none: seq<Folio>)
    requires none == []
    ensures Except(main, Elems(none)) + none == main
  {
    assert Elems(none) == {};
    ExceptNone(main);
  }
}
