/** What the MGLRU policy keeps in every run whatever, also when evictions of tracked folios went
    unseen: the window, the lists, and the counters up to the metadata that adds overwrote. */
module MglruAlways {
  import opened Lists
  import opened PageCache
  import opened DirWatcher
  import opened MglruGen
  import opened Mglru
  import opened MglruRuns

  // ---------------------------------------------------------------- the invariant

  /** Per slot, the counter is the number of metadata entries and of those overwritten. */
  ghost predicate TrueCounts(nrPages: seq<int>, clobbered: seq<nat>, meta: map<Folio, FolioMeta>) {
    && |nrPages| == |clobbered| == MAX_NR_GENS
    && forall g :: 0 <= g < MAX_NR_GENS ==> nrPages[g] == |InGen(meta, g)| + clobbered[g]
  }

  ghost predicate ListedResident(lists: seq<seq<Folio>>, resident: map<Folio, Page>) {
    forall g, f :: 0 <= g < |lists| && f in lists[g] ==> f in resident
  }

  ghost predicate GensOk(meta: map<Folio, FolioMeta>) {
    forall f :: f in meta ==> meta[f].gen < MAX_NR_GENS
  }

  ghost predicate AlwaysCore(s: State) {
    && s.gen.ctrl.Shaped()
    && TrueCounts(s.gen.nrPages, s.hist.clobbered, s.meta)
    && ListsOk(s.lists, s.meta)
    && ListedResident(s.lists, s.resident)
    && GensOk(s.meta)
  }

  ghost predicate Always(s: State) {
    WindowOk(s.gen) && AlwaysCore(s)
  }

  // ---------------------------------------------------------------- counters

  /** The counters less what was overwritten. */
  ghost function Adjusted(nrPages: seq<int>, clobbered: seq<nat>): (r: seq<int>)
    requires |nrPages| == |clobbered|
    ensures |r| == |nrPages| && forall g :: 0 <= g < |r| ==> r[g] == nrPages[g] - clobbered[g]
  {
    seq(|nrPages|, g requires 0 <= g < |nrPages| => nrPages[g] - clobbered[g])
  }

  lemma TrueByAdjusted(nrPages: seq<int>, clobbered: seq<nat>, meta: map<Folio, FolioMeta>)
    requires |nrPages| == |clobbered| == MAX_NR_GENS
    ensures TrueCounts(nrPages, clobbered, meta) <==> CountsOk(Adjusted(nrPages, clobbered), meta)
  {
    var adjusted := Adjusted(nrPages, clobbered);
    if CountsOk(adjusted, meta) {
      forall g | 0 <= g < MAX_NR_GENS ensures nrPages[g] == |InGen(meta, g)| + clobbered[g] {
        assert adjusted[g] == |InGen(meta, g)|;
      }
    }
  }

  /** An add, at an address with metadata or without. */
  lemma TrueAfterAdd(nr: seq<int>, clobbered: seq<nat>, meta: map<Folio, FolioMeta>, f: Folio, m: FolioMeta)
    requires TrueCounts(nr, clobbered, meta) && GensOk(meta) && m.gen < MAX_NR_GENS
    ensures TrueCounts(nr[m.gen := nr[m.gen] + 1],
                       if f in meta then Bump(clobbered, meta[f].gen) else clobbered, meta[f := m])
  {
    forall g | 0 <= g < MAX_NR_GENS
      ensures |InGen(meta[f := m], g)|
           == |InGen(meta, g)| - (if f in meta && meta[f].gen == g then 1 else 0) + (if m.gen == g then 1 else 0)
    {
      if f in meta {
        CountChange(meta, f, m, g);
      } else {
        CountAdd(meta, f, m, g);
      }
    }
  }

  lemma TrueAfterRemove(nr: seq<int>, clobbered: seq<nat>, meta: map<Folio, FolioMeta>, f: Folio)
    requires TrueCounts(nr, clobbered, meta) && GensOk(meta) && f in meta
    ensures var g := meta[f].gen;
            TrueCounts(nr[g := nr[g] - 1], clobbered, meta - {f})
  {
    var g := meta[f].gen;
    TrueByAdjusted(nr, clobbered, meta);
    CountsAfterRemove(Adjusted(nr, clobbered), meta, f);
    TrueByAdjusted(nr[g := nr[g] - 1], clobbered, meta - {f});
    var was := Adjusted(nr, clobbered);
    assert Adjusted(nr[g := nr[g] - 1], clobbered) == was[g := was[g] - 1];
  }

  lemma TrueAfterMove(nr: seq<int>, clobbered: seq<nat>, meta: map<Folio, FolioMeta>, f: Folio, next: nat)
    requires TrueCounts(nr, clobbered, meta) && GensOk(meta) && f in meta && next < MAX_NR_GENS && meta[f].gen != next
    ensures var curr := meta[f].gen;
            TrueCounts(nr[curr := nr[curr] - 1][next := nr[next] + 1], clobbered, meta[f := meta[f].(gen := next)])
  {
    var curr, was := meta[f].gen, Adjusted(nr, clobbered);
    var nr' := nr[curr := nr[curr] - 1][next := nr[next] + 1];
    TrueByAdjusted(nr, clobbered, meta);
    CountsAfterMove(was, meta, f, next);
    TrueByAdjusted(nr', clobbered, meta[f := meta[f].(gen := next)]);
    assert Adjusted(nr', clobbered) == was[curr := was[curr] - 1][next := was[next] + 1];
  }

  lemma TrueAfterAccess(nr: seq<int>, clobbered: seq<nat>, meta: map<Folio, FolioMeta>, f: Folio, accesses: int)
    requires TrueCounts(nr, clobbered, meta) && f in meta
    ensures TrueCounts(nr, clobbered, meta[f := meta[f].(accesses := accesses)])
  {
    TrueByAdjusted(nr, clobbered, meta);
    CountsAfterAccess(Adjusted(nr, clobbered), meta, f, accesses);
    TrueByAdjusted(nr, clobbered, meta[f := meta[f].(accesses := accesses)]);
  }

  // ---------------------------------------------------------------- events on one folio

  lemma ListsAfterInsert(lists: seq<seq<Folio>>, meta: map<Folio, FolioMeta>, resident: map<Folio, Page>,
                         f: Folio, p: Page, m: FolioMeta)
    requires ListsOk(lists, meta) && ListedResident(lists, resident) && f !in resident && m.gen < MAX_NR_GENS
    ensures ListsOk(lists, meta[f := m]) && ListedResident(lists, resident[f := p])
    ensures var lists' := lists[m.gen := [f] + lists[m.gen]];
            ListsOk(lists', meta[f := m]) && ListedResident(lists', resident[f := p])
  {
    assert forall g :: 0 <= g < MAX_NR_GENS ==> f !in lists[g];
  }

  /** What an add makes of the parts that always hold together. */
  lemma AddEffect(s: State, f: Folio, p: Page, fl: Flags, listOk: bool)
    requires Always(s) && !fl.unevictable
    ensures var s', g := LruGenAdd(s, f, p, fl, true, listOk), AddSeq(s.gen, FolioActive(s.meta, f), fl) % MAX_NR_GENS;
            && s'.meta == s.meta[f := FolioMeta(1, g)] && s'.resident == s.resident
            && s'.gen.nrPages == s.gen.nrPages[g := s.gen.nrPages[g] + 1]
            && s'.gen.minSeq == s.gen.minSeq && s'.gen.maxSeq == s.gen.maxSeq && s'.gen.ctrl.Shaped()
            && s'.lists == (if listOk then s.lists[g := [f] + s.lists[g]] else s.lists)
            && s'.hist.clobbered
               == (if f in s.meta then Bump(s.hist.clobbered, s.meta[f].gen) else s.hist.clobbered)
  {
    var g := AddSeq(s.gen, FolioActive(s.meta, f), fl) % MAX_NR_GENS;
    RefaultOnly(AddPages(Clobber(s, f).(meta := s.meta[f := FolioMeta(1, g)]), g, 1), KeyOf(p));
    hide Refault, AddSeq, FolioActive, TrueCounts, ListsOk, ListedResident, GensOk;
  }

  lemma AddedAlways(s: State, f: Folio, p: Page, fl: Flags, metaOk: bool, listOk: bool)
    requires Always(s) && f !in s.resident
    ensures Always(Added(s, f, p, fl, metaOk, listOk))
  {
    if InWatchlist(s.watch, p.ino) && !fl.unevictable && metaOk {
      var m := FolioMeta(1, AddSeq(s.gen, FolioActive(s.meta, f), fl) % MAX_NR_GENS);
      AddEffect(s, f, p, fl, listOk);
      TrueAfterAdd(s.gen.nrPages, s.hist.clobbered, s.meta, f, m);
      ListsAfterInsert(s.lists, s.meta, s.resident, f, p, m);
      hide TrueCounts, ListsOk, ListedResident, LruGenAdd;
    }
  }

  lemma AccessedAlways(s: State, f: Folio)
    requires Always(s)
    ensures Always(Accessed(s, f))
  {
    if f in s.meta {
      TrueAfterAccess(s.gen.nrPages, s.hist.clobbered, s.meta, f, s.meta[f].accesses + 1);
    }
  }

  lemma ListsAfterDrop(lists: seq<seq<Folio>>, meta: map<Folio, FolioMeta>, resident: map<Folio, Page>, f: Folio)
    requires ListsOk(lists, meta) && ListedResident(lists, resident)
    ensures var lists' := DropFromLists(lists, f);
            && ListsOk(lists', meta - {f}) && ListsOk(lists', meta) && ListedResident(lists', resident - {f})
  {
    ListsAfterRemove(lists, meta, f);
  }

  lemma EvictedAlways(s: State, f: Folio, ghostOk: bool)
    requires Always(s) && f in s.resident
    ensures Always(Evicted(s, f, ghostOk))
  {
    ListsAfterDrop(s.lists, s.meta, s.resident, f);
    if InWatchlist(s.watch, s.resident[f].ino) && f in s.meta {
      TrueAfterRemove(s.gen.nrPages, s.hist.clobbered, s.meta, f);
      hide TrueCounts, ListsOk, ListedResident, Forget;
    }
  }

  // ---------------------------------------------------------------- eviction calls

  /** What a pass leaves alone. */
  ghost predicate Steady(s: State, s': State) {
    && s'.gen.minSeq == s.gen.minSeq && s'.gen.maxSeq == s.gen.maxSeq
    && s'.resident == s.resident && s'.hist == s.hist
  }

  lemma ResidentAfterMove(lists: seq<seq<Folio>>, resident: map<Folio, Page>, f: Folio, curr: nat, next: nat)
    requires ListedResident(lists, resident) && curr < |lists| && next < |lists| && f in lists[curr]
    ensures var drained := lists[curr := Without(lists[curr], f)];
            ListedResident(drained[next := drained[next] + [f]], resident)
    ensures ListedResident(lists[curr := Without(lists[curr], f) + [f]], resident)
  {
  }

  lemma PromoteAlways(s: State, f: Folio, sc: Scan)
    requires AlwaysCore(s) && ScanOk(sc) && f in s.lists[sc.curr]
    ensures AlwaysCore(Promote(s, f, sc)) && Steady(s, Promote(s, f, sc))
  {
    assert f in s.meta && s.meta[f].gen == sc.curr;
    assert Promoted(s, Promote(s, f, sc), f, sc);
    TrueAfterMove(s.gen.nrPages, s.hist.clobbered, s.meta, f, sc.next);
    ListsAfterMove(s.lists, s.meta, f, sc.curr, sc.next);
    ResidentAfterMove(s.lists, s.resident, f, sc.curr, sc.next);
    hide TrueCounts, ListsOk, ListedResident, Promote;
  }

  lemma SelectAlways(pr: Progress, f: Folio, sc: Scan)
    requires AlwaysCore(pr.s) && ScanOk(sc) && f in pr.s.lists[sc.curr]
    ensures AlwaysCore(Select(pr, f, sc).s) && Steady(pr.s, Select(pr, f, sc).s)
  {
    ListsAfterSelect(pr.s.lists, pr.s.meta, f, sc.curr);
    ResidentAfterMove(pr.s.lists, pr.s.resident, f, sc.curr, sc.next);
    hide TrueCounts, ListsOk, ListedResident;
  }

  lemma VisitAlways(pr: Progress, v: Visit, sc: Scan)
    requires AlwaysCore(pr.s) && ScanOk(sc)
    ensures AlwaysCore(VisitNode(pr, v, sc).s) && Steady(pr.s, VisitNode(pr, v, sc).s)
  {
    if |pr.selected| < sc.request && v.folio in pr.s.lists[sc.curr] {
      assert v.folio in pr.s.meta;
      var tier := TierFromRefs(pr.s.meta[v.folio].accesses);
      if tier > sc.threshold {
        PromoteAlways(ProtectBump(pr.s, tier), v.folio, sc);
      } else if v.pinned {
        PromoteAlways(pr.s, v.folio, sc);
      } else {
        SelectAlways(pr, v.folio, sc);
      }
    }
  }

  lemma {:induction false} PassAlways(pr: Progress, visits: seq<Visit>, sc: Scan)
    requires AlwaysCore(pr.s) && ScanOk(sc) && |pr.s.lists| == MAX_NR_GENS
    ensures AlwaysCore(Pass(pr, visits, sc).s) && Steady(pr.s, Pass(pr, visits, sc).s)
    decreases |visits|
  {
    hide VisitNode, TrueCounts, ListedResident, GensOk;
    if visits != [] {
      var n := |visits| - 1;
      PassAlways(pr, visits[..n], sc);
      VisitAlways(Pass(pr, visits[..n], sc), visits[n], sc);
    }
  }

  lemma ScanOfOk(g: Gen, t: nat, request: nat)
    requires WindowOk(g)
    ensures ScanOk(ScanOf(g, t, request))
  {
    SlotsDistinct(g);
  }

  lemma PassKeepsAlways(pr: Progress, visits: seq<Visit>, sc: Scan)
    requires Always(pr.s) && ScanOk(sc)
    ensures Always(Pass(pr, visits, sc).s)
  {
    PassAlways(pr, visits, sc);
    hide Pass, AlwaysCore;
  }

  lemma ScanAlways(s: State, t: nat, request: nat, it: Iteration)
    requires Always(s)
    ensures Always(ScanTwice(s, t, request, it))
  {
    var sc := ScanOf(s.gen, t, request);
    ScanOfOk(s.gen, t, request);
    var start := Progress(CountTier(s, t), []);
    assert Always(start.s);
    PassKeepsAlways(start, it.visits1, sc);
    PassKeepsAlways(Pass(start, it.visits1, sc), it.visits2, sc);
    hide Pass, AlwaysCore, ScanOf, ScanOk;
    hide Always, Account, Abort;
  }

  /** The rotation keeps a window of three or four generations, however the pages lie. */
  lemma RotateWindow(g: Gen)
    requires g.Shaped() && WindowOk(g)
    ensures WindowOk(Rotate(g)) && Rotate(g).nrPages == g.nrPages
    ensures AgingNeeded(g) ==> IncMax(g).0
  {
  }

  lemma EvictAlways(s: State, request: nat, it: Iteration)
    requires Always(s)
    ensures Always(EvictFolios(s, request, it))
  {
    RotateWindow(s.gen);
    var s1 := s.(gen := Rotate(s.gen));
    var t := TierThreshold(s1.gen.ctrl);
    assert Always(s1);
    ScanAlways(s1, t, request, it);
    hide Always, ScanTwice, Requested;
  }

  // ---------------------------------------------------------------- every run

  lemma StartAlways()
    ensures Always(Init())
  {
    assert forall g :: InGen(map[], g) == {};
  }

  lemma StepAlways(s: State, e: Event)
    requires Always(s) && Sized(s) && Enabled(s, e)
    ensures Always(Next(s, e))
  {
    match e
    case FolioAdded(f, p, fl, metaOk, listOk) => AddedAlways(s, f, p, fl, metaOk, listOk);
    case FolioAccessed(f) => AccessedAlways(s, f);
    case FolioEvicted(f, ghostOk) => EvictedAlways(s, f, ghostOk);
    case Evict(request, it) => EvictAlways(s, request, it);
    case _ =>
  }

  lemma {:induction false} RunsKeepAlways(es: seq<Event>, s: State)
    requires Reaches(es, s)
    ensures Always(s)
    decreases |es|
  {
    hide Always, Next;
    if es == [] {
      StartAlways();
    } else {
      var before := SeenBefore(es, s);
      RunsKeepAlways(es[..|es| - 1], before);
      StepAlways(before, es[|es| - 1]);
    }
  }

  ghost predicate Zero(clobbered: seq<nat>) {
    clobbered == [0, 0, 0, 0]
  }

  /** In every run each counter is the number of metadata entries of its generation and of those
      that adds overwrote in it, so no counter reads as clamped. The counters are exact if and
      only if no add ever found metadata at its own address, and so in every run without unseen
      evictions. */
  lemma CountersExactly(es: seq<Event>, s: State)
    requires Reaches(es, s)
    ensures TrueCounts(s.gen.nrPages, s.hist.clobbered, s.meta) && s.gen.Shaped()
    ensures forall g :: 0 <= g < MAX_NR_GENS ==> s.gen.nrPages[g] == s.gen.Pages(g)
    ensures CountsOk(s.gen.nrPages, s.meta) <==> Zero(s.hist.clobbered)
    ensures s.hist.unseen == 0 ==> Zero(s.hist.clobbered)
    ensures var nr, c := s.gen.nrPages, s.hist.clobbered;
            nr[0] + nr[1] + nr[2] + nr[3] == |s.meta| + c[0] + c[1] + c[2] + c[3]
  {
    RunsKeepAlways(es, s);
    ExactWhenZero(s.gen.nrPages, s.hist.clobbered, s.meta);
    GensPartition(s.meta);
    if s.hist.unseen == 0 {
      RunsKeepInv(es, s);
    }
  }

  lemma ExactWhenZero(nr: seq<int>, clobbered: seq<nat>, meta: map<Folio, FolioMeta>)
    requires TrueCounts(nr, clobbered, meta)
    ensures CountsOk(nr, meta) <==> Zero(clobbered)
  {
    if CountsOk(nr, meta) {
      forall g | 0 <= g < MAX_NR_GENS ensures clobbered[g] == 0 {
        assert nr[g] == |InGen(meta, g)|;
      }
      assert clobbered == [0, 0, 0, 0];
    }
  }

  /** The event is an add that finds metadata at its own address. */
  ghost predicate Overwrites(s: State, e: Event) {
    && e.FolioAdded? && InWatchlist(s.watch, e.page.ino) && !e.flags.unevictable && e.metaOk
    && e.folio in s.meta
  }

  lemma ClobberStep(s: State, e: Event)
    requires Always(s) && Sized(s) && Enabled(s, e)
    ensures Next(s, e).hist.clobbered
         == if Overwrites(s, e) then Bump(s.hist.clobbered, s.meta[e.folio].gen) else s.hist.clobbered
  {
    match e
    case FolioAdded(f, p, fl, _, listOk) =>
      if InWatchlist(s.watch, p.ino) && !fl.unevictable && e.metaOk {
        AddEffect(s, f, p, fl, listOk);
      }
      hide Always, LruGenAdd, Bump;
    case Evict(request, it) =>
      var s1 := s.(gen := Rotate(s.gen));
      var t := TierThreshold(s1.gen.ctrl);
      var sc := ScanOf(s1.gen, t, request);
      PassKeepsTotals(Progress(CountTier(s1, t), []), it.visits1, sc);
      PassKeepsTotals(Pass(Progress(CountTier(s1, t), []), it.visits1, sc), it.visits2, sc);
      hide Always, Pass, Rotate, TierThreshold, ScanOf, Bump;
    case _ =>
  }

  /** At any point of any run, the counters are exact after an event if and only if they were
      before it and it is no add that finds metadata at its own address. */
  lemma CountersStep(es: seq<Event>, s: State, e: Event)
    requires Reaches(es, s) && Sized(s) && Enabled(s, e)
    ensures CountsOk(Next(s, e).gen.nrPages, Next(s, e).meta)
       <==> CountsOk(s.gen.nrPages, s.meta) && !Overwrites(s, e)
  {
    hide Next, Reaches, CountsOk, TrueCounts, Zero, Bump, Always;
    RunsKeepAlways(es, s);
    ClobberStep(s, e);
    ReachesMore(es, s, e);
    CountersExactly(es, s);
    CountersExactly(es + [e], Next(s, e));
    if Overwrites(s, e) {
      OverwritesTracked(s, e);
      BumpNotZero(s.hist.clobbered, s.meta[e.folio].gen);
    }
  }

  lemma BumpNotZero(clobbered: seq<nat>, g: nat)
    requires g < |clobbered| == MAX_NR_GENS
    ensures !Zero(Bump(clobbered, g))
  {
    assert Bump(clobbered, g)[g] > 0;
  }

  lemma OverwritesTracked(s: State, e: Event)
    requires Always(s) && Overwrites(s, e)
    ensures e.folio in s.meta && s.meta[e.folio].gen < MAX_NR_GENS
  {
  }

  /** In every run a folio is on at most one list, once, it is resident, and the list is that of
      the generation its metadata names; so a list is never longer than its counter. */
  lemma ListsAgree(es: seq<Event>, s: State)
    requires Reaches(es, s)
    ensures ListsOk(s.lists, s.meta) && ListedResident(s.lists, s.resident)
    ensures forall g, h, f :: 0 <= g < MAX_NR_GENS && 0 <= h < MAX_NR_GENS && f in s.lists[g] && f in s.lists[h] ==>
              g == h
    ensures forall g :: 0 <= g < MAX_NR_GENS ==> |s.lists[g]| <= |InGen(s.meta, g)|
  {
    RunsKeepAlways(es, s);
    OneListOnly(s.lists, s.meta);
    ListSizes(s.lists, s.meta);
  }

  /** In every run the window spans three or four generations, and aging succeeds whenever it is
      requested. */
  lemma WindowStaysLegal(es: seq<Event>, s: State)
    requires Reaches(es, s)
    ensures s.gen.Shaped() && 2 <= s.gen.maxSeq - s.gen.minSeq <= 3
    ensures AgingNeeded(s.gen) ==> IncMax(s.gen).0
  {
    RunsKeepAlways(es, s);
    RotateWindow(s.gen);
  }
}
