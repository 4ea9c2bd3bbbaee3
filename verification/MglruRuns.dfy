/** Every event keeps the MGLRU invariant; what therefore holds in every run. */
module MglruRuns {
  import opened Lists
  import opened PageCache
  import opened DirWatcher
  import opened MglruGen
  import opened Mglru

  // ---------------------------------------------------------------- counting

  lemma CountAdd(meta: map<Folio, FolioMeta>, f: Folio, m: FolioMeta, g: nat)
    requires f !in meta
    ensures |InGen(meta[f := m], g)| == |InGen(meta, g)| + (if m.gen == g then 1 else 0)
  {
    assert InGen(meta[f := m], g) == InGen(meta, g) + (if m.gen == g then {f} else {});
  }

  lemma CountRemove(meta: map<Folio, FolioMeta>, f: Folio, g: nat)
    requires f in meta
    ensures |InGen(meta, g)| == |InGen(meta - {f}, g)| + (if meta[f].gen == g then 1 else 0)
  {
    var rest := meta - {f};
    assert meta == rest[f := meta[f]];
    CountAdd(rest, f, meta[f], g);
  }

  lemma CountChange(meta: map<Folio, FolioMeta>, f: Folio, m: FolioMeta, g: nat)
    requires f in meta
    ensures |InGen(meta[f := m], g)|
         == |InGen(meta, g)| - (if meta[f].gen == g then 1 else 0) + (if m.gen == g then 1 else 0)
  {
    CountRemove(meta, f, g);
    var rest := meta - {f};
    assert meta[f := m] == rest[f := m];
    CountAdd(rest, f, m, g);
  }

  lemma GhostAdd(ghosts: map<PageKey, nat>, k: PageKey, tier: nat, t: nat)
    requires k !in ghosts
    ensures |LiveGhosts(ghosts[k := tier], t)| == |LiveGhosts(ghosts, t)| + (if tier == t then 1 else 0)
  {
    assert LiveGhosts(ghosts[k := tier], t) == LiveGhosts(ghosts, t) + (if tier == t then {k} else {});
  }

  lemma GhostRemove(ghosts: map<PageKey, nat>, k: PageKey, t: nat)
    requires k in ghosts
    ensures |LiveGhosts(ghosts, t)| == |LiveGhosts(ghosts - {k}, t)| + (if ghosts[k] == t then 1 else 0)
  {
    var rest := ghosts - {k};
    assert ghosts == rest[k := ghosts[k]];
    GhostAdd(rest, k, ghosts[k], t);
  }

  // ---------------------------------------------------------------- the maps, one by one

  lemma CountsAfterAdd(nr: seq<int>, meta: map<Folio, FolioMeta>, f: Folio, m: FolioMeta)
    requires CountsOk(nr, meta) && f !in meta && m.gen < MAX_NR_GENS
    ensures CountsOk(nr[m.gen := nr[m.gen] + 1], meta[f := m])
  {
    var nr' := nr[m.gen := nr[m.gen] + 1];
    forall g | 0 <= g < MAX_NR_GENS
      ensures nr'[g] == |InGen(meta[f := m], g)|
    {
      CountAdd(meta, f, m, g);
    }
  }

  lemma CountsAfterRemove(nr: seq<int>, meta: map<Folio, FolioMeta>, f: Folio)
    requires CountsOk(nr, meta) && f in meta && meta[f].gen < MAX_NR_GENS
    ensures var g := meta[f].gen;
            CountsOk(nr[g := nr[g] - 1], meta - {f})
  {
    var h := meta[f].gen;
    var nr' := nr[h := nr[h] - 1];
    forall g | 0 <= g < MAX_NR_GENS
      ensures nr'[g] == |InGen(meta - {f}, g)|
    {
      CountRemove(meta, f, g);
    }
  }

  lemma CountsAfterMove(nr: seq<int>, meta: map<Folio, FolioMeta>, f: Folio, next: nat)
    requires CountsOk(nr, meta) && f in meta && meta[f].gen < MAX_NR_GENS && next < MAX_NR_GENS
    requires meta[f].gen != next
    ensures var curr := meta[f].gen;
            CountsOk(nr[curr := nr[curr] - 1][next := nr[next] + 1], meta[f := meta[f].(gen := next)])
  {
    var curr := meta[f].gen;
    var nr' := nr[curr := nr[curr] - 1][next := nr[next] + 1];
    forall g | 0 <= g < MAX_NR_GENS
      ensures nr'[g] == |InGen(meta[f := meta[f].(gen := next)], g)|
    {
      CountChange(meta, f, meta[f].(gen := next), g);
    }
  }

  lemma CountsAfterAccess(nr: seq<int>, meta: map<Folio, FolioMeta>, f: Folio, accesses: int)
    requires CountsOk(nr, meta) && f in meta
    ensures CountsOk(nr, meta[f := meta[f].(accesses := accesses)])
  {
    forall g | 0 <= g < MAX_NR_GENS
      ensures |InGen(meta[f := meta[f].(accesses := accesses)], g)| == |InGen(meta, g)|
    {
      CountChange(meta, f, meta[f].(accesses := accesses), g);
    }
  }

  lemma ListsAfterAdd(lists: seq<seq<Folio>>, meta: map<Folio, FolioMeta>, f: Folio, m: FolioMeta)
    requires ListsOk(lists, meta) && f !in meta && m.gen < MAX_NR_GENS
    ensures ListsOk(lists, meta[f := m])
    ensures ListsOk(lists[m.gen := [f] + lists[m.gen]], meta[f := m])
  {
    assert f !in lists[m.gen];
  }

  lemma ListsAfterRemove(lists: seq<seq<Folio>>, meta: map<Folio, FolioMeta>, f: Folio)
    requires ListsOk(lists, meta)
    ensures ListsOk(DropFromLists(lists, f), meta - {f})
  {
    forall g | 0 <= g < |lists|
      ensures NoDup(DropFromLists(lists, f)[g])
    {
      WithoutNoDup(lists[g], f);
    }
  }

  lemma ListsAfterMove(lists: seq<seq<Folio>>, meta: map<Folio, FolioMeta>, f: Folio, curr: nat, next: nat)
    requires ListsOk(lists, meta) && curr < MAX_NR_GENS && next < MAX_NR_GENS && curr != next
    requires f in lists[curr]
    ensures var drained := lists[curr := Without(lists[curr], f)];
            ListsOk(drained[next := drained[next] + [f]], meta[f := meta[f].(gen := next)])
  {
    WithoutNoDup(lists[curr], f);
    assert meta[f].gen == curr;
    assert f !in lists[next];
    AppendNoDup(lists[next], f);
  }

  lemma ListsAfterSelect(lists: seq<seq<Folio>>, meta: map<Folio, FolioMeta>, f: Folio, curr: nat)
    requires ListsOk(lists, meta) && curr < MAX_NR_GENS && f in lists[curr]
    ensures ListsOk(lists[curr := Without(lists[curr], f) + [f]], meta)
  {
    WithoutNoDup(lists[curr], f);
    AppendNoDup(Without(lists[curr], f), f);
  }

  lemma LedgerAfterEvict(h: History, ghosts: map<PageKey, nat>, k: PageKey, tier: nat)
    requires LedgerOk(h, ghosts) && k !in ghosts && tier < MAX_NR_TIERS
    ensures LedgerOk(h.(evictions := Bump(h.evictions, tier)), ghosts[k := tier])
    ensures LedgerOk(h.(evictions := Bump(h.evictions, tier), dropped := Bump(h.dropped, tier)), ghosts)
  {
    forall t | 0 <= t < MAX_NR_TIERS
      ensures |LiveGhosts(ghosts[k := tier], t)| == |LiveGhosts(ghosts, t)| + (if tier == t then 1 else 0)
    {
      GhostAdd(ghosts, k, tier, t);
    }
  }

  lemma LedgerAfterRemove(h: History, ghosts: map<PageKey, nat>, k: PageKey)
    requires LedgerOk(h, ghosts) && GhostTiersOk(ghosts) && k in ghosts
    ensures LedgerOk(h.(refaults := Bump(h.refaults, ghosts[k])), ghosts - {k})
    ensures LedgerOk(h.(dropped := Bump(h.dropped, ghosts[k])), ghosts - {k})
  {
    forall t | 0 <= t < MAX_NR_TIERS
      ensures |LiveGhosts(ghosts, t)| == |LiveGhosts(ghosts - {k}, t)| + (if ghosts[k] == t then 1 else 0)
    {
      GhostRemove(ghosts, k, t);
    }
  }

  // ---------------------------------------------------------------- hooks on one folio

  lemma OpenKeeps(s: State, ino: nat, tag: nat, deleteOk: bool, updateOk: bool)
    requires Inv(s)
    ensures Inv(Next(s, Open(ino, tag, deleteOk, updateOk)))
  {
  }

  lemma AccessedKeeps(s: State, f: Folio)
    requires Inv(s) && f in s.resident
    ensures Inv(Accessed(s, f))
  {
    if f in s.meta {
      CountsAfterAccess(s.gen.nrPages, s.meta, f, s.meta[f].accesses + 1);
    }
  }

  /** A new folio is never active, so its sequence number lies in the window below the
      youngest generation, and its slot is neither the youngest nor outside the window. */
  lemma AddTarget(s: State, f: Folio, fl: Flags)
    requires Inv(s) && f !in s.resident
    ensures !FolioActive(s.meta, f)
    ensures var q := AddSeq(s.gen, FolioActive(s.meta, f), fl);
            && s.gen.minSeq <= q <= s.gen.maxSeq - 1
            && q % MAX_NR_GENS != s.gen.Slot(s.gen.maxSeq)
            && (s.gen.maxSeq == s.gen.minSeq + 2 ==> q % MAX_NR_GENS != s.gen.Slot(s.gen.maxSeq + 1))
  {
    SlotsDistinct(s.gen);
  }

  ghost predicate SameRequests(h: History, h': History) {
    h'.requested == h.requested && h'.aborted == h.aborted && h'.clobbered == h.clobbered
  }

  lemma RefaultKeeps(s: State, k: PageKey)
    requires GhostTiersOk(s.ghosts) && LedgerOk(s.hist, s.ghosts) && s.gen.ctrl.Shaped()
    ensures var s' := Refault(s, k);
            && GhostTiersOk(s'.ghosts) && LedgerOk(s'.hist, s'.ghosts) && s'.gen.ctrl.Shaped()
            && s'.ghosts == s.ghosts - {k}
            && s' == s.(ghosts := s'.ghosts, hist := s'.hist, gen := s.gen.(ctrl := s'.gen.ctrl))
            && SameRequests(s.hist, s'.hist)
  {
    if k in s.ghosts {
      LedgerAfterRemove(s.hist, s.ghosts, k);
    } else {
      assert s.ghosts - {k} == s.ghosts;
    }
  }

  /** A refault changes the ghost map and the refault counters, nothing else. */
  lemma RefaultOnly(s: State, k: PageKey)
    ensures var s' := Refault(s, k);
            && s' == s.(ghosts := s'.ghosts, gen := s.gen.(ctrl := s'.gen.ctrl), hist := s'.hist)
            && s'.hist == s.hist.(refaults := s'.hist.refaults)
            && (s.gen.ctrl.Shaped() ==> s'.gen.ctrl.Shaped())
  {
  }

  /** What a successful insertion of f with metadata m makes of the state, apart from the
      ghost map's effect on the refault counters. */
  ghost predicate Inserted(s: State, s': State, f: Folio, p: Page, m: FolioMeta, listOk: bool) {
    && m.gen < MAX_NR_GENS && |s.gen.nrPages| == |s.lists| == MAX_NR_GENS
    && s'.meta == s.meta[f := m]
    && s'.gen.minSeq == s.gen.minSeq && s'.gen.maxSeq == s.gen.maxSeq
    && s'.gen.nrPages == s.gen.nrPages[m.gen := s.gen.nrPages[m.gen] + 1]
    && s'.lists == (if listOk then s.lists[m.gen := [f] + s.lists[m.gen]] else s.lists)
    && s'.ghosts == s.ghosts - {KeyOf(p)}
    && s'.watch == s.watch && s'.stats == s.stats
    && s'.gen.ctrl.Shaped() && LedgerOk(s'.hist, s'.ghosts) && SameRequests(s.hist, s'.hist)
  }

  lemma AddInserts(s: State, f: Folio, p: Page, fl: Flags, listOk: bool)
    requires Inv(s) && f !in s.resident && !fl.unevictable
    ensures Inserted(s, LruGenAdd(s, f, p, fl, true, listOk), f, p,
                     FolioMeta(1, AddSeq(s.gen, false, fl) % MAX_NR_GENS), listOk)
  {
    AddTarget(s, f, fl);
    var g := AddSeq(s.gen, false, fl) % MAX_NR_GENS;
    assert Clobber(s, f) == s;
    RefaultKeeps(AddPages(s.(meta := s.meta[f := FolioMeta(1, g)]), g, 1), KeyOf(p));
  }

  lemma InsertedKeeps(s: State, s': State, f: Folio, p: Page, m: FolioMeta, listOk: bool)
    requires Inv(s) && f !in s.resident && Inserted(s, s', f, p, m, listOk)
    requires forall f' :: f' in s.resident ==> KeyOf(s.resident[f']) != KeyOf(p)
    requires m.gen != s.gen.Slot(s.gen.maxSeq)
    requires s.gen.maxSeq == s.gen.minSeq + 2 ==> m.gen != s.gen.Slot(s.gen.maxSeq + 1)
    ensures Inv(s'.(resident := s.resident[f := p]))
  {
    assert f !in s.meta;
    CountsAfterAdd(s.gen.nrPages, s.meta, f, m);
    ListsAfterAdd(s.lists, s.meta, f, m);
    KernelAfterAdd(s, f, p);
    InsertedSparse(s, s', f, p, m, listOk);
    hide CountsOk, ListsOk, LedgerOk, KeysDistinct, MetaOk, NoGhostResident, GhostTiersOk, WindowOk, SparseOk;
  }

  lemma InsertedSparse(s: State, s': State, f: Folio, p: Page, m: FolioMeta, listOk: bool)
    requires s.gen.Shaped() && WindowOk(s.gen) && SparseOk(s.gen) && Inserted(s, s', f, p, m, listOk)
    requires m.gen != s.gen.Slot(s.gen.maxSeq)
    requires s.gen.maxSeq == s.gen.minSeq + 2 ==> m.gen != s.gen.Slot(s.gen.maxSeq + 1)
    ensures s'.gen.Shaped() && WindowOk(s'.gen) && SparseOk(s'.gen)
  {
  }

  lemma KernelAfterAdd(s: State, f: Folio, p: Page)
    requires CoreInv(s) && f !in s.resident
    requires forall f' :: f' in s.resident ==> KeyOf(s.resident[f']) != KeyOf(p)
    ensures KeysDistinct(s.resident[f := p])
    ensures MetaOk(s.meta, s.resident[f := p])
    ensures NoGhostResident(s.meta, s.resident[f := p], s.ghosts)
  {
  }

  lemma KernelAfterEvict(s: State, f: Folio)
    requires CoreInv(s)
    ensures KeysDistinct(s.resident - {f})
    ensures MetaOk(s.meta - {f}, s.resident - {f})
  {
  }

  lemma AddedKeeps(s: State, f: Folio, p: Page, fl: Flags, metaOk: bool, listOk: bool)
    requires Inv(s) && Enabled(s, FolioAdded(f, p, fl, metaOk, listOk))
    ensures Inv(Added(s, f, p, fl, metaOk, listOk))
  {
    if InWatchlist(s.watch, p.ino) && !fl.unevictable && metaOk {
      AddTarget(s, f, fl);
      AddInserts(s, f, p, fl, listOk);
      var s1 := LruGenAdd(s, f, p, fl, true, listOk);
      var m := FolioMeta(1, AddSeq(s.gen, false, fl) % MAX_NR_GENS);
      InsertedKeeps(s, s1, f, p, m, listOk);
      assert Added(s, f, p, fl, metaOk, listOk) == s1.(resident := s.resident[f := p]);
    } else {
      KernelAfterAdd(s, f, p);
    }
  }

  /** What forgetting f makes of the state. */
  ghost predicate Forgotten(s: State, s': State, f: Folio, ghostOk: bool)
    requires f in s.meta && f in s.resident
  {
    var g := s.meta[f].gen;
    && g < MAX_NR_GENS == |s.gen.nrPages|
    && s'.meta == s.meta - {f}
    && s'.gen.minSeq == s.gen.minSeq && s'.gen.maxSeq == s.gen.maxSeq
    && s'.gen.nrPages == s.gen.nrPages[g := s.gen.nrPages[g] - 1]
    && s'.gen.ctrl.Shaped()
    && s'.ghosts == (if ghostOk then s.ghosts[KeyOf(s.resident[f]) := TierFromRefs(s.meta[f].accesses)] else s.ghosts)
    && s'.lists == s.lists && s'.watch == s.watch && s'.stats == s.stats
    && LedgerOk(s'.hist, s'.ghosts) && SameRequests(s.hist, s'.hist)
  }

  lemma ForgetForgets(s: State, f: Folio, ghostOk: bool)
    requires CoreInv(s) && f in s.meta
    ensures Forgotten(s, Forget(s, f, s.resident[f], ghostOk), f, ghostOk)
  {
    LedgerAfterEvict(s.hist, s.ghosts, KeyOf(s.resident[f]), TierFromRefs(s.meta[f].accesses));
  }

  lemma ForgottenKeeps(s: State, s': State, f: Folio, ghostOk: bool)
    requires Inv(s) && f in s.meta && Forgotten(s, s', f, ghostOk)
    ensures Inv(s'.(lists := DropFromLists(s.lists, f), resident := s.resident - {f}))
  {
    ListsAfterRemove(s.lists, s.meta, f);
    KernelAfterEvict(s, f);
    CountsAfterRemove(s.gen.nrPages, s.meta, f);
    ForgottenSparse(s, s', f, ghostOk);
  }

  lemma ForgottenSparse(s: State, s': State, f: Folio, ghostOk: bool)
    requires s.gen.Shaped() && WindowOk(s.gen) && SparseOk(s.gen)
    requires f in s.meta && f in s.resident && Forgotten(s, s', f, ghostOk)
    ensures s'.gen.Shaped() && WindowOk(s'.gen) && SparseOk(s'.gen)
  {
  }

  lemma EvictedKeeps(s: State, f: Folio, ghostOk: bool)
    requires Inv(s) && f in s.resident && Seen(s.meta, s.resident, s.watch, f)
    ensures Inv(Evicted(s, f, ghostOk))
  {
    if f in s.meta {
      ForgetForgets(s, f, ghostOk);
      var s1 := Forget(s, f, s.resident[f], ghostOk);
      ForgottenKeeps(s, s1, f, ghostOk);
      assert Evicted(s, f, ghostOk) == s1.(lists := DropFromLists(s.lists, f), resident := s.resident - {f});
    } else {
      ListsAfterRemove(s.lists, s.meta, f);
      KernelAfterEvict(s, f);
      assert s.meta - {f} == s.meta;
    }
  }

  ghost predicate MetaResident(s: State) {
    forall f :: f in s.meta ==> f in s.resident
  }

  /** An eviction leaves no metadata behind, and keeps the invariant, exactly when the hook sees
      it: when the folio's inode is watched at that moment, or the folio was not tracked. */
  lemma EvictionSeenExactly(s: State, f: Folio, ghostOk: bool)
    requires Inv(s) && f in s.resident
    ensures MetaResident(Evicted(s, f, ghostOk)) <==> Seen(s.meta, s.resident, s.watch, f)
    ensures Inv(Evicted(s, f, ghostOk)) <==> Seen(s.meta, s.resident, s.watch, f)
    ensures Evicted(s, f, ghostOk).hist.unseen
         == s.hist.unseen + if Seen(s.meta, s.resident, s.watch, f) then 0 else 1
  {
    var s' := Evicted(s, f, ghostOk);
    if Seen(s.meta, s.resident, s.watch, f) {
      EvictedKeeps(s, f, ghostOk);
    } else {
      assert f in s'.meta && f !in s'.resident;
    }
  }

  lemma GhostDropKeeps(s: State, k: PageKey)
    requires Inv(s)
    ensures Inv(GhostDropped(s, k))
  {
    if k in s.ghosts {
      LedgerAfterRemove(s.hist, s.ghosts, k);
    }
  }

  // ---------------------------------------------------------------- eviction passes

  ghost predicate ScanOk(sc: Scan) {
    sc.curr < MAX_NR_GENS && sc.next < MAX_NR_GENS && sc.curr != sc.next
  }

  /** What a pass leaves alone: counters and lists of the other slots, the window, the ghost
      map, the set of folios with metadata and their access counts. */
  ghost predicate Untouched(s: State, s': State, sc: Scan) {
    && |s.gen.nrPages| == |s'.gen.nrPages| == |s.lists| == |s'.lists| == MAX_NR_GENS
    && (forall g :: 0 <= g < MAX_NR_GENS && g != sc.curr && g != sc.next ==>
          s'.gen.nrPages[g] == s.gen.nrPages[g] && s'.lists[g] == s.lists[g])
    && s'.gen.minSeq == s.gen.minSeq && s'.gen.maxSeq == s.gen.maxSeq
    && s'.ghosts == s.ghosts && s'.hist == s.hist && s'.stats == s.stats
    && s'.watch == s.watch && s'.resident == s.resident
    && SameFolios(s.meta, s'.meta)
  }

  ghost predicate SameFolios(meta: map<Folio, FolioMeta>, meta': map<Folio, FolioMeta>) {
    && meta'.Keys == meta.Keys
    && forall f :: f in meta ==> meta'[f].accesses == meta[f].accesses
  }

  /** What promoting f makes of the state. */
  ghost predicate Promoted(s: State, s': State, f: Folio, sc: Scan)
    requires f in s.meta && ScanOk(sc) && |s.gen.nrPages| == |s.lists| == MAX_NR_GENS
  {
    var nr := s.gen.nrPages;
    var drained := s.lists[sc.curr := Without(s.lists[sc.curr], f)];
    && s'.gen.nrPages == nr[sc.curr := nr[sc.curr] - 1][sc.next := nr[sc.next] + 1]
    && s'.meta == s.meta[f := s.meta[f].(gen := sc.next)]
    && s'.lists == drained[sc.next := drained[sc.next] + [f]]
    && s'.gen.ctrl == s.gen.ctrl && s'.gen.minSeq == s.gen.minSeq && s'.gen.maxSeq == s.gen.maxSeq
    && s'.ghosts == s.ghosts && s'.hist == s.hist && s'.stats == s.stats
    && s'.watch == s.watch && s'.resident == s.resident
  }

  lemma PromotedCore(s: State, s': State, f: Folio, sc: Scan)
    requires CoreInv(s) && ScanOk(sc) && f in s.lists[sc.curr] && f in s.meta && Promoted(s, s', f, sc)
    ensures CoreInv(s')
  {
    assert s.meta[f].gen == sc.curr;
    CountsAfterMove(s.gen.nrPages, s.meta, f, sc.next);
    ListsAfterMove(s.lists, s.meta, f, sc.curr, sc.next);
  }

  lemma PromotedUntouched(s: State, s': State, f: Folio, sc: Scan)
    requires ScanOk(sc) && f in s.meta && |s.gen.nrPages| == |s.lists| == MAX_NR_GENS && Promoted(s, s', f, sc)
    ensures Untouched(s, s', sc)
  {
  }

  lemma PromoteKeeps(s: State, f: Folio, sc: Scan)
    requires CoreInv(s) && ScanOk(sc) && f in s.lists[sc.curr]
    ensures CoreInv(Promote(s, f, sc)) && Untouched(s, Promote(s, f, sc), sc)
  {
    assert f in s.meta;
    var s' := Promote(s, f, sc);
    assert Promoted(s, s', f, sc);
    PromotedCore(s, s', f, sc);
    PromotedUntouched(s, s', f, sc);
  }

  lemma SelectKeeps(pr: Progress, f: Folio, sc: Scan)
    requires CoreInv(pr.s) && ScanOk(sc) && f in pr.s.lists[sc.curr]
    ensures CoreInv(Select(pr, f, sc).s) && Untouched(pr.s, Select(pr, f, sc).s, sc)
  {
    ListsAfterSelect(pr.s.lists, pr.s.meta, f, sc.curr);
  }

  /** The chosen folios have metadata and were not worth protecting. */
  ghost predicate ChosenOk(pr: Progress, sc: Scan) {
    && |pr.selected| <= sc.request
    && forall f :: f in pr.selected ==> f in pr.s.meta && TierFromRefs(pr.s.meta[f].accesses) <= sc.threshold
  }

  lemma VisitKeeps(pr: Progress, v: Visit, sc: Scan)
    requires CoreInv(pr.s) && ScanOk(sc) && ChosenOk(pr, sc)
    ensures var r := VisitNode(pr, v, sc);
            CoreInv(r.s) && Untouched(pr.s, r.s, sc) && ChosenOk(r, sc)
  {
    if |pr.selected| < sc.request && v.folio in pr.s.lists[sc.curr] {
      assert v.folio in pr.s.meta;
      var tier := TierFromRefs(pr.s.meta[v.folio].accesses);
      if tier > sc.threshold {
        PromoteKeeps(ProtectBump(pr.s, tier), v.folio, sc);
      } else if v.pinned {
        PromoteKeeps(pr.s, v.folio, sc);
      } else {
        SelectKeeps(pr, v.folio, sc);
      }
    }
  }

  lemma {:induction false} PassKeeps(pr: Progress, visits: seq<Visit>, sc: Scan)
    requires CoreInv(pr.s) && ScanOk(sc) && ChosenOk(pr, sc)
    ensures var r := Pass(pr, visits, sc);
            CoreInv(r.s) && Untouched(pr.s, r.s, sc) && ChosenOk(r, sc)
    decreases |visits|
  {
    if visits != [] {
      var n := |visits| - 1;
      PassKeeps(pr, visits[..n], sc);
      VisitKeeps(Pass(pr, visits[..n], sc), visits[n], sc);
    }
  }

  /** A pass moves pages only between the two oldest slots. */
  lemma WindowSurvives(s: State, s': State, sc: Scan)
    requires s.gen.Shaped() && s'.gen.Shaped() && WindowOk(s.gen) && SparseOk(s.gen) && Untouched(s, s', sc)
    requires sc.curr == s.gen.Slot(s.gen.minSeq) && sc.next == (sc.curr + 1) % MAX_NR_GENS
    ensures WindowOk(s'.gen) && SparseOk(s'.gen)
  {
    SlotsDistinct(s.gen);
  }

  lemma PassKeepsInv(pr: Progress, visits: seq<Visit>, sc: Scan)
    requires Inv(pr.s) && ChosenOk(pr, sc)
    requires sc.curr == pr.s.gen.Slot(pr.s.gen.minSeq) && sc.next == (sc.curr + 1) % MAX_NR_GENS
    ensures var r := Pass(pr, visits, sc);
            Inv(r.s) && Untouched(pr.s, r.s, sc) && ChosenOk(r, sc)
  {
    PassKeeps(pr, visits, sc);
    WindowSurvives(pr.s, Pass(pr, visits, sc).s, sc);
  }

  lemma AccountKeeps(s: State, request: nat, n: nat)
    requires Inv(s) && n <= request
    ensures Inv(Requested(Account(s, request, n), request))
  {
  }

  lemma AbortKeeps(s: State, request: nat)
    requires Inv(s)
    ensures Inv(Requested(Abort(s, request), request))
  {
  }

  /** The second pass of an eviction call, if it is made. */
  lemma SecondPassKeeps(pr: Progress, sc: Scan, visits: seq<Visit>)
    requires Inv(pr.s) && ChosenOk(pr, sc)
    requires sc.curr == pr.s.gen.Slot(pr.s.gen.minSeq) && sc.next == (sc.curr + 1) % MAX_NR_GENS
    ensures var r := Pass(pr, visits, sc);
            && Inv(Requested(Abort(r.s, sc.request), sc.request))
            && Inv(Requested(Account(r.s, sc.request, |r.selected|), sc.request))
  {
    PassKeepsInv(pr, visits, sc);
    var r := Pass(pr, visits, sc);
    hide Inv, Pass, Account, Abort, Requested;
    AccountKeeps(r.s, sc.request, |r.selected|);
    AbortKeeps(r.s, sc.request);
  }

  /** The first pass, after the tier threshold was counted; the scan still fits the window. */
  lemma FirstPassKeeps(s: State, t: nat, request: nat, visits: seq<Visit>)
    requires Inv(s)
    ensures |s.lists| == |CountTier(s, t).lists| == MAX_NR_GENS
    ensures var sc := ScanOf(s.gen, t, request);
            var r := Pass(Progress(CountTier(s, t), []), visits, sc);
            && Inv(r.s) && ChosenOk(r, sc)
            && sc.curr == r.s.gen.Slot(r.s.gen.minSeq) && sc.next == (sc.curr + 1) % MAX_NR_GENS
  {
    assert Inv(CountTier(s, t));
    PassKeepsInv(Progress(CountTier(s, t), []), visits, ScanOf(s.gen, t, request));
    hide Inv, Pass;
  }

  lemma ScanKeeps(s: State, t: nat, request: nat, it: Iteration)
    requires Inv(s)
    ensures Inv(Requested(ScanTwice(s, t, request, it), request))
  {
    hide Inv, Pass, Account, Abort, Requested, ScanOf, CountTier, ChosenOk;
    FirstPassKeeps(s, t, request, it.visits1);
    var sc := ScanOf(s.gen, t, request);
    var pr1 := Pass(Progress(CountTier(s, t), []), it.visits1, sc);
    if !it.ok1 {
      AbortKeeps(pr1.s, request);
    } else {
      if |pr1.selected| >= request {
        FullIsEnough(pr1, sc);
        AccountKeeps(pr1.s, request, |pr1.selected|);
      } else {
        SecondPassKeeps(pr1, sc, it.visits2);
      }
    }
  }

  lemma FullIsEnough(pr: Progress, sc: Scan)
    requires ChosenOk(pr, sc)
    ensures |pr.selected| <= sc.request
  {
  }

  lemma EvictKeeps(s: State, request: nat, it: Iteration)
    requires Inv(s)
    ensures Inv(EvictFolios(s, request, it))
  {
    RotateKeepsWindow(s.gen);
    var s1 := s.(gen := Rotate(s.gen));
    ScanKeeps(s1, TierThreshold(s1.gen.ctrl), request, it);
  }

  // ---------------------------------------------------------------- runs

  lemma InitHolds()
    ensures Inv(Init())
  {
    assert forall g :: InGen(map[], g) == {};
    assert forall t :: LiveGhosts(map[], t) == {};
  }

  /** The guard of the eviction hook, for the events it matters to. */
  ghost predicate Noticed(s: State, e: Event)
    requires Enabled(s, e)
  {
    e.FolioEvicted? ==> Seen(s.meta, s.resident, s.watch, e.folio)
  }

  lemma StepKeeps(s: State, e: Event)
    requires Inv(s) && Enabled(s, e) && Noticed(s, e)
    ensures Inv(Next(s, e))
  {
    match e
    case Open(ino, tag, deleteOk, updateOk) => OpenKeeps(s, ino, tag, deleteOk, updateOk);
    case FolioAdded(f, p, fl, metaOk, listOk) => AddedKeeps(s, f, p, fl, metaOk, listOk);
    case FolioAccessed(f) => AccessedKeeps(s, f);
    case FolioEvicted(f, ghostOk) => EvictedKeeps(s, f, ghostOk);
    case GhostDrop(k) => GhostDropKeeps(s, k);
    case Evict(request, it) => EvictKeeps(s, request, it);
  }

  lemma VisitKeepsTotals(pr: Progress, v: Visit, sc: Scan)
    requires sc.curr < |pr.s.lists| && sc.next < |pr.s.lists|
    ensures VisitNode(pr, v, sc).s.hist == pr.s.hist && VisitNode(pr, v, sc).s.stats == pr.s.stats
  {
    hide Promote, TierFromRefs, Without;
    if v.folio in pr.s.meta {
      PromoteKeepsTotals(ProtectBump(pr.s, TierFromRefs(pr.s.meta[v.folio].accesses)), v.folio, sc);
      PromoteKeepsTotals(pr.s, v.folio, sc);
    }
  }

  lemma PromoteKeepsTotals(s: State, f: Folio, sc: Scan)
    requires f in s.meta && sc.curr < |s.lists| && sc.next < |s.lists|
    ensures Promote(s, f, sc).hist == s.hist && Promote(s, f, sc).stats == s.stats
  {
    hide Without;
  }

  lemma {:induction false} PassKeepsTotals(pr: Progress, visits: seq<Visit>, sc: Scan)
    requires sc.curr < |pr.s.lists| && sc.next < |pr.s.lists|
    ensures Pass(pr, visits, sc).s.hist == pr.s.hist && Pass(pr, visits, sc).s.stats == pr.s.stats
    decreases |visits|
  {
    hide VisitNode;
    if visits != [] {
      var n := |visits| - 1;
      PassKeepsTotals(pr, visits[..n], sc);
      VisitKeepsTotals(Pass(pr, visits[..n], sc), visits[n], sc);
    }
  }

  /** Only an eviction the hook does not see adds to the unseen ones. */
  lemma UnseenStep(s: State, e: Event)
    requires Sized(s) && Enabled(s, e)
    ensures Next(s, e).hist.unseen == s.hist.unseen + if Noticed(s, e) then 0 else 1
  {
    match e
    case Evict(request, it) =>
      var s1 := s.(gen := Rotate(s.gen));
      var t := TierThreshold(s1.gen.ctrl);
      var sc := ScanOf(s1.gen, t, request);
      PassKeepsTotals(Progress(CountTier(s1, t), []), it.visits1, sc);
      PassKeepsTotals(Pass(Progress(CountTier(s1, t), []), it.visits1, sc), it.visits2, sc);
    case _ =>
  }

  lemma {:induction false} PassKeepsSizes(pr: Progress, visits: seq<Visit>, sc: Scan)
    requires Sized(pr.s) && sc.curr < MAX_NR_GENS && sc.next < MAX_NR_GENS
    ensures Sized(Pass(pr, visits, sc).s)
    decreases |visits|
  {
    if visits != [] {
      var n := |visits| - 1;
      PassKeepsSizes(pr, visits[..n], sc);
      VisitKeepsSizes(Pass(pr, visits[..n], sc), visits[n], sc);
    }
  }

  lemma VisitKeepsSizes(pr: Progress, v: Visit, sc: Scan)
    requires Sized(pr.s) && sc.curr < MAX_NR_GENS && sc.next < MAX_NR_GENS
    ensures Sized(VisitNode(pr, v, sc).s)
  {
    hide Promote, ProtectBump, TierFromRefs, Without;
    if v.folio in pr.s.meta {
      var protected := ProtectBump(pr.s, TierFromRefs(pr.s.meta[v.folio].accesses));
      ProtectKeepsSizes(pr.s, TierFromRefs(pr.s.meta[v.folio].accesses));
      PromoteKeepsSizes(protected, v.folio, sc);
      PromoteKeepsSizes(pr.s, v.folio, sc);
    }
  }

  lemma ProtectKeepsSizes(s: State, tier: nat)
    requires Sized(s)
    ensures Sized(ProtectBump(s, tier)) && ProtectBump(s, tier).meta == s.meta
  {
  }

  lemma PromoteKeepsSizes(s: State, f: Folio, sc: Scan)
    requires Sized(s) && f in s.meta && sc.curr < MAX_NR_GENS && sc.next < MAX_NR_GENS
    ensures Sized(Promote(s, f, sc))
  {
    hide Without;
  }

  lemma EvictKeepsSizes(s: State, request: nat, it: Iteration)
    requires Sized(s)
    ensures Sized(EvictFolios(s, request, it))
  {
    hide Pass, ScanOf, TierThreshold, Rotate;
    var s1 := s.(gen := Rotate(s.gen));
    var t := TierThreshold(s1.gen.ctrl);
    var sc := ScanOf(s1.gen, t, request);
    assert Sized(CountTier(s1, t));
    PassKeepsSizes(Progress(CountTier(s1, t), []), it.visits1, sc);
    PassKeepsSizes(Pass(Progress(CountTier(s1, t), []), it.visits1, sc), it.visits2, sc);
  }

  /** The tables keep their sizes whatever happens, so every event can follow every run. */
  lemma SizedStep(s: State, e: Event)
    requires Sized(s) && Enabled(s, e)
    ensures Sized(Next(s, e))
  {
    match e
    case Evict(request, it) =>
      EvictKeepsSizes(s, request, it);
      hide EvictFolios;
    case _ =>
  }

  /** Every run, of whatever events, in which no eviction went unseen keeps the invariant. */
  lemma {:induction false} RunsKeepInv(es: seq<Event>, s: State)
    requires Reaches(es, s) && s.hist.unseen == 0
    ensures Inv(s)
    decreases |es|
  {
    if es == [] {
      InitHolds();
    } else {
      var n := |es| - 1;
      var before :| Reaches(es[..n], before) && Sized(before) && Enabled(before, es[n]) && s == Next(before, es[n]);
      UnseenStep(before, es[n]);
      RunsKeepInv(es[..n], before);
      StepKeeps(before, es[n]);
    }
  }

  /** Reached by a run without unseen evictions. */
  ghost predicate Reachable(s: State) {
    s.hist.unseen == 0 && exists es :: Reaches(es, s)
  }

  lemma ReachableInv(s: State)
    requires Reachable(s)
    ensures Inv(s)
  {
    var es :| Reaches(es, s);
    RunsKeepInv(es, s);
  }

  lemma InGenHas(meta: map<Folio, FolioMeta>, g: nat)
    ensures forall f :: f in InGen(meta, g) <==> f in meta && meta[f].gen == g
  {
  }

  lemma GensPartition(meta: map<Folio, FolioMeta>)
    requires forall f :: f in meta ==> meta[f].gen < MAX_NR_GENS
    ensures |InGen(meta, 0)| + |InGen(meta, 1)| + |InGen(meta, 2)| + |InGen(meta, 3)| == |meta|
  {
    InGenHas(meta, 0);
    InGenHas(meta, 1);
    InGenHas(meta, 2);
    InGenHas(meta, 3);
    hide InGen;
    var low, high := InGen(meta, 0) + InGen(meta, 1), InGen(meta, 2) + InGen(meta, 3);
    forall f | f in meta.Keys ensures f in low + high {
      assert meta[f].gen in {0, 1, 2, 3};
    }
    assert low + high == meta.Keys;
    assert |meta| == |meta.Keys|;
  }

  lemma OneListOnly(lists: seq<seq<Folio>>, meta: map<Folio, FolioMeta>)
    requires ListsOk(lists, meta)
    ensures forall g, h, f :: 0 <= g < MAX_NR_GENS && 0 <= h < MAX_NR_GENS && f in lists[g] && f in lists[h] ==> g == h
  {
    forall g, h, f | 0 <= g < MAX_NR_GENS && 0 <= h < MAX_NR_GENS && f in lists[g] && f in lists[h]
      ensures g == h
    {
      assert g == meta[f].gen == h;
    }
  }

  lemma ListSizes(lists: seq<seq<Folio>>, meta: map<Folio, FolioMeta>)
    requires ListsOk(lists, meta)
    ensures forall g :: 0 <= g < MAX_NR_GENS ==> |lists[g]| <= |InGen(meta, g)|
  {
    forall g | 0 <= g < MAX_NR_GENS
      ensures |lists[g]| <= |InGen(meta, g)|
    {
      ListSize(lists[g], meta, g);
    }
  }

  lemma ListSize(l: seq<Folio>, meta: map<Folio, FolioMeta>, g: nat)
    requires NoDup(l) && forall f :: f in l ==> f in meta && meta[f].gen == g
    ensures |l| <= |InGen(meta, g)|
  {
    ElemsSize(l);
    SubsetSize(Elems(l), InGen(meta, g));
  }

  /** In every such run at most four tracked folios sit in the youngest slot, and at most four in
      the slot outside the window. */
  lemma EdgeSlotsSparse(s: State)
    requires Reachable(s)
    ensures s.gen.Shaped()
    ensures |InGen(s.meta, s.gen.Slot(s.gen.maxSeq))| <= ALMOST_EMPTY
    ensures s.gen.maxSeq - s.gen.minSeq == 2 ==> |InGen(s.meta, s.gen.Slot(s.gen.maxSeq + 1))| <= ALMOST_EMPTY
  {
    hide Inv, Reachable;
    ReachableInv(s);
    InvWindow(s);
  }

  lemma InvWindow(s: State)
    requires Inv(s)
    ensures s.gen.Shaped() && WindowOk(s.gen) && SparseOk(s.gen) && CountsOk(s.gen.nrPages, s.meta)
  {
  }

  /** In every such run no page is both tracked and remembered as evicted, and per tier the
      evictions are accounted for exactly; so refaults never exceed evictions. */
  lemma EvictionsAccounted(s: State)
    requires Reachable(s)
    ensures forall f :: f in s.meta ==> f in s.resident && KeyOf(s.resident[f]) !in s.ghosts
    ensures LedgerOk(s.hist, s.ghosts)
    ensures forall t :: 0 <= t < MAX_NR_TIERS ==> s.hist.refaults[t] <= s.hist.evictions[t]
    ensures s.stats.success + s.stats.failed + s.hist.aborted == s.hist.requested
  {
    ReachableInv(s);
  }

  // ---------------------------------------------------------------- unseen evictions

  lemma {:induction false} ReachesOne(es: seq<Event>, s: State, s': State)
    requires Reaches(es, s) && Reaches(es, s')
    ensures s == s'
    decreases |es|
  {
    if es != [] {
      var n := |es| - 1;
      var a :| Reaches(es[..n], a) && Sized(a) && Enabled(a, es[n]) && s == Next(a, es[n]);
      var b :| Reaches(es[..n], b) && Sized(b) && Enabled(b, es[n]) && s' == Next(b, es[n]);
      ReachesOne(es[..n], a, b);
    }
  }

  /** After each event of the run, only resident folios have metadata. */
  ghost predicate NeverStale(es: seq<Event>) {
    forall i, s :: 0 <= i <= |es| && Reaches(es[..i], s) ==> MetaResident(s)
  }

  lemma NeverStalePrefix(es: seq<Event>, n: nat)
    requires NeverStale(es) && n <= |es|
    ensures NeverStale(es[..n])
  {
    forall i, s | 0 <= i <= n && Reaches(es[..n][..i], s) ensures MetaResident(s) {
      assert es[..n][..i] == es[..i];
    }
  }

  lemma InvResident(s: State)
    requires Inv(s)
    ensures MetaResident(s)
  {
  }

  lemma {:induction false} SeenRunsNeverStale(es: seq<Event>, s: State)
    requires Reaches(es, s) && s.hist.unseen == 0
    ensures NeverStale(es)
    decreases |es|
  {
    hide Inv, Reaches, Next, MetaResident;
    RunsKeepInv(es, s);
    InvResident(s);
    assert es[..|es|] == es;
    if es != [] {
      var before := SeenBefore(es, s);
      SeenRunsNeverStale(es[..|es| - 1], before);
    }
    forall i, r | 0 <= i <= |es| && Reaches(es[..i], r) ensures MetaResident(r) {
      if i == |es| {
        ReachesOne(es, s, r);
      } else {
        assert es[..|es| - 1][..i] == es[..i];
      }
    }
  }

  lemma SeenBefore(es: seq<Event>, s: State) returns (before: State)
    requires Reaches(es, s) && es != []
    ensures Reaches(es[..|es| - 1], before) && Sized(before) && Enabled(before, es[|es| - 1])
    ensures s == Next(before, es[|es| - 1]) && before.hist.unseen <= s.hist.unseen
  {
    var n := |es| - 1;
    before :| Reaches(es[..n], before) && Sized(before) && Enabled(before, es[n]) && s == Next(before, es[n]);
    UnseenStep(before, es[n]);
  }

  lemma {:induction false} NeverStaleRunsSeen(es: seq<Event>, s: State)
    requires Reaches(es, s) && NeverStale(es)
    ensures s.hist.unseen == 0
    decreases |es|
  {
    if es == [] {
    } else {
      var n := |es| - 1;
      var before := SeenBefore(es, s);
      NeverStalePrefix(es, n);
      NeverStaleRunsSeen(es[..n], before);
      RunsKeepInv(es[..n], before);
      assert es[..|es|] == es;
      assert MetaResident(s);
      StaleStep(before, es[n]);
    }
  }

  lemma StaleStep(s: State, e: Event)
    requires Inv(s) && Sized(s) && Enabled(s, e) && MetaResident(Next(s, e))
    ensures Next(s, e).hist.unseen == s.hist.unseen
  {
    UnseenStep(s, e);
    if e.FolioEvicted? {
      EvictionSeenExactly(s, e.folio, e.ghostOk);
    }
  }

  /** A run never leaves metadata of a folio that is gone exactly when the hook saw every
      eviction of a tracked folio. */
  lemma NeverStaleExactly(es: seq<Event>, s: State)
    requires Reaches(es, s)
    ensures NeverStale(es) <==> s.hist.unseen == 0
  {
    if NeverStale(es) {
      NeverStaleRunsSeen(es, s);
    }
    if s.hist.unseen == 0 {
      SeenRunsNeverStale(es, s);
    }
  }

  lemma ReachesMore(es: seq<Event>, s: State, e: Event)
    requires Reaches(es, s) && Sized(s) && Enabled(s, e)
    ensures Reaches(es + [e], Next(s, e))
  {
    assert (es + [e])[..|es|] == es;
  }

  /** How an inode is lost, its folio evicted unseen, and the folio's address used again: a
      re-open whose insertion fails, the eviction, an open that succeeds, and an add. */
  function LosingEvents(f: Folio, ino: nat, tag: nat, ghostOk: bool, p: Page, fl: Flags, listOk: bool): seq<Event> {
    [Open(ino, tag, true, false), FolioEvicted(f, ghostOk), Open(ino, tag, true, true),
     FolioAdded(f, p, fl, true, listOk)]
  }

  /** From every state with a tracked folio whose inode is watched, these four events are a run
      after which the counters are not the numbers of metadata entries. */
  lemma LostInodeBreaksCounts(es: seq<Event>, s: State, f: Folio, tag: nat, ghostOk: bool,
                              p: Page, fl: Flags, listOk: bool)
    requires Reaches(es, s) && s.hist.unseen == 0 && f in s.meta && f in s.resident
    requires var ino := s.resident[f].ino;
             InWatchlist(s.watch, ino) && p.ino == ino && tag != 0 && !fl.unevictable
    requires forall g :: g in s.resident && g != f ==> KeyOf(s.resident[g]) != KeyOf(p)
    ensures exists s' :: && Reaches(es + LosingEvents(f, p.ino, tag, ghostOk, p, fl, listOk), s')
                         && s'.hist.unseen == 1 && !CountsOk(s'.gen.nrPages, s'.meta)
  {
    RunsKeepInv(es, s);
    var ino := p.ino;
    OpenKeeps(s, ino, tag, true, false);
    var s1 := Next(s, Open(ino, tag, true, false));
    var s2 := Evicted(s1, f, ghostOk);
    var s3 := s2.(watch := OpenInode(s2.watch, ino, tag, true, true));
    UnseenEffect(s, s1, f, ino, tag, ghostOk);
    hide Evicted, Added, Inv, OpenInode, Reaches;
    LosingRun(es, s, s1, s2, s3, f, tag, ghostOk, p, fl, listOk);
    ReusedAddressBreaksCounts(s, s3, f, p, fl, listOk);
  }

  lemma UnseenEffect(s: State, s1: State, f: Folio, ino: nat, tag: nat, ghostOk: bool)
    requires Inv(s) && f in s.meta && f in s.resident && s.resident[f].ino == ino && tag != 0
    requires InWatchlist(s.watch, ino) && s1 == Next(s, Open(ino, tag, true, false))
    ensures var s2 := Evicted(s1, f, ghostOk);
            && s2.meta == s.meta && s2.gen == s.gen && s2.hist.unseen == s.hist.unseen + 1 && Sized(s2)
            && InWatchlist(OpenInode(s2.watch, ino, tag, true, true), ino)
    ensures Sized(s) && CountsOk(s.gen.nrPages, s.meta) && s.meta[f].gen < MAX_NR_GENS
  {
  }

  lemma TwoEventsIn(p: Page, fl: Flags)
    requires !fl.unevictable && p.ino > 0
    ensures var s1 := Init().(watch := map[p.ino := 1]);
            var s2 := Added(s1, 1, p, fl, true, true);
            && Reaches([Open(p.ino, 1, true, true), FolioAdded(1, p, fl, true, true)], s2)
            && s2.hist.unseen == 0 && s2.resident == map[1 := p] && 1 in s2.meta && s2.watch == s1.watch
  {
    var open, add := Open(p.ino, 1, true, true), FolioAdded(1, p, fl, true, true);
    var s1 := Init().(watch := map[p.ino := 1]);
    assert Reaches([], Init());
    ReachesMore([], Init(), open);
    assert [] + [open] == [open] && [open] + [add] == [open, add];
    ReachesMore([open], s1, add);
  }

  /** Such a state is two events away from the start, so the counters do go wrong in some run. */
  lemma CountersGoWrong(p: Page, fl: Flags)
    requires !fl.unevictable && p.ino > 0
    ensures exists es, s :: Reaches(es, s) && s.hist.unseen == 1 && !CountsOk(s.gen.nrPages, s.meta)
  {
    hide Added, CountsOk, Reaches;
    TwoEventsIn(p, fl);
    var es := [Open(p.ino, 1, true, true), FolioAdded(1, p, fl, true, true)];
    var s2 := Added(Init().(watch := map[p.ino := 1]), 1, p, fl, true, true);
    LostInodeBreaksCounts(es, s2, 1, 1, true, p, fl, true);
  }

  lemma LosingRun(es: seq<Event>, s: State, s1: State, s2: State, s3: State, f: Folio, tag: nat, ghostOk: bool,
                  p: Page, fl: Flags, listOk: bool)
    requires Reaches(es, s) && Sized(s) && f in s.resident
    requires s1 == Next(s, Open(p.ino, tag, true, false)) && s2 == Evicted(s1, f, ghostOk) && Sized(s2)
    requires s3 == s2.(watch := OpenInode(s2.watch, p.ino, tag, true, true))
    requires forall g :: g in s.resident && g != f ==> KeyOf(s.resident[g]) != KeyOf(p)
    ensures Reaches(es + LosingEvents(f, p.ino, tag, ghostOk, p, fl, listOk), Added(s3, f, p, fl, true, listOk))
  {
    hide Reaches, Evicted, Added, OpenInode, Sized;
    var all := LosingEvents(f, p.ino, tag, ghostOk, p, fl, listOk);
    ReachesMore(es, s, all[0]);
    OpenAndEvict(s, s1, f, p.ino, tag, ghostOk);
    ReachesMore(es + [all[0]], s1, all[1]);
    ReachesMore(es + [all[0]] + [all[1]], s2, all[2]);
    SizedByOpen(s2, p.ino, tag);
    ReachesMore(es + [all[0]] + [all[1]] + [all[2]], s3, all[3]);
    assert es + all == es + [all[0]] + [all[1]] + [all[2]] + [all[3]];
  }

  lemma OpenAndEvict(s: State, s1: State, f: Folio, ino: nat, tag: nat, ghostOk: bool)
    requires Sized(s) && f in s.resident && s1 == Next(s, Open(ino, tag, true, false))
    ensures Sized(s1) && s1.resident == s.resident && Evicted(s1, f, ghostOk).resident == s.resident - {f}
  {
  }

  lemma SizedByOpen(s: State, ino: nat, tag: nat)
    requires Sized(s)
    ensures Sized(s.(watch := OpenInode(s.watch, ino, tag, true, true)))
  {
  }

  lemma ReusedAddressBreaksCounts(s: State, t: State, f: Folio, p: Page, fl: Flags, listOk: bool)
    requires CountsOk(s.gen.nrPages, s.meta) && t.meta == s.meta && t.gen == s.gen
    requires f in s.meta && s.meta[f].gen < MAX_NR_GENS
    requires InWatchlist(t.watch, p.ino) && !fl.unevictable
    ensures var r := Added(t, f, p, fl, true, listOk);
            !CountsOk(r.gen.nrPages, r.meta) && r.hist.unseen == t.hist.unseen
  {
    var m := FolioMeta(1, AddSeq(t.gen, FolioActive(t.meta, f), fl) % MAX_NR_GENS);
    InsertCounts(t, f, p, fl, listOk);
    var h := s.meta[f].gen;
    CountChange(s.meta, f, m, h);
    assert s.gen.nrPages[h] == |InGen(s.meta, h)|;
  }

  /** The hook's effect on the counters and the metadata. */
  lemma InsertCounts(s: State, f: Folio, p: Page, fl: Flags, listOk: bool)
    requires |s.gen.nrPages| == MAX_NR_GENS && !fl.unevictable
    ensures var s' := LruGenAdd(s, f, p, fl, true, listOk);
            var g := AddSeq(s.gen, FolioActive(s.meta, f), fl) % MAX_NR_GENS;
            && s'.gen.nrPages == s.gen.nrPages[g := s.gen.nrPages[g] + 1] && s'.meta == s.meta[f := FolioMeta(1, g)]
            && s'.hist.unseen == s.hist.unseen
  {
    var g := AddSeq(s.gen, FolioActive(s.meta, f), fl) % MAX_NR_GENS;
    RefaultOnly(AddPages(Clobber(s, f).(meta := s.meta[f := FolioMeta(1, g)]), g, 1), KeyOf(p));
    hide Refault, AddSeq, FolioActive;
  }
}
