/** The MGLRU hooks as they run: one policy object over the shared record, the metadata and
    ghost maps and the kernel lists, each hook proved to perform its step of the state
    machine. */
module MglruPolicy {
  import opened Lists
  import opened PageCache
  import opened DirWatcher
  import opened MglruGen
  import opened Mglru

  datatype Verdict = EvictNode | ContinueIter

  class Policy {
    const lrugen: LruGen
    var meta: map<Folio, FolioMeta>
    var lists: seq<seq<Folio>>
    var ghosts: map<PageKey, nat>
    var watch: Watchlist
    var tierSelected: seq<nat>
    var success: nat
    var failed: nat
    ghost var resident: map<Folio, Page>
    ghost var hist: History

    ghost predicate Valid()
      reads this
    {
      lrugen.Valid() && |lists| == MAX_NR_GENS && |tierSelected| == MAX_NR_TIERS
    }

    ghost function View(): State
      reads this, lrugen.Cells()
    {
      State(lrugen.View(), meta, lists, ghosts, watch, resident, Stats(tierSelected, success, failed), hist)
    }

    /** mglru_init: a full window, four empty lists. */
    constructor ()
      ensures Valid() && fresh(lrugen.Cells())
      ensures View() == Init()
    {
      lrugen := new LruGen();
      meta, ghosts, watch, resident := map[], map[], map[], map[];
      lists := [[], [], [], []];
      tierSelected, success, failed := [0, 0, 0, 0], 0, 0;
      hist := History([0, 0, 0, 0], [0, 0, 0, 0], [0, 0, 0, 0], 0, 0, 0, [0, 0, 0, 0]);
    }

    /** update_nr_pages_stat. */
    method UpdateNrPages(g: nat, delta: int)
      requires Valid()
      modifies lrugen.nrPages
      ensures View() == AddPages(old(View()), g, delta)
    {
      if g >= MAX_NR_GENS {
        return;
      }
      lrugen.nrPages[g] := lrugen.nrPages[g] + delta;
    }

    /** Look up and delete a ghost entry, and count the refault in its tier. */
    method TakeGhost(k: PageKey)
      requires Valid()
      modifies this`ghosts, this`hist, lrugen.refaulted
      ensures View() == Refault(old(View()), k)
    {
      if k !in ghosts {
        return;
      }
      var tier := ghosts[k];
      ghosts := ghosts - {k};
      hist := hist.(refaults := Bump(hist.refaults, tier));
      if tier < MAX_NR_TIERS {
        lrugen.refaulted[tier] := lrugen.refaulted[tier] + 1;
      }
    }

    method LruGenAddFolio(f: Folio, p: Page, fl: Flags, metaOk: bool, listOk: bool) returns (ok: bool)
      requires Valid()
      modifies this, lrugen.Cells()
      ensures Valid()
      ensures View() == LruGenAdd(old(View()), f, p, fl, metaOk, listOk)
      ensures ok == (!fl.unevictable && metaOk && listOk)
    {
      hide Refault, AddPages, Clobber;
      if fl.unevictable {
        return false;
      }
      var active := FolioActive(meta, f);
      var q := if active then lrugen.maxSeq
               else if fl.reclaim && (fl.dirty || fl.writeback) then lrugen.maxSeq - 1
               else if lrugen.minSeq + MIN_NR_GENS >= lrugen.maxSeq then lrugen.minSeq
               else lrugen.minSeq + 1;
      assert q == AddSeq(lrugen.View(), active, fl);
      hide AddSeq, FolioActive;
      var g := q % MAX_NR_GENS;
      if !metaOk {
        return false;
      }
      CountClobber(f);
      meta := meta[f := FolioMeta(1, g)];
      UpdateNrPages(g, 1);
      TakeGhost(KeyOf(p));
      if !listOk {
        return false;
      }
      lists := lists[g := [f] + lists[g]];
      return true;
    }

    method FolioAdded(f: Folio, p: Page, fl: Flags, metaOk: bool, listOk: bool)
      requires Valid()
      modifies this, lrugen.Cells()
      ensures Valid()
      ensures View() == Added(old(View()), f, p, fl, metaOk, listOk)
    {
      if InWatchlist(watch, p.ino) {
        var _ := LruGenAddFolio(f, p, fl, metaOk, listOk);
      }
      resident := resident[f := p];
    }

    method FolioAccessed(f: Folio, ino: nat)
      requires Valid()
      requires f in resident && resident[f].ino == ino
      modifies this`meta
      ensures View() == Accessed(old(View()), f)
    {
      if !InWatchlist(watch, ino) {
        return;
      }
      if f !in meta {
        return;
      }
      meta := meta[f := meta[f].(accesses := meta[f].accesses + 1)];
    }

    /** The eviction hook, followed by the kernel dropping the folio. */
    method FolioEvicted(f: Folio, p: Page, ghostOk: bool)
      requires Valid()
      requires f in resident && resident[f] == p
      modifies this, lrugen.evicted, lrugen.nrPages
      ensures Valid()
      ensures View() == Evicted(old(View()), f, ghostOk)
    {
      if InWatchlist(watch, p.ino) {
        ForgetFolio(f, p, ghostOk);
      } else if f in meta {
        hist := hist.(unseen := hist.unseen + 1);
      }
      KernelDrop(f);
      resident := resident - {f};
    }

    /** mglru_folio_evicted for a watched folio. */
    method ForgetFolio(f: Folio, p: Page, ghostOk: bool)
      requires Valid()
      modifies this`ghosts, this`meta, this`hist, lrugen.evicted, lrugen.nrPages
      ensures Valid()
      ensures View() == Forget(old(View()), f, p, ghostOk)
    {
      hide AddPages, OrderBase2, AsInt32;
      if f !in meta {
        return;
      }
      var m := meta[f];
      var tier := TierFromRefs(m.accesses);
      PutGhost(KeyOf(p), tier, ghostOk);
      lrugen.evicted[tier] := lrugen.evicted[tier] + 1;
      UpdateNrPages(m.gen, -1);
      meta := meta - {f};
    }

    /** insert_ghost_entry_for_folio; the history notes the eviction and a failed insertion. */
    method PutGhost(k: PageKey, tier: nat, ghostOk: bool)
      modifies this`ghosts, this`hist
      ensures ghosts == (if ghostOk then old(ghosts)[k := tier] else old(ghosts))
      ensures hist == old(hist).(evictions := Bump(old(hist).evictions, tier),
                                 dropped := if ghostOk then old(hist).dropped else Bump(old(hist).dropped, tier))
    {
      hist := hist.(evictions := Bump(hist.evictions, tier));
      if ghostOk {
        ghosts := ghosts[k := tier];
      } else {
        hist := hist.(dropped := Bump(hist.dropped, tier));
      }
    }

    method KernelDrop(f: Folio)
      requires Valid()
      modifies this`lists
      ensures lists == DropFromLists(old(lists), f)
    {
      var n := 0;
      while n < MAX_NR_GENS
        invariant 0 <= n <= MAX_NR_GENS == |lists|
        invariant forall g :: 0 <= g < n ==> lists[g] == Without(old(lists)[g], f)
        invariant forall g :: n <= g < MAX_NR_GENS ==> lists[g] == old(lists)[g]
      {
        lists := lists[n := Without(lists[n], f)];
        n := n + 1;
      }
    }

    /** The counter and metadata updates of a promotion, without the list move. */
    ghost function Relabel(s: State, f: Folio, sc: Scan): State
      requires f in s.meta
    {
      AddPages(AddPages(s, sc.curr, -1), sc.next, 1).(meta := s.meta[f := s.meta[f].(gen := sc.next)])
    }

    /** mglru_iter_fn on one node. */
    method IterFn(f: Folio, pinned: bool, sc: Scan) returns (v: Verdict)
      requires Valid()
      modifies this`meta, lrugen.nrPages, lrugen.protect
      ensures f !in old(meta) ==> v == EvictNode && View() == old(View())
      ensures f in old(meta) ==>
        var tier := TierFromRefs(old(meta)[f].accesses);
        && v == (if tier > sc.threshold || pinned then ContinueIter else EvictNode)
        && View() == if tier > sc.threshold then Relabel(ProtectBump(old(View()), tier), f, sc)
                     else if pinned then Relabel(old(View()), f, sc)
                     else old(View())
    {
      hide AddPages, OrderBase2, AsInt32;
      if f !in meta {
        return EvictNode;
      }
      var tier := TierFromRefs(meta[f].accesses);
      if tier > sc.threshold {
        lrugen.protect[tier - 1] := lrugen.protect[tier - 1] + 1;
        PromoteMeta(f, sc);
        return ContinueIter;
      }
      if pinned {
        PromoteMeta(f, sc);
        return ContinueIter;
      }
      return EvictNode;
    }

    method PromoteMeta(f: Folio, sc: Scan)
      requires Valid() && f in meta
      modifies this`meta, lrugen.nrPages
      ensures View() == Relabel(old(View()), f, sc)
    {
      UpdateNrPages(sc.curr, -1);
      UpdateNrPages(sc.next, 1);
      meta := meta[f := meta[f].(gen := sc.next)];
    }

    /** The kernel's list iteration: shows nodes to the callback until the request is full,
        moving continued nodes to the next list's tail and chosen ones to their own. */
    method IterateExtended(visits: seq<Visit>, sc: Scan, chosen: seq<Folio>) returns (selected: seq<Folio>)
      requires Valid() && sc.curr < MAX_NR_GENS && sc.next < MAX_NR_GENS
      modifies this`meta, this`lists, lrugen.nrPages, lrugen.protect
      ensures Valid()
      ensures Progress(View(), selected) == Pass(Progress(old(View()), chosen), visits, sc)
    {
      selected := chosen;
      ghost var start := Progress(View(), chosen);
      var n := 0;
      while n < |visits|
        invariant 0 <= n <= |visits|
        invariant Valid()
        invariant Progress(View(), selected) == Pass(start, visits[..n], sc)
      {
        ghost var before := Progress(View(), selected);
        if |selected| < sc.request && visits[n].folio in lists[sc.curr] {
          selected := VisitOne(visits[n], sc, selected);
        }
        assert Progress(View(), selected) == VisitNode(before, visits[n], sc);
        assert visits[..n + 1][..n] == visits[..n];
        n := n + 1;
      }
      assert visits[..n] == visits;
    }

    method VisitOne(v: Visit, sc: Scan, chosen: seq<Folio>) returns (selected: seq<Folio>)
      requires Valid() && sc.curr < MAX_NR_GENS && sc.next < MAX_NR_GENS
      requires |chosen| < sc.request && v.folio in lists[sc.curr]
      modifies this`meta, this`lists, lrugen.nrPages, lrugen.protect
      ensures Valid()
      ensures Progress(View(), selected) == VisitNode(Progress(old(View()), chosen), v, sc)
    {
      selected := chosen;
      var verdict := IterFn(v.folio, v.pinned, sc);
      lists := lists[sc.curr := Without(lists[sc.curr], v.folio)];
      match verdict
      case EvictNode =>
        lists := lists[sc.curr := lists[sc.curr] + [v.folio]];
        selected := selected + [v.folio];
      case ContinueIter =>
        lists := lists[sc.next := lists[sc.next] + [v.folio]];
    }

    method EvictFolios(request: nat, it: Iteration)
      requires Valid()
      modifies this, lrugen.Cells()
      ensures Valid()
      ensures View() == Mglru.EvictFolios(old(View()), request, it)
    {
      hide Requested, ScanTwice;
      lrugen.AgeAndRetire();
      ghost var rotated := View();
      var t := lrugen.GetTierIdx();
      PrefixUnique(lrugen.CtrlView(), t);
      ScanLists(t, request, it);
      CountRequest(request);
    }

    method ScanLists(t: nat, request: nat, it: Iteration)
      requires Valid()
      modifies this, lrugen.nrPages, lrugen.protect
      ensures Valid()
      ensures View() == ScanTwice(old(View()), t, request, it)
    {
      hide Pass, Account, Abort;
      var oldest := lrugen.minSeq % MAX_NR_GENS;
      CountTier(t);
      var sc := Scan(oldest, (oldest + 1) % MAX_NR_GENS, t, request);
      var selected := IterateExtended(it.visits1, sc, []);
      if !it.ok1 {
        CountAborted(request);
        return;
      }
      if |selected| < request {
        selected := IterateExtended(it.visits2, sc, selected);
        if !it.ok2 {
          CountAborted(request);
          return;
        }
      }
      RecordOutcome(request, |selected|);
    }

    ghost method CountClobber(f: Folio)
      requires Valid()
      modifies this`hist
      ensures View() == Clobber(old(View()), f)
    {
      if f in meta {
        hist := hist.(clobbered := Bump(hist.clobbered, meta[f].gen));
      }
    }

    ghost method CountRequest(request: nat)
      requires Valid()
      modifies this`hist
      ensures View() == Requested(old(View()), request)
    {
      hist := hist.(requested := hist.requested + request);
    }

    ghost method CountAborted(request: nat)
      requires Valid()
      modifies this`hist
      ensures View() == Abort(old(View()), request)
    {
      hist := hist.(aborted := hist.aborted + request);
    }

    /** update_tier_selected_stat. */
    method CountTier(t: nat)
      requires Valid()
      modifies this`tierSelected
      ensures Valid()
      ensures View() == Mglru.CountTier(old(View()), t)
    {
      if t < MAX_NR_TIERS {
        tierSelected := tierSelected[t := tierSelected[t] + 1];
      }
    }

    method RecordOutcome(request: nat, n: nat)
      requires Valid()
      modifies this`success, this`failed
      ensures View() == Account(old(View()), request, n)
    {
      success := success + n;
      failed := failed + (if request > n then request - n else 0);
    }
  }

  /** At most one tier index ends the longest passing prefix. */
  lemma PrefixUnique(c: Ctrl, r: nat)
    requires c.Shaped() && LongestPassingPrefix(c, r)
    ensures r == TierThreshold(c)
  {
  }
}
