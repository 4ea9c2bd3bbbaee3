/** The S3-FIFO hooks as they run, each proved to perform its step of the state machine. */
module S3FifoPolicy {
  import opened Lists
  import opened PageCache
  import opened S3Fifo
  import S3FifoRequests

  datatype Verdict = EvictNode | ContinueIter

  class Policy {
    var meta: map<Folio, FolioMeta>
    var small: seq<Folio>
    var main: seq<Folio>
    var ghosts: set<PageKey>
    var smallSize: int
    var mainSize: int
    const cacheSize: nat
    ghost var resident: map<Folio, PageKey>
    ghost var admitted: set<Folio>
    ghost var drift: Drift

    ghost function View(): State
      reads this
    {
      State(meta, small, main, ghosts, smallSize, mainSize, resident, admitted, drift)
    }

    constructor (cacheSize: nat)
      ensures View() == Init() && this.cacheSize == cacheSize
    {
      this.cacheSize := cacheSize;
      meta, small, main, ghosts, smallSize, mainSize := map[], [], [], {}, 0, 0;
      resident, admitted, drift := map[], {}, Drift(0, 0, 0, 0, 0, 0, 0);
    }

    method FolioAdded(f: Folio, k: PageKey, relevant: bool, listOk: bool, metaOk: bool)
      modifies this
      ensures View() == Added(old(View()), f, k, relevant, listOk, metaOk)
    {
      resident := resident[f := k];
      if !relevant {
        return;
      }
      admitted := admitted + {f};
      var inGhost := k in ghosts;
      ghosts := ghosts - {k};
      if inGhost {
        mainSize := mainSize + 1;
      } else {
        smallSize := smallSize + 1;
      }
      if listOk {
        if inGhost {
          main := main + [f];
        } else {
          small := small + [f];
        }
        if metaOk {
          meta := meta[f := FolioMeta(0, inGhost)];
          return;
        }
        if inGhost {
          main := main[..|main| - 1];
        } else {
          small := small[..|small| - 1];
        }
      }
      drift := if inGhost then drift.(lostMain := drift.lostMain + 1) else drift.(lostSmall := drift.lostSmall + 1);
    }

    method FolioAccessed(f: Folio, relevant: bool)
      modifies this`meta
      ensures View() == Accessed(old(View()), f, relevant)
    {
      if !relevant || f !in meta {
        return;
      }
      var freq := meta[f].freq + 1;
      if freq > 3 {
        freq := 3;
      }
      meta := meta[f := meta[f].(freq := freq)];
    }

    /** The eviction hook, followed by the kernel dropping the folio. */
    method FolioEvicted(f: Folio, k: PageKey, ghostOk: bool)
      requires f in resident && resident[f] == k
      modifies this
      ensures View() == Evicted(old(View()), f, ghostOk)
    {
      if ghostOk {
        ghosts := ghosts + {k};
      }
      if f in meta {
        if meta[f].inMain {
          mainSize := mainSize - 1;
        } else {
          smallSize := smallSize - 1;
          if f in main {
            drift := drift.(straysEvicted := drift.straysEvicted + 1);
          }
        }
        meta := meta - {f};
      }
      small, main := Without(small, f), Without(main, f);
      resident, admitted := resident - {f}, admitted - {f};
    }

    /** The callback on a node of the small list. */
    method ScoreSmall(f: Folio, eligible: set<Folio>) returns (v: Verdict)
      modifies this`meta
      ensures v == (if f in eligible && f in old(meta) && old(meta)[f].freq <= 1 then EvictNode else ContinueIter)
      ensures meta == if f in eligible && f in old(meta) && old(meta)[f].freq > 1
                      then old(meta)[f := old(meta)[f].(inMain := true)] else old(meta)
    {
      if f !in eligible {
        return ContinueIter;
      }
      if f !in meta {
        return ContinueIter;
      }
      if meta[f].freq > 1 {
        meta := meta[f := meta[f].(inMain := true)];
        return ContinueIter;
      }
      return EvictNode;
    }

    method VisitSmall(f: Folio, eligible: set<Folio>, chosen: seq<Folio>, moved: nat)
      returns (selected: seq<Folio>, moved': nat)
      requires f in small
      modifies this`meta, this`small, this`main, this`drift
      ensures forall request: nat :: request > |chosen| ==>
        SmallScan(View(), selected, moved') == SmallVisit(SmallScan(old(View()), chosen, moved), f, eligible, request)
    {
      selected, moved' := chosen, moved;
      ghost var stray := f !in eligible || f !in meta;
      var v := ScoreSmall(f, eligible);
      small := Without(small, f);
      match v
      case EvictNode =>
        small := small + [f];
        selected := selected + [f];
      case ContinueIter =>
        main := main + [f];
        moved' := moved' + 1;
        if stray {
          drift := drift.(strayed := drift.strayed + 1);
        }
    }

    method IterateSmall(visits: seq<Folio>, eligible: set<Folio>, request: nat)
      returns (selected: seq<Folio>, moved: nat)
      modifies this`meta, this`small, this`main, this`drift
      ensures SmallScan(View(), selected, moved) == SmallPass(SmallScan(old(View()), [], 0), visits, eligible, request)
    {
      selected, moved := [], 0;
      ghost var start := SmallScan(View(), [], 0);
      for n := 0 to |visits|
        invariant SmallScan(View(), selected, moved) == SmallPass(start, visits[..n], eligible, request)
      {
        assert visits[..n + 1][..n] == visits[..n];
        if |selected| < request && visits[n] in small {
          selected, moved := VisitSmall(visits[n], eligible, selected, moved);
        }
      }
      assert visits[..|visits|] == visits;
    }

    method CountMovedFolios(moved: nat)
      modifies this`smallSize, this`mainSize, this`drift
      ensures View() == CountMoves(old(View()), moved)
    {
      var oldSmall, oldMain := smallSize, mainSize;
      smallSize := smallSize - moved;
      if oldSmall < 0 {
        smallSize := 0;
      }
      mainSize := mainSize + moved;
      if oldMain < 0 {
        mainSize := moved;
      }
      drift := drift.(resetSmall := drift.resetSmall + (if oldSmall < 0 then moved - oldSmall else 0),
                      resetMain := drift.resetMain + (if oldMain < 0 then -oldMain else 0));
    }

    method EvictFromSmall(request: nat, visits: seq<Folio>, eligible: set<Folio>, ok: bool)
      modifies this
      ensures View() == EvictSmall(old(View()), request, visits, eligible, ok)
    {
      var selected, moved := IterateSmall(visits, eligible, request);
      if !ok {
        drift := drift.(uncounted := drift.uncounted + moved);
        return;
      }
      CountMovedFolios(moved);
    }

    /** The callback of pass id on a node of the main list. */
    method ScoreMain(f: Folio, eligible: set<Folio>, id: nat) returns (v: Verdict)
      modifies this`meta
      ensures v == (if f in eligible && f in old(meta) && old(meta)[f].freq - 1 < id then EvictNode else ContinueIter)
      ensures meta == if f in eligible && f in old(meta)
                      then old(meta)[f := old(meta)[f].(freq := old(meta)[f].freq - 1)] else old(meta)
    {
      if f !in eligible {
        return ContinueIter;
      }
      if f !in meta {
        return ContinueIter;
      }
      var freq := meta[f].freq - 1;
      meta := meta[f := meta[f].(freq := freq)];
      if freq < id {
        return EvictNode;
      }
      return ContinueIter;
    }

    /** One pass over the main list; every node shown goes to the tail. */
    method IterateMain(order: seq<Folio>, eligible: set<Folio>, id: nat, request: nat, chosen: seq<Folio>)
      returns (selected: seq<Folio>)
      modifies this`meta, this`main
      ensures MainScan(meta, main, selected)
           == MainPass(MainScan(old(meta), old(main), chosen), order, eligible, id, request)
    {
      selected := chosen;
      for n := 0 to |order|
        invariant MainScan(meta, main, selected)
               == MainPass(MainScan(old(meta), old(main), chosen), order[..n], eligible, id, request)
      {
        assert order[..n + 1][..n] == order[..n];
        if |selected| < request && order[n] in main {
          var v := ScoreMain(order[n], eligible, id);
          main := Without(main, order[n]) + [order[n]];
          if v == EvictNode {
            selected := selected + [order[n]];
          }
        }
      }
      assert order[..|order|] == order;
    }

    /** evict_main_iter: passes with rising thresholds until the request is full or a pass
        reports failure. */
    method EvictFromMain(request: nat, orders: seq<seq<Folio>>, eligible: set<Folio>, passes: nat)
      returns (selected: seq<Folio>)
      requires passes <= PASSES == |orders|
      modifies this`meta, this`main
      ensures MainScan(meta, main, selected)
           == MainPasses(MainScan(old(meta), old(main), []), orders, eligible, request, passes)
      ensures View() == EvictMain(old(View()), request, orders, eligible, passes)
    {
      selected := [];
      ghost var start := MainScan(meta, main, []);
      var id := 0;
      while id < passes
        invariant 0 <= id <= passes
        invariant MainScan(meta, main, selected) == MainPasses(start, orders, eligible, request, id)
      {
        if |selected| >= request {
          S3FifoRequests.FullPassesIdle(start, orders, eligible, request, id, passes);
          return;
        }
        selected := IterateMain(orders[id], eligible, id, request, selected);
        id := id + 1;
      }
    }

    method EvictFolios(request: nat, it: Iteration)
      requires |it.orders| == PASSES && it.passes <= PASSES
      modifies this
      ensures View() == S3Fifo.EvictFolios(old(View()), cacheSize, request, it)
    {
      if AsU64(smallSize) >= cacheSize / 15 || mainSize <= 2 * smallSize {
        EvictFromSmall(request, it.visits, it.eligible, it.ok);
      } else {
        var _ := EvictFromMain(request, it.orders, it.eligible, it.passes);
      }
    }
  }
}
