/** What the MGLRU controller hears of the run: its counters are the refaults, evictions and
    protections since the last retirement, its readings halve at each, and the access counts and
    ghost tiers behind them are what happened to the page. */
module MglruFeedback {
  import opened Arith
  import opened Lists
  import opened PageCache
  import opened DirWatcher
  import opened MglruGen
  import opened Mglru
  import opened MglruRuns
  import opened MglruAlways
  import opened MglruRequests

  // ---------------------------------------------------------------- tiers

  /** The tier is the number of doublings the access count has behind it, at most 3; counts whose
      low 32 bits are negative or at most 1 are in tier 0. */
  lemma TierExactly(accesses: int, t: nat)
    ensures var n := AsInt32(accesses);
            TierFromRefs(accesses) == t <==>
              && t < MAX_NR_TIERS
              && (t > 0 ==> n >= Pow2(t))
              && (t < MAX_NR_TIERS - 1 ==> n < Pow2(t + 1))
    ensures 0 <= accesses < 0x8000_0000 ==> AsInt32(accesses) == accesses
  {
    assert Pow2(1) == 2 && Pow2(2) == 4 && Pow2(3) == 8;
  }

  // ---------------------------------------------------------------- runs with their states

  /** The states a run goes through. */
  ghost predicate IsRun(es: seq<Event>, states: seq<State>) {
    && |states| == |es| + 1 && states[0] == Init()
    && forall i :: 0 <= i < |es| ==>
         Sized(states[i]) && Enabled(states[i], es[i]) && states[i + 1] == Next(states[i], es[i])
  }

  /** Every run goes through states. */
  lemma {:induction false} RunStates(es: seq<Event>, s: State) returns (states: seq<State>)
    requires Reaches(es, s)
    ensures IsRun(es, states) && states[|es|] == s
    decreases |es|
  {
    hide Sized, Enabled, Next, Init;
    if es == [] {
      states := [s];
    } else {
      var n := |es| - 1;
      var before :| Reaches(es[..n], before) && Sized(before) && Enabled(before, es[n]) && s == Next(before, es[n]);
      var earlier := RunStates(es[..n], before);
      states := earlier + [s];
    }
  }

  lemma {:induction false} StatesReached(es: seq<Event>, states: seq<State>, n: nat)
    requires IsRun(es, states) && n <= |es|
    ensures Reaches(es[..n], states[n])
  {
    hide Sized, Enabled, Next, Init;
    if n > 0 {
      StatesReached(es, states, n - 1);
      assert es[..n][..n - 1] == es[..n - 1];
    }
  }

  // ---------------------------------------------------------------- what happens to a tier

  datatype Kind = Refaulting | Evicting | Protecting

  ghost predicate Tracks(s: State, e: Event) {
    e.FolioAdded? && InWatchlist(s.watch, e.page.ino) && !e.flags.unevictable && e.metaOk
  }

  /** The eviction of a tracked folio that the hook sees. */
  ghost predicate Forgets(s: State, e: Event) {
    && e.FolioEvicted? && e.folio in s.resident && InWatchlist(s.watch, s.resident[e.folio].ino)
    && e.folio in s.meta
  }

  /** The node shown is worth protecting, and there is room. */
  ghost predicate Protects(pr: Progress, v: Visit, sc: Scan, t: nat)
    requires sc.curr < |pr.s.lists|
  {
    && |pr.selected| < sc.request && v.folio in pr.s.lists[sc.curr] && v.folio in pr.s.meta
    && TierFromRefs(pr.s.meta[v.folio].accesses) == t > sc.threshold
  }

  ghost function Protections(pr: Progress, visits: seq<Visit>, sc: Scan, t: nat): nat
    requires sc.curr < |pr.s.lists| && sc.next < |pr.s.lists|
    decreases |visits|
  {
    if visits == [] then 0
    else
      var n := |visits| - 1;
      Protections(pr, visits[..n], sc, t)
      + if Protects(Pass(pr, visits[..n], sc), visits[n], sc, t) then 1 else 0
  }

  /** The protections of one eviction call, in one pass or two. */
  ghost function CallProtections(s: State, request: nat, it: Iteration, t: nat): nat
    requires s.gen.Shaped() && |s.lists| == MAX_NR_GENS
  {
    var (start, sc) := CallStart(s, request);
    var pr := Pass(Progress(start, []), it.visits1, sc);
    Protections(Progress(start, []), it.visits1, sc, t)
    + if it.ok1 && |pr.selected| < request then Protections(pr, it.visits2, sc, t) else 0
  }

  /** How often the event refaults a page of tier t, evicts one, or protects one. */
  ghost function Amount(s: State, e: Event, k: Kind, t: nat): nat
    requires Sized(s)
  {
    match k
    case Refaulting =>
      if Tracks(s, e) && KeyOf(e.page) in s.ghosts && s.ghosts[KeyOf(e.page)] == t then 1 else 0
    case Evicting =>
      if Forgets(s, e) && TierFromRefs(s.meta[e.folio].accesses) == t then 1 else 0
    case Protecting =>
      if e.Evict? then CallProtections(s, e.request, e.it, t) else 0
  }

  /** The event is an eviction call that retires the oldest generation: the window is full and
      the oldest slot almost empty. */
  ghost predicate Retires(s: State, e: Event)
    requires Sized(s)
  {
    e.Evict? && s.gen.maxSeq == s.gen.minSeq + 3 && s.gen.Pages(s.gen.Slot(s.gen.minSeq)) <= ALMOST_EMPTY
  }

  // ---------------------------------------------------------------- one event

  /** The counters after r more refaults, e more evictions and p more protections per tier. */
  ghost predicate Counted(c: Ctrl, c': Ctrl, s: State, e: Event)
    requires c.Shaped() && c'.Shaped() && Sized(s)
  {
    && c'.avgRefaulted == c.avgRefaulted && c'.avgTotal == c.avgTotal
    && (forall t :: 0 <= t < MAX_NR_TIERS ==> c'.refaulted[t] == c.refaulted[t] + Amount(s, e, Refaulting, t))
    && (forall t :: 0 <= t < MAX_NR_TIERS ==> c'.evicted[t] == c.evicted[t] + Amount(s, e, Evicting, t))
    && (forall t :: 1 <= t < MAX_NR_TIERS ==> c'.protect[t - 1] == c.protect[t - 1] + Amount(s, e, Protecting, t))
    && Amount(s, e, Protecting, 0) == 0
  }

  ghost function Base(s: State, e: Event): (c: Ctrl)
    requires Sized(s)
    ensures c.Shaped()
  {
    if Retires(s, e) then Halved(s.gen.ctrl) else s.gen.ctrl
  }

  /** What a refault lookup does: the entry goes, and its tier counts one refault. */
  lemma RefaultCounted(s: State, k: PageKey)
    requires Sized(s)
    ensures var c, c', h' := s.gen.ctrl, Refault(s, k).gen.ctrl, Refault(s, k).hist;
            && c' == c.(refaulted := c'.refaulted) && c'.Shaped() && Refault(s, k).ghosts == s.ghosts - {k}
            && h'.evictions == s.hist.evictions && |h'.refaults| == MAX_NR_TIERS
            && forall t :: 0 <= t < MAX_NR_TIERS ==>
                 var one := if k in s.ghosts && s.ghosts[k] == t then 1 else 0;
                 c'.refaulted[t] == c.refaulted[t] + one && h'.refaults[t] == s.hist.refaults[t] + one
  {
  }

  /** A successful insertion is a refault lookup on a state in which only counters, metadata and
      what was overwritten have changed. */
  lemma InsertSteps(s: State, f: Folio, p: Page, fl: Flags, listOk: bool) returns (s1: State)
    requires Sized(s) && !fl.unevictable
    ensures Sized(s1) && s1.gen.ctrl == s.gen.ctrl && s1.ghosts == s.ghosts
    ensures s1.hist.refaults == s.hist.refaults && s1.hist.evictions == s.hist.evictions
    ensures f in s1.meta && s1.meta == s.meta[f := s1.meta[f]] && s1.meta[f].accesses == 1
    ensures var r, r' := LruGenAdd(s, f, p, fl, true, listOk), Refault(s1, KeyOf(p));
            r.gen.ctrl == r'.gen.ctrl && r.ghosts == r'.ghosts && r.hist == r'.hist && r.meta == s1.meta
  {
    hide AddSeq, FolioActive;
    var g := AddSeq(s.gen, FolioActive(s.meta, f), fl) % MAX_NR_GENS;
    s1 := AddPages(Clobber(s, f).(meta := s.meta[f := FolioMeta(1, g)]), g, 1);
    RefaultOnly(s1, KeyOf(p));
    hide Refault, Bump;
  }

  lemma AddCounted(s: State, e: Event)
    requires Sized(s) && e.FolioAdded? && Enabled(s, e)
    ensures Next(s, e).gen.ctrl.Shaped() && Counted(Base(s, e), Next(s, e).gen.ctrl, s, e)
  {
    hide LruGenAdd, CallProtections;
    if Tracks(s, e) {
      var s1 := InsertSteps(s, e.folio, e.page, e.flags, e.listOk);
      RefaultCounted(s1, KeyOf(e.page));
      hide Refault;
    } else {
      UntrackedAdd(s, e);
    }
  }

  lemma UntrackedAdd(s: State, e: Event)
    requires e.FolioAdded? && Sized(s) && Enabled(s, e) && !Tracks(s, e)
    ensures Next(s, e).gen == s.gen && Next(s, e).hist == s.hist
  {
  }

  /** What the hook counts when it forgets a folio. */
  lemma ForgetCounted(s: State, f: Folio, p: Page, ghostOk: bool)
    requires Sized(s) && f in s.meta
    ensures var c, c', h' := s.gen.ctrl, Forget(s, f, p, ghostOk).gen.ctrl, Forget(s, f, p, ghostOk).hist;
            && c' == c.(evicted := c'.evicted) && c'.Shaped()
            && h'.refaults == s.hist.refaults && |h'.evictions| == MAX_NR_TIERS
            && forall t :: 0 <= t < MAX_NR_TIERS ==>
                 var one := if TierFromRefs(s.meta[f].accesses) == t then 1 else 0;
                 c'.evicted[t] == c.evicted[t] + one && h'.evictions[t] == s.hist.evictions[t] + one
  {
    hide TierFromRefs;
  }

  lemma EvictionCounted(s: State, e: Event)
    requires Sized(s) && e.FolioEvicted? && Enabled(s, e)
    ensures Next(s, e).gen.ctrl.Shaped() && Counted(Base(s, e), Next(s, e).gen.ctrl, s, e)
  {
    hide Forget, TierFromRefs, DropFromLists, CallProtections;
    if Forgets(s, e) {
      ForgetCounted(s, e.folio, s.resident[e.folio], e.ghostOk);
    } else {
      UnseenEvictionKeeps(s, e);
    }
  }

  lemma UnseenEvictionKeeps(s: State, e: Event)
    requires e.FolioEvicted? && Enabled(s, e) && Sized(s) && !Forgets(s, e)
    ensures var s' := Next(s, e);
            s'.gen == s.gen && s'.hist.refaults == s.hist.refaults && s'.hist.evictions == s.hist.evictions
  {
    hide DropFromLists;
  }

  lemma PromoteKeepsCtrl(s: State, f: Folio, sc: Scan)
    requires f in s.meta && sc.curr < |s.lists| && sc.next < |s.lists|
    ensures Promote(s, f, sc).gen.ctrl == s.gen.ctrl
  {
    hide Without;
  }

  lemma VisitProtects(pr: Progress, v: Visit, sc: Scan)
    requires pr.s.gen.ctrl.Shaped() && sc.curr < |pr.s.lists| && sc.next < |pr.s.lists|
    ensures var c, c' := pr.s.gen.ctrl, VisitNode(pr, v, sc).s.gen.ctrl;
            && c' == c.(protect := c'.protect) && c'.Shaped()
            && (forall t :: 1 <= t < MAX_NR_TIERS ==>
                  c'.protect[t - 1] == c.protect[t - 1] + if Protects(pr, v, sc, t) then 1 else 0)
  {
    hide Promote, TierFromRefs, Without;
    if v.folio in pr.s.meta {
      PromoteKeepsCtrl(ProtectBump(pr.s, TierFromRefs(pr.s.meta[v.folio].accesses)), v.folio, sc);
      PromoteKeepsCtrl(pr.s, v.folio, sc);
    }
  }

  lemma {:induction false} PassProtects(pr: Progress, visits: seq<Visit>, sc: Scan)
    requires pr.s.gen.ctrl.Shaped() && sc.curr < |pr.s.lists| && sc.next < |pr.s.lists|
    ensures var c, c' := pr.s.gen.ctrl, Pass(pr, visits, sc).s.gen.ctrl;
            && c' == c.(protect := c'.protect) && c'.Shaped()
            && (forall t :: 1 <= t < MAX_NR_TIERS ==>
                  c'.protect[t - 1] == c.protect[t - 1] + Protections(pr, visits, sc, t))
            && Protections(pr, visits, sc, 0) == 0
    decreases |visits|
  {
    hide VisitNode;
    if visits != [] {
      var n := |visits| - 1;
      PassProtects(pr, visits[..n], sc);
      VisitProtects(Pass(pr, visits[..n], sc), visits[n], sc);
    }
  }

  /** A retirement, and nothing else, resets the controller. */
  lemma RotateResets(g: Gen)
    requires g.Shaped() && WindowOk(g)
    ensures Rotate(g).ctrl == if g.maxSeq == g.minSeq + 3 && g.Pages(g.Slot(g.minSeq)) <= ALMOST_EMPTY
                              then Halved(g.ctrl) else g.ctrl
  {
    hide Halved;
  }

  lemma CallCounted(s: State, e: Event)
    requires Sized(s) && WindowOk(s.gen) && e.Evict?
    ensures Next(s, e).gen.ctrl.Shaped() && Counted(Base(s, e), Next(s, e).gen.ctrl, s, e)
  {
    hide Rotate, TierThreshold, Pass, Halved;
    RotateResets(s.gen);
    var (start, sc) := CallStart(s, e.request);
    var pr := Progress(start, []);
    PassProtects(pr, e.it.visits1, sc);
    PassProtects(Pass(pr, e.it.visits1, sc), e.it.visits2, sc);
  }

  lemma StepCounted(s: State, e: Event)
    requires Sized(s) && WindowOk(s.gen) && Enabled(s, e)
    ensures Next(s, e).gen.ctrl.Shaped() && Counted(Base(s, e), Next(s, e).gen.ctrl, s, e)
  {
    match e
    case FolioAdded(_, _, _, _, _) => AddCounted(s, e);
    case FolioEvicted(_, _) => EvictionCounted(s, e);
    case Evict(_, _) => CallCounted(s, e);
    case _ =>
  }

  // ---------------------------------------------------------------- the counters of a run

  /** How often it happened from event r on, before event n. */
  ghost function Happened(es: seq<Event>, states: seq<State>, r: nat, n: nat, k: Kind, t: nat): nat
    requires IsRun(es, states) && r <= n <= |es|
  {
    if r == n then 0 else Happened(es, states, r, n - 1, k, t) + Amount(states[n - 1], es[n - 1], k, t)
  }

  /** Event r retired last before event n, or nothing did and r is the start. */
  ghost predicate LastRetired(es: seq<Event>, states: seq<State>, r: nat, n: nat)
    requires IsRun(es, states) && n <= |es|
  {
    && r <= n && (r == 0 || (r < n && Retires(states[r], es[r])))
    && forall i :: r < i < n ==> !Retires(states[i], es[i])
  }

  /** The counters are exactly what happened to each tier since the last retirement, which the
      retiring call's own protections follow. */
  ghost predicate Since(es: seq<Event>, states: seq<State>, r: nat, n: nat)
    requires IsRun(es, states) && r <= n <= |es|
  {
    var c := states[n].gen.ctrl;
    && c.Shaped()
    && (forall t :: 0 <= t < MAX_NR_TIERS ==> c.refaulted[t] == Happened(es, states, r, n, Refaulting, t))
    && (forall t :: 0 <= t < MAX_NR_TIERS ==> c.evicted[t] == Happened(es, states, r, n, Evicting, t))
    && (forall t :: 1 <= t < MAX_NR_TIERS ==> c.protect[t - 1] == Happened(es, states, r, n, Protecting, t))
    && Happened(es, states, r, n, Protecting, 0) == 0
  }

  lemma WindowAt(es: seq<Event>, states: seq<State>, n: nat)
    requires IsRun(es, states) && n <= |es|
    ensures Always(states[n])
  {
    StatesReached(es, states, n);
    RunsKeepAlways(es[..n], states[n]);
  }

  lemma {:induction false} CountersSinceRetirement(es: seq<Event>, states: seq<State>, r: nat, n: nat)
    requires IsRun(es, states) && n <= |es| && LastRetired(es, states, r, n)
    ensures Since(es, states, r, n)
    decreases n
  {
    hide Sized, Enabled, Next, Amount, Always, Retires;
    if n > r {
      var s, e := states[n - 1], es[n - 1];
      WindowAt(es, states, n - 1);
      AlwaysWindow(s);
      StepCounted(s, e);
      if r < n - 1 {
        CountersSinceRetirement(es, states, r, n - 1);
        assert Base(s, e) == s.gen.ctrl;
      } else {
        FromReset(s, e, r);
      }
      HappenedNext(es, states, r, n);
      hide Happened;
    }
  }

  lemma HappenedNext(es: seq<Event>, states: seq<State>, r: nat, n: nat)
    requires IsRun(es, states) && r < n <= |es|
    ensures var s, e := states[n - 1], es[n - 1];
            forall k, t ::
              Happened(es, states, r, n, k, t) == Happened(es, states, r, n - 1, k, t) + Amount(s, e, k, t)
    ensures forall k, t :: Happened(es, states, r, r, k, t) == 0
  {
    hide Sized, Enabled, Next, Amount;
  }

  lemma AlwaysWindow(s: State)
    requires Always(s)
    ensures WindowOk(s.gen)
  {
  }

  /** After a reset, and at the start, the counters start at zero. */
  lemma FromReset(s: State, e: Event, r: nat)
    requires Sized(s) && (Retires(s, e) || s == Init())
    ensures var c := Base(s, e);
            && (forall t :: 0 <= t < MAX_NR_TIERS ==> c.refaulted[t] == 0 && c.evicted[t] == 0)
            && (forall t :: 0 <= t < MAX_NR_TIERS - 1 ==> c.protect[t] == 0)
  {
    hide Retires;
  }

  // ---------------------------------------------------------------- the readings

  ghost function Carried(s: State, e: Event, x: nat): nat
    requires Sized(s)
  {
    if Retires(s, e) then x / 2 else x
  }

  /** What the controller should report of a tier: refaults, and pages evicted or protected, each
      halved at every retirement. */
  ghost function Heard(es: seq<Event>, states: seq<State>, n: nat, t: nat, gain: nat): CtrlPos
    requires IsRun(es, states) && n <= |es|
  {
    if n == 0 then CtrlPos(0, 0, gain)
    else
      var before, s, e := Heard(es, states, n - 1, t, gain), states[n - 1], es[n - 1];
      CtrlPos(Carried(s, e, before.refaulted) + Amount(s, e, Refaulting, t),
              Carried(s, e, before.total) + Amount(s, e, Evicting, t) + Amount(s, e, Protecting, t),
              gain)
  }

  /** One event at any point of a run: a refault raises the refaults read for the page's own tier
      by one, an eviction or a protection the total, and nothing else moves but by halving. */
  lemma ReadingStep(s: State, e: Event, t: nat, gain: nat)
    requires Sized(s) && WindowOk(s.gen) && Enabled(s, e) && t < MAX_NR_TIERS
    ensures var was, c := Reading(s.gen.ctrl, t, gain), Next(s, e).gen.ctrl;
            && c.Shaped()
            && Reading(c, t, gain)
               == CtrlPos(Carried(s, e, was.refaulted) + Amount(s, e, Refaulting, t),
                          Carried(s, e, was.total) + Amount(s, e, Evicting, t) + Amount(s, e, Protecting, t), gain)
  {
    hide Next, Enabled, Amount, Retires, Halved;
    StepCounted(s, e);
    HalvedReading(s.gen.ctrl, t, gain);
  }

  /** In every run the controller's readings are the refaults and the pages evicted or protected
      of each tier, halved at each retirement. */
  lemma {:induction false} ReadingsExactly(es: seq<Event>, states: seq<State>, n: nat, t: nat, gain: nat)
    requires IsRun(es, states) && n <= |es| && t < MAX_NR_TIERS
    ensures states[n].gen.ctrl.Shaped() && Reading(states[n].gen.ctrl, t, gain) == Heard(es, states, n, t, gain)
  {
    hide Sized, Enabled, Next, Amount, Always, Retires, WindowOk;
    if n > 0 {
      hide Reading;
      ReadingsExactly(es, states, n - 1, t, gain);
      WindowAt(es, states, n - 1);
      AlwaysWindow(states[n - 1]);
      ReadingStep(states[n - 1], es[n - 1], t, gain);
    }
  }

  /** A tracked add of a page remembered at some tier raises the refaults read for that tier by
      one, and nothing else that is read. */
  lemma RefaultHeard(s: State, e: Event, t: nat, gain: nat)
    requires Sized(s) && Enabled(s, e) && Tracks(s, e) && KeyOf(e.page) in s.ghosts && t < MAX_NR_TIERS
    ensures var was, c := Reading(s.gen.ctrl, t, gain), Next(s, e).gen.ctrl;
            && c.Shaped()
            && Reading(c, t, gain)
               == was.(refaulted := was.refaulted + if t == s.ghosts[KeyOf(e.page)] then 1 else 0)
  {
    AddCounted(s, e);
    hide Next, Enabled;
  }

  // ---------------------------------------------------------------- what a page is remembered by

  /** The event stores the page's tier under its key. */
  ghost predicate Remembers(s: State, e: Event, k: PageKey) {
    Forgets(s, e) && e.ghostOk && KeyOf(s.resident[e.folio]) == k
  }

  /** Event i is the last that stored key k, and it stored the tier that is remembered. */
  ghost predicate StoredAt(es: seq<Event>, states: seq<State>, n: nat, k: PageKey, i: nat)
    requires IsRun(es, states) && n <= |es| && k in states[n].ghosts
  {
    && i < n && Remembers(states[i], es[i], k)
    && states[n].ghosts[k] == TierFromRefs(states[i].meta[es[i].folio].accesses)
    && forall j :: i < j < n ==> !Remembers(states[j], es[j], k)
  }

  lemma {:induction false} PassKeepsGhosts(pr: Progress, visits: seq<Visit>, sc: Scan)
    requires sc.curr < |pr.s.lists| && sc.next < |pr.s.lists|
    ensures Pass(pr, visits, sc).s.ghosts == pr.s.ghosts && SameFolios(pr.s.meta, Pass(pr, visits, sc).s.meta)
    decreases |visits|
  {
    hide VisitNode;
    if visits != [] {
      var n := |visits| - 1;
      PassKeepsGhosts(pr, visits[..n], sc);
      VisitKeepsGhosts(Pass(pr, visits[..n], sc), visits[n], sc);
    }
  }

  lemma VisitKeepsGhosts(pr: Progress, v: Visit, sc: Scan)
    requires sc.curr < |pr.s.lists| && sc.next < |pr.s.lists|
    ensures VisitNode(pr, v, sc).s.ghosts == pr.s.ghosts && SameFolios(pr.s.meta, VisitNode(pr, v, sc).s.meta)
  {
    hide Promote, TierFromRefs, Without;
    if v.folio in pr.s.meta {
      PromoteKeepsGhosts(ProtectBump(pr.s, TierFromRefs(pr.s.meta[v.folio].accesses)), v.folio, sc);
      PromoteKeepsGhosts(pr.s, v.folio, sc);
    }
  }

  lemma PromoteKeepsGhosts(s: State, f: Folio, sc: Scan)
    requires f in s.meta && sc.curr < |s.lists| && sc.next < |s.lists|
    ensures Promote(s, f, sc).ghosts == s.ghosts && SameFolios(s.meta, Promote(s, f, sc).meta)
  {
    hide Without;
  }

  lemma CallKeepsGhosts(s: State, request: nat, it: Iteration)
    requires s.gen.Shaped() && |s.lists| == MAX_NR_GENS
    ensures var s' := EvictFolios(s, request, it);
            s'.ghosts == s.ghosts && SameFolios(s.meta, s'.meta)
  {
    hide Rotate, TierThreshold, Pass;
    var (start, sc) := CallStart(s, request);
    PassKeepsGhosts(Progress(start, []), it.visits1, sc);
    PassKeepsGhosts(Pass(Progress(start, []), it.visits1, sc), it.visits2, sc);
  }

  /** Events add to the ghost map and change it only by remembering. */
  lemma GhostStep(s: State, e: Event, k: PageKey)
    requires Sized(s) && Enabled(s, e) && k in Next(s, e).ghosts
    ensures if Remembers(s, e, k) then Next(s, e).ghosts[k] == TierFromRefs(s.meta[e.folio].accesses)
            else k in s.ghosts && Next(s, e).ghosts[k] == s.ghosts[k]
  {
    hide TierFromRefs, DropFromLists, Bump;
    match e
    case FolioAdded(f, p, fl, _, listOk) =>
      if Tracks(s, e) {
        var s1 := InsertSteps(s, f, p, fl, listOk);
        RefaultCounted(s1, KeyOf(p));
      }
      hide LruGenAdd, Refault;
    case Evict(request, it) =>
      CallKeepsGhosts(s, request, it);
      hide EvictFolios;
    case _ =>
  }

  /** In every run the tier a page is remembered by is its tier when the hook last saw it evicted
      and had room for it. */
  lemma {:induction false} GhostTierExactly(es: seq<Event>, states: seq<State>, n: nat, k: PageKey) returns (i: nat)
    requires IsRun(es, states) && n <= |es| && k in states[n].ghosts
    ensures StoredAt(es, states, n, k, i)
  {
    hide Sized, Enabled, Next, TierFromRefs;
    GhostStep(states[n - 1], es[n - 1], k);
    if Remembers(states[n - 1], es[n - 1], k) {
      i := n - 1;
    } else {
      i := GhostTierExactly(es, states, n - 1, k);
    }
  }

  // ---------------------------------------------------------------- where a folio goes

  /** The sequence number a new folio gets: the youngest if metadata left at its address says it is
      active, the one below if it is being reclaimed while dirty or written back, and else the
      oldest of three generations or the second oldest of four. */
  ghost function AddTo(s: State, e: Event): int
    requires e.FolioAdded?
  {
    if e.folio in s.meta && TierFromRefs(s.meta[e.folio].accesses) > 0 then s.gen.maxSeq
    else if e.flags.reclaim && (e.flags.dirty || e.flags.writeback) then s.gen.maxSeq - 1
    else if s.gen.maxSeq - s.gen.minSeq == 2 then s.gen.minSeq
    else s.gen.maxSeq - 2
  }

  /** At any point of any run a tracked add counts one access, records the generation, and puts
      the folio at the head of its list unless that insertion fails. */
  lemma AddGoesExactly(s: State, e: Event)
    requires Always(s) && Sized(s) && Enabled(s, e) && Tracks(s, e)
    ensures var r, g := Next(s, e), AddTo(s, e) % MAX_NR_GENS;
            && s.gen.minSeq <= AddTo(s, e) <= s.gen.maxSeq
            && r.meta == s.meta[e.folio := FolioMeta(1, g)]
            && r.lists == (if e.listOk then s.lists[g := [e.folio] + s.lists[g]] else s.lists)
  {
    AddEffect(s, e.folio, e.page, e.flags, e.listOk);
    hide LruGenAdd;
  }

  // ---------------------------------------------------------------- access counts

  ghost predicate TracksFolio(s: State, e: Event, f: Folio) {
    Tracks(s, e) && e.folio == f
  }

  /** An access that is seen. */
  ghost predicate Uses(s: State, e: Event, f: Folio) {
    e.FolioAccessed? && e.folio == f && f in s.resident && InWatchlist(s.watch, s.resident[f].ino)
  }

  ghost function Used(es: seq<Event>, states: seq<State>, r: nat, n: nat, f: Folio): nat
    requires IsRun(es, states) && r <= n <= |es|
  {
    if r == n then 0 else Used(es, states, r, n - 1, f) + if Uses(states[n - 1], es[n - 1], f) then 1 else 0
  }

  lemma MetaStep(s: State, e: Event, f: Folio)
    requires Sized(s) && Enabled(s, e) && f in Next(s, e).meta
    ensures var m := Next(s, e).meta[f];
            if TracksFolio(s, e, f) then m.accesses == 1
            else f in s.meta && m.accesses == s.meta[f].accesses + if Uses(s, e, f) then 1 else 0
  {
    hide TierFromRefs, DropFromLists;
    match e
    case FolioAdded(g, p, fl, metaOk, listOk) =>
      if Tracks(s, e) {
        var s1 := InsertSteps(s, g, p, fl, listOk);
      }
      hide LruGenAdd;
    case Evict(request, it) =>
      CallKeepsGhosts(s, request, it);
      hide EvictFolios;
    case _ =>
  }

  /** In every run the access count of a folio is one more than the accesses seen since it was
      last tracked. */
  lemma {:induction false} AccessesExactly(es: seq<Event>, states: seq<State>, n: nat, f: Folio) returns (a: nat)
    requires IsRun(es, states) && n <= |es| && f in states[n].meta
    ensures a < n && TracksFolio(states[a], es[a], f)
    ensures forall j :: a < j < n ==> !TracksFolio(states[j], es[j], f)
    ensures states[n].meta[f].accesses == 1 + Used(es, states, a + 1, n, f)
  {
    hide Sized, Enabled, Next;
    MetaStep(states[n - 1], es[n - 1], f);
    if TracksFolio(states[n - 1], es[n - 1], f) {
      a := n - 1;
    } else {
      a := AccessesExactly(es, states, n - 1, f);
    }
  }

  // ---------------------------------------------------------------- the totals

  ghost predicate TotalsGrow(s: State, e: Event)
    requires Sized(s) && Enabled(s, e)
  {
    var h, h' := s.hist, Next(s, e).hist;
    && |h'.refaults| == |h'.evictions| == MAX_NR_TIERS
    && forall t :: 0 <= t < MAX_NR_TIERS ==>
         && h'.refaults[t] == h.refaults[t] + Amount(s, e, Refaulting, t)
         && h'.evictions[t] == h.evictions[t] + Amount(s, e, Evicting, t)
  }

  lemma AddTotals(s: State, e: Event)
    requires Sized(s) && Enabled(s, e) && e.FolioAdded?
    ensures TotalsGrow(s, e)
  {
    hide LruGenAdd, CallProtections;
    if Tracks(s, e) {
      var s1 := InsertSteps(s, e.folio, e.page, e.flags, e.listOk);
      RefaultCounted(s1, KeyOf(e.page));
      hide Refault;
    } else {
      UntrackedAdd(s, e);
    }
  }

  lemma EvictionTotals(s: State, e: Event)
    requires Sized(s) && Enabled(s, e) && e.FolioEvicted?
    ensures TotalsGrow(s, e)
  {
    hide Forget, TierFromRefs, DropFromLists, CallProtections;
    if Forgets(s, e) {
      ForgetCounted(s, e.folio, s.resident[e.folio], e.ghostOk);
    } else {
      UnseenEvictionKeeps(s, e);
    }
  }

  lemma CallTotals(s: State, request: nat, it: Iteration)
    requires s.gen.Shaped() && |s.lists| == MAX_NR_GENS
    ensures var h := EvictFolios(s, request, it).hist;
            h.refaults == s.hist.refaults && h.evictions == s.hist.evictions
  {
    hide Rotate, TierThreshold, Pass;
    var (start, sc) := CallStart(s, request);
    PassKeepsTotals(Progress(start, []), it.visits1, sc);
    PassKeepsTotals(Pass(Progress(start, []), it.visits1, sc), it.visits2, sc);
  }

  lemma TotalsStep(s: State, e: Event)
    requires Sized(s) && Enabled(s, e)
    ensures TotalsGrow(s, e)
  {
    hide CallProtections;
    match e
    case FolioAdded(_, _, _, _, _) => AddTotals(s, e);
    case FolioEvicted(_, _) => EvictionTotals(s, e);
    case Evict(request, it) =>
      CallTotals(s, request, it);
      hide EvictFolios;
    case _ =>
  }

  /** The totals of the ledger are what happened in the whole run. */
  lemma {:induction false} TotalsExactly(es: seq<Event>, states: seq<State>, n: nat, t: nat)
    requires IsRun(es, states) && n <= |es| && t < MAX_NR_TIERS
    ensures var h := states[n].hist;
            && |h.refaults| == |h.evictions| == MAX_NR_TIERS
            && h.refaults[t] == Happened(es, states, 0, n, Refaulting, t)
            && h.evictions[t] == Happened(es, states, 0, n, Evicting, t)
  {
    hide Sized, Enabled, Next, Amount;
    if n > 0 {
      TotalsExactly(es, states, n - 1, t);
      TotalsStep(states[n - 1], es[n - 1]);
    }
  }

  // ---------------------------------------------------------------- calls

  /** The event is an eviction call that protects the tiers above t: those up to t pass on what the
      controller holds once the oldest generation was retired or not. */
  ghost predicate CalledWith(s: State, e: Event, t: nat)
    requires Sized(s)
  {
    e.Evict? && LongestPassingPrefix(Base(s, e), t)
  }

  ghost function Calls(es: seq<Event>, states: seq<State>, n: nat, t: nat): nat
    requires IsRun(es, states) && n <= |es|
  {
    if n == 0 then 0 else Calls(es, states, n - 1, t) + if CalledWith(states[n - 1], es[n - 1], t) then 1 else 0
  }

  lemma CallSelects(s: State, request: nat, it: Iteration, t: nat)
    requires Sized(s) && WindowOk(s.gen) && t < MAX_NR_TIERS
    ensures var r := EvictFolios(s, request, it).stats.tierSelected;
            && |r| == MAX_NR_TIERS
            && r[t] == s.stats.tierSelected[t] + if t == TierThreshold(Rotate(s.gen).ctrl) then 1 else 0
  {
    hide Rotate, TierThreshold, Pass;
    var (start, sc) := CallStart(s, request);
    PassKeepsTotals(Progress(start, []), it.visits1, sc);
    PassKeepsTotals(Pass(Progress(start, []), it.visits1, sc), it.visits2, sc);
  }

  lemma OneThreshold(c: Ctrl, t: nat)
    requires c.Shaped()
    ensures LongestPassingPrefix(c, t) <==> t == TierThreshold(c)
  {
    hide TierPasses;
  }

  lemma SelectedStep(s: State, e: Event, t: nat)
    requires Sized(s) && WindowOk(s.gen) && Enabled(s, e) && t < MAX_NR_TIERS
    ensures var r := Next(s, e).stats.tierSelected;
            && |r| == MAX_NR_TIERS
            && r[t] == s.stats.tierSelected[t] + if CalledWith(s, e, t) then 1 else 0
  {
    match e
    case FolioAdded(_, _, _, _, _) => AddKeepsStats(s, e);
    case Evict(request, it) =>
      CallSelects(s, request, it, t);
      RotateResets(s.gen);
      OneThreshold(Base(s, e), t);
      hide EvictFolios, Rotate, TierThreshold, Halved, LongestPassingPrefix;
    case _ =>
  }

  lemma AddKeepsStats(s: State, e: Event)
    requires Sized(s) && Enabled(s, e) && e.FolioAdded?
    ensures Next(s, e).stats == s.stats
  {
    hide AddSeq, FolioActive, Refault;
    if Tracks(s, e) {
      var g := AddSeq(s.gen, FolioActive(s.meta, e.folio), e.flags) % MAX_NR_GENS;
      RefaultOnly(AddPages(Clobber(s, e.folio).(meta := s.meta[e.folio := FolioMeta(1, g)]), g, 1), KeyOf(e.page));
    }
  }

  /** The tier statistics count every eviction call once, at the threshold it used. */
  lemma {:induction false} SelectedExactly(es: seq<Event>, states: seq<State>, n: nat, t: nat)
    requires IsRun(es, states) && n <= |es| && t < MAX_NR_TIERS
    ensures var r := states[n].stats.tierSelected;
            |r| == MAX_NR_TIERS && r[t] == Calls(es, states, n, t)
  {
    hide Sized, Enabled, Next, Always, WindowOk, CalledWith;
    if n > 0 {
      SelectedExactly(es, states, n - 1, t);
      WindowAt(es, states, n - 1);
      AlwaysWindow(states[n - 1]);
      SelectedStep(states[n - 1], es[n - 1], t);
    }
  }
}
