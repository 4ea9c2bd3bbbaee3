/** The MGLRU policy as a state machine over its kernel hooks, and what every run keeps.
    The state joins the policy's own maps and counters with the kernel facts the hooks rest
    on: which folios are resident, the lists, and the inode watchlist. */
module Mglru {
  import opened Lists
  import opened PageCache
  import opened DirWatcher
  import opened MglruGen

  /** What a resident folio maps: its address space (host), offset and inode number. */
  datatype Page = Page(host: nat, index: nat, ino: nat)

  function KeyOf(p: Page): PageKey {
    PageKey(p.host, p.index)
  }

  datatype FolioMeta = FolioMeta(accesses: int, gen: nat)

  datatype Flags = Flags(unevictable: bool, reclaim: bool, dirty: bool, writeback: bool)

  /** One node shown to the eviction callback; pinned when locked, dirty or under writeback. */
  datatype Visit = Visit(folio: Folio, pinned: bool)

  datatype Stats = Stats(tierSelected: seq<nat>, success: nat, failed: nat)

  /** Totals since the start of the run, for stating conservation: per tier the evictions seen,
      the refaults and the ghosts lost; the folios requested, and those requested by calls that
      gave up; the evictions of tracked folios that the hook ignored, their inode being no longer
      watched; and per slot the metadata entries that an add found at its own address and
      overwrote. No hook reads them. */
  datatype History = History(evictions: seq<nat>, refaults: seq<nat>, dropped: seq<nat>,
                             requested: nat, aborted: nat, unseen: nat, clobbered: seq<nat>)

  datatype State = State(gen: Gen, meta: map<Folio, FolioMeta>, lists: seq<seq<Folio>>,
                         ghosts: map<PageKey, nat>, watch: Watchlist,
                         resident: map<Folio, Page>, stats: Stats, hist: History)

  // ---------------------------------------------------------------- tiers

  /** The conversion of a 64-bit access count to int. */
  function AsInt32(x: int): int {
    (x + 0x8000_0000) % 0x1_0000_0000 - 0x8000_0000
  }

  function OrderBase2(n: int): (r: nat)
    ensures r < MAX_NR_TIERS
  {
    if n <= 1 then 0 else if n <= 3 then 1 else if n <= 7 then 2 else 3
  }

  function TierFromRefs(accesses: int): (r: nat)
    ensures r < MAX_NR_TIERS
  {
    OrderBase2(AsInt32(accesses))
  }

  // ---------------------------------------------------------------- folio_added

  /** The sequence number chosen for a new folio. */
  function AddSeq(g: Gen, active: bool, fl: Flags): int {
    if active then g.maxSeq
    else if fl.reclaim && (fl.dirty || fl.writeback) then g.maxSeq - 1
    else if g.minSeq + MIN_NR_GENS >= g.maxSeq then g.minSeq
    else g.minSeq + 1
  }

  predicate FolioActive(meta: map<Folio, FolioMeta>, f: Folio) {
    f in meta && AsInt32(meta[f].accesses) >= 2
  }

  ghost function Bump(s: seq<nat>, t: nat): (r: seq<nat>)
    ensures |r| == |s|
  {
    if t < |s| then s[t := s[t] + 1] else s
  }

  /** folio_in_ghost and the refault it records: the entry's tier is read, then the entry is
      deleted. */
  ghost function Refault(s: State, k: PageKey): State {
    if k !in s.ghosts then s
    else
      var tier := s.ghosts[k];
      s.(ghosts := s.ghosts - {k},
         gen := s.gen.(ctrl := s.gen.ctrl.(refaulted := Bump(s.gen.ctrl.refaulted, tier))),
         hist := s.hist.(refaults := Bump(s.hist.refaults, tier)))
  }

  ghost function AddPages(s: State, g: nat, delta: int): State {
    if g < |s.gen.nrPages|
    then s.(gen := s.gen.(nrPages := s.gen.nrPages[g := s.gen.nrPages[g] + delta]))
    else s
  }

  ghost function Clobber(s: State, f: Folio): State {
    if f in s.meta then s.(hist := s.hist.(clobbered := Bump(s.hist.clobbered, s.meta[f].gen))) else s
  }

  /** lru_gen_add_folio. Either insertion may fail; a failed list insertion leaves the
      metadata and the counter in place. */
  ghost function LruGenAdd(s: State, f: Folio, p: Page, fl: Flags, metaOk: bool, listOk: bool): State {
    if fl.unevictable || !metaOk then s
    else
      var g := AddSeq(s.gen, FolioActive(s.meta, f), fl) % MAX_NR_GENS;
      var s1 := AddPages(Clobber(s, f).(meta := s.meta[f := FolioMeta(1, g)]), g, 1);
      var s2 := Refault(s1, KeyOf(p));
      if listOk && g < |s2.lists| then s2.(lists := s2.lists[g := [f] + s2.lists[g]]) else s2
  }

  ghost function Added(s: State, f: Folio, p: Page, fl: Flags, metaOk: bool, listOk: bool): State {
    var s1 := if InWatchlist(s.watch, p.ino) then LruGenAdd(s, f, p, fl, metaOk, listOk) else s;
    s1.(resident := s.resident[f := p])
  }

  // ---------------------------------------------------------------- folio_accessed

  ghost function Accessed(s: State, f: Folio): State {
    if f in s.resident && InWatchlist(s.watch, s.resident[f].ino) && f in s.meta
    then s.(meta := s.meta[f := s.meta[f].(accesses := s.meta[f].accesses + 1)])
    else s
  }

  // ---------------------------------------------------------------- folio_evicted

  /** The hook itself: ghost entry (its insertion may fail), counters, metadata removal. */
  ghost function Forget(s: State, f: Folio, p: Page, ghostOk: bool): State {
    if f !in s.meta then s
    else
      var tier := TierFromRefs(s.meta[f].accesses);
      var s1 := s.(ghosts := if ghostOk then s.ghosts[KeyOf(p) := tier] else s.ghosts,
                   gen := s.gen.(ctrl := s.gen.ctrl.(evicted := Bump(s.gen.ctrl.evicted, tier))),
                   hist := s.hist.(evictions := Bump(s.hist.evictions, tier),
                                   dropped := if ghostOk then s.hist.dropped else Bump(s.hist.dropped, tier)));
      AddPages(s1, s.meta[f].gen, -1).(meta := s.meta - {f})
  }

  ghost function DropFromLists(lists: seq<seq<Folio>>, f: Folio): (r: seq<seq<Folio>>)
    ensures |r| == |lists|
    ensures forall g :: 0 <= g < |lists| ==> r[g] == Without(lists[g], f)
  {
    seq(|lists|, g requires 0 <= g < |lists| => Without(lists[g], f))
  }

  /** The eviction of f reaches the hook if f matters to it: its inode is watched, or f has no
      metadata anyway. */
  predicate Seen(meta: map<Folio, FolioMeta>, resident: map<Folio, Page>, watch: Watchlist, f: Folio)
    requires f in resident
  {
    f in meta ==> InWatchlist(watch, resident[f].ino)
  }

  /** The hook, then the kernel drops the folio from its lists and from memory. */
  ghost function Evicted(s: State, f: Folio, ghostOk: bool): State
    requires f in s.resident
  {
    var p := s.resident[f];
    var s1 := if InWatchlist(s.watch, p.ino) then Forget(s, f, p, ghostOk)
              else if f in s.meta then s.(hist := s.hist.(unseen := s.hist.unseen + 1))
              else s;
    s1.(lists := DropFromLists(s1.lists, f), resident := s1.resident - {f})
  }

  /** The LRU hash map may drop any ghost entry at any time. */
  ghost function GhostDropped(s: State, k: PageKey): State {
    if k !in s.ghosts then s
    else s.(ghosts := s.ghosts - {k}, hist := s.hist.(dropped := Bump(s.hist.dropped, s.ghosts[k])))
  }

  // ---------------------------------------------------------------- evict_folios

  /** An eviction call in progress: the state and the folios chosen so far. */
  datatype Progress = Progress(s: State, selected: seq<Folio>)

  datatype Scan = Scan(curr: nat, next: nat, threshold: nat, request: nat)

  ghost function Promote(s: State, f: Folio, sc: Scan): State
    requires f in s.meta && sc.curr < |s.lists| && sc.next < |s.lists|
  {
    var s1 := AddPages(AddPages(s, sc.curr, -1), sc.next, 1);
    var drained := s1.lists[sc.curr := Without(s1.lists[sc.curr], f)];
    s1.(meta := s1.meta[f := s1.meta[f].(gen := sc.next)],
        lists := drained[sc.next := drained[sc.next] + [f]])
  }

  ghost function ProtectBump(s: State, tier: nat): State {
    s.(gen := s.gen.(ctrl := s.gen.ctrl.(protect := if tier > 0 then Bump(s.gen.ctrl.protect, tier - 1)
                                                    else s.gen.ctrl.protect)))
  }

  ghost function Select(pr: Progress, f: Folio, sc: Scan): Progress
    requires sc.curr < |pr.s.lists|
  {
    var l := pr.s.lists[sc.curr];
    Progress(pr.s.(lists := pr.s.lists[sc.curr := Without(l, f) + [f]]), pr.selected + [f])
  }

  /** One node of the oldest list: protected tiers and pinned folios move to the next
      generation, any other folio is chosen. Nothing happens once the request is full. */
  ghost function VisitNode(pr: Progress, v: Visit, sc: Scan): Progress
    requires sc.curr < |pr.s.lists| && sc.next < |pr.s.lists|
  {
    var s := pr.s;
    if |pr.selected| >= sc.request || v.folio !in s.lists[sc.curr] then pr
    else if v.folio !in s.meta then Select(pr, v.folio, sc)
    else
      var tier := TierFromRefs(s.meta[v.folio].accesses);
      if tier > sc.threshold then Progress(Promote(ProtectBump(s, tier), v.folio, sc), pr.selected)
      else if v.pinned then Progress(Promote(s, v.folio, sc), pr.selected)
      else Select(pr, v.folio, sc)
  }

  /** A pass shows the callback any sequence of nodes of the oldest list. */
  ghost function Pass(pr: Progress, visits: seq<Visit>, sc: Scan): (r: Progress)
    requires sc.curr < |pr.s.lists| && sc.next < |pr.s.lists|
    ensures |r.s.lists| == |pr.s.lists|
    decreases |visits|
  {
    if visits == [] then pr
    else
      var n := |visits| - 1;
      var before := Pass(pr, visits[..n], sc);
      VisitNode(before, visits[n], sc)
  }

  /** What the kernel's list iterations do during one eviction call: the nodes shown in each
      pass, and whether each call reports success. */
  datatype Iteration = Iteration(visits1: seq<Visit>, ok1: bool, visits2: seq<Visit>, ok2: bool)

  ghost function Shortfall(request: nat, n: nat): nat {
    if request > n then request - n else 0
  }

  ghost function Account(s: State, request: nat, n: nat): State {
    s.(stats := s.stats.(success := s.stats.success + n, failed := s.stats.failed + Shortfall(request, n)))
  }

  ghost function Abort(s: State, request: nat): State {
    s.(hist := s.hist.(aborted := s.hist.aborted + request))
  }

  ghost function Requested(s: State, request: nat): State {
    s.(hist := s.hist.(requested := s.hist.requested + request))
  }

  /** The oldest slot is drained, and promotion is into the next one. */
  ghost function ScanOf(g: Gen, t: nat, request: nat): (sc: Scan)
    ensures sc.curr < MAX_NR_GENS && sc.next < MAX_NR_GENS && sc.request == request
  {
    Scan(g.Slot(g.minSeq), (g.Slot(g.minSeq) + 1) % MAX_NR_GENS, t, request)
  }

  ghost function CountTier(s: State, t: nat): State {
    s.(stats := s.stats.(tierSelected := Bump(s.stats.tierSelected, t)))
  }

  /** evict_folios after the window has been rotated, scanning with threshold t. */
  ghost function ScanTwice(s: State, t: nat, request: nat, it: Iteration): State
    requires |s.lists| == MAX_NR_GENS
  {
    var sc := ScanOf(s.gen, t, request);
    var pr1 := Pass(Progress(CountTier(s, t), []), it.visits1, sc);
    if !it.ok1 then Abort(pr1.s, request)
    else if |pr1.selected| >= request then Account(pr1.s, request, |pr1.selected|)
    else
      var pr2 := Pass(pr1, it.visits2, sc);
      if !it.ok2 then Abort(pr2.s, request) else Account(pr2.s, request, |pr2.selected|)
  }

  ghost function TierThreshold(c: Ctrl): (r: nat)
    requires c.Shaped()
    ensures LongestPassingPrefix(c, r)
  {
    if !TierPasses(c, 1) then 0 else if !TierPasses(c, 2) then 1 else if !TierPasses(c, 3) then 2 else 3
  }

  /** Every call is counted as a request, whatever becomes of it. */
  ghost function EvictFolios(s: State, request: nat, it: Iteration): State
    requires s.gen.Shaped() && |s.lists| == MAX_NR_GENS
  {
    var s1 := s.(gen := Rotate(s.gen));
    Requested(ScanTwice(s1, TierThreshold(s1.gen.ctrl), request, it), request)
  }

  // ---------------------------------------------------------------- runs

  datatype Event =
    | Open(ino: nat, tag: nat, deleteOk: bool, updateOk: bool)
    | FolioAdded(folio: Folio, page: Page, flags: Flags, metaOk: bool, listOk: bool)
    | FolioAccessed(folio: Folio)
    | FolioEvicted(folio: Folio, ghostOk: bool)
    | GhostDrop(key: PageKey)
    | Evict(request: nat, it: Iteration)

  function Init(): State {
    State(Gen(0, MIN_NR_GENS + 1, [0, 0, 0, 0],
              Ctrl([0, 0, 0, 0], [0, 0, 0, 0], [0, 0, 0], [0, 0, 0, 0], [0, 0, 0, 0])),
          map[], [[], [], [], []], map[], map[], map[],
          Stats([0, 0, 0, 0], 0, 0), History([0, 0, 0, 0], [0, 0, 0, 0], [0, 0, 0, 0], 0, 0, 0, [0, 0, 0, 0]))
  }

  ghost predicate Sized(s: State) {
    && s.gen.Shaped()
    && |s.lists| == MAX_NR_GENS
    && |s.stats.tierSelected| == |s.hist.evictions| == |s.hist.refaults| == |s.hist.dropped| == MAX_NR_TIERS
    && |s.hist.clobbered| == MAX_NR_GENS
  }

  /** The kernel's side of the contract: only non-resident folios are added, and resident folios
      have distinct keys. Opens may happen at any time and may lose an inode. */
  ghost predicate Enabled(s: State, e: Event) {
    match e
    case Open(_, _, _, _) => true
    case FolioAdded(f, p, _, _, _) =>
      f !in s.resident && forall f' :: f' in s.resident ==> KeyOf(s.resident[f']) != KeyOf(p)
    case FolioAccessed(f) => f in s.resident
    case FolioEvicted(f, _) => f in s.resident
    case GhostDrop(_) => true
    case Evict(_, _) => true
  }

  ghost function Next(s: State, e: Event): State
    requires Sized(s) && Enabled(s, e)
  {
    match e
    case Open(ino, tag, deleteOk, updateOk) => s.(watch := OpenInode(s.watch, ino, tag, deleteOk, updateOk))
    case FolioAdded(f, p, fl, metaOk, listOk) => Added(s, f, p, fl, metaOk, listOk)
    case FolioAccessed(f) => Accessed(s, f)
    case FolioEvicted(f, ghostOk) => Evicted(s, f, ghostOk)
    case GhostDrop(k) => GhostDropped(s, k)
    case Evict(request, it) => EvictFolios(s, request, it)
  }

  /** s is reached from the initial state by the events es, each allowed when it happens. */
  ghost predicate Reaches(es: seq<Event>, s: State)
    decreases |es|
  {
    if es == [] then s == Init()
    else
      var n := |es| - 1;
      exists before :: Reaches(es[..n], before) && Sized(before) && Enabled(before, es[n]) && s == Next(before, es[n])
  }

  // ---------------------------------------------------------------- the invariant

  ghost function InGen(meta: map<Folio, FolioMeta>, g: nat): set<Folio> {
    set f | f in meta && meta[f].gen == g
  }

  /** Per slot, the counter is the number of metadata entries of that generation. */
  ghost predicate CountsOk(nrPages: seq<int>, meta: map<Folio, FolioMeta>) {
    && |nrPages| == MAX_NR_GENS
    && forall g :: 0 <= g < MAX_NR_GENS ==> nrPages[g] == |InGen(meta, g)|
  }

  /** A folio on list g has metadata saying generation g, and is on that list once. */
  ghost predicate ListsOk(lists: seq<seq<Folio>>, meta: map<Folio, FolioMeta>) {
    && |lists| == MAX_NR_GENS
    && (forall g, f :: 0 <= g < MAX_NR_GENS && f in lists[g] ==> f in meta && meta[f].gen == g)
    && (forall g :: 0 <= g < MAX_NR_GENS ==> NoDup(lists[g]))
  }

  /** Folios with metadata are resident and in one of the four slots. */
  ghost predicate MetaOk(meta: map<Folio, FolioMeta>, resident: map<Folio, Page>) {
    forall f :: f in meta ==> f in resident && meta[f].gen < MAX_NR_GENS
  }

  ghost predicate KeysDistinct(resident: map<Folio, Page>) {
    forall f, f' :: f in resident && f' in resident && KeyOf(resident[f]) == KeyOf(resident[f']) ==> f == f'
  }

  /** No page key is both resident with metadata and remembered as evicted. */
  ghost predicate NoGhostResident(meta: map<Folio, FolioMeta>, resident: map<Folio, Page>, ghosts: map<PageKey, nat>) {
    forall f :: f in meta && f in resident ==> KeyOf(resident[f]) !in ghosts
  }

  ghost predicate GhostTiersOk(ghosts: map<PageKey, nat>) {
    forall k :: k in ghosts ==> ghosts[k] < MAX_NR_TIERS
  }

  ghost function LiveGhosts(ghosts: map<PageKey, nat>, t: nat): set<PageKey> {
    set k | k in ghosts && ghosts[k] == t
  }

  /** Per tier: evictions so far are the refaults so far, the live ghosts and the dropped ones. */
  ghost predicate LedgerOk(h: History, ghosts: map<PageKey, nat>) {
    && |h.evictions| == |h.refaults| == |h.dropped| == MAX_NR_TIERS
    && forall t :: 0 <= t < MAX_NR_TIERS ==>
         h.evictions[t] == h.refaults[t] + |LiveGhosts(ghosts, t)| + h.dropped[t]
  }

  /** Folios requested are those found, those missed, and those of calls that gave up. */
  ghost predicate StatsOk(st: Stats, h: History) {
    && |st.tierSelected| == MAX_NR_TIERS && |h.clobbered| == MAX_NR_GENS
    && st.success + st.failed + h.aborted == h.requested
  }

  ghost predicate Inv(s: State) {
    && s.gen.Shaped()
    && WindowOk(s.gen)
    && SparseOk(s.gen)
    && CoreInv(s)
    && StatsOk(s.stats, s.hist)
  }

  /** Everything the invariant says apart from the window and the statistics. */
  ghost predicate CoreInv(s: State) {
    && s.gen.ctrl.Shaped()
    && CountsOk(s.gen.nrPages, s.meta)
    && ListsOk(s.lists, s.meta)
    && MetaOk(s.meta, s.resident)
    && KeysDistinct(s.resident)
    && NoGhostResident(s.meta, s.resident, s.ghosts)
    && GhostTiersOk(s.ghosts)
    && LedgerOk(s.hist, s.ghosts)
  }
}
