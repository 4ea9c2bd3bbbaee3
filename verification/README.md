# Models of the cache_ext page-cache policies, with proofs

Dafny models of the eviction policies in this repository and of the numeric kernels beside them,
with proofs about every run. `dafny verify dfyconfig.toml` checks everything.

## What is modelled

The kernel calls a policy through hooks (a folio was added, accessed, evicted; please choose folios
to evict). Each hook is one atomic step. A policy appears twice: as a state machine on values, about
whose runs the theorems are, and as a class whose methods update fields, arrays and maps in place as
the source does and are proved to perform the steps of the state machine.

- `Mglru*.dfy`: the multi-generational policy. A window of generations over four slots with aging and
  retirement, per-slot page counters kept apart from metadata and lists, a ghost map, and the
  controller that protects tiers.
- `Lhd*.dfy`: the hit-density policy. Age histograms, their coarsening in place, the one-pass scan
  that models densities, age classes, and the request clock.
- `S3Fifo*.dfy`: the two-list policy with approximate sizes, frequencies capped at 3, and four
  eviction passes with rising thresholds.
- `DirWatcher.dfy`: which opens put an inode on the watchlist, on which the policies' relevance check
  rests.
- `Vulcan*.dfy`: the integer listeners and their per-client dispatch from socket reads and folio hooks.
- `Crc32.dfy`: the checksum of the file workload against its bit-at-a-time definition, over the folds
  of `Iteration.dfy`.
- `TokenBucket.dfy`: the bandwidth limiter of the delay proxy, in exact arithmetic.
- `Arith.dfy`, `Lists.dfy`, `PageCache.dfy`: facts on division, powers of two, and lists without
  duplicates; folios and page keys.

The kernel's side is a contract, stated as each state machine's `Enabled` and `Iteration`: a folio is
added only when it is not resident and resident pages have distinct keys, which do not change until
eviction (policies/cache_ext_lib.bpf.h:89-104 only declares the list functions). An iteration shows
the callback any sequence of nodes, moves each by its verdict, and stops when the request is full; it
may report failure. Evicted folios leave their lists. LRU hash maps may drop entries at any time;
other insertions may fail. Clock readings, socket counters, folio flags, the outcome of every
insertion and the order of every visit are inputs.

Values called `hist`, `tally` or `drift` count events since the start of a run so that conservation
can be stated; no hook reads them.

## Where the code differs from what one would expect

The models follow the code; each point has a lemma.

- A rolling window's sum covers the last 16 pushes whatever the window size, so its average is the
  window mean only in the cases `VulcanListeners.WindowMeanExactly` lists.
- An EWMA weight above 1000 wraps as an unsigned number (`VulcanListeners.EwmaBetweenExactly`), and
  the min/max listener starts over when its 32-bit counter wraps (`VulcanListeners.MinMaxExact`).
- The per-client inter-arrival feature measures gaps between packets of all clients; they are the
  client's own only while no other client has sent before it (`VulcanRuns.OwnGapsExactly`,
  `VulcanRuns.InterleavedGaps`).
- Coarsening a histogram keeps the last bucket as well as folding it in
  (`LhdHistogram.CoarseningCommutes`, `LhdHistogram.SaturatedGainsMass`), and the event count used
  for densities takes in evictions but no hits below the last bucket.
- Folios that S3-FIFO's small list cannot evict move to the main list without being flagged, so the
  sizes drift (`S3Fifo.SizesDrift`, `S3Fifo.SizesExactly`, `S3Fifo.StrayRunDrifts`).
- MGLRU's aging never sees its youngest generation (`MglruGen.LruGen.ShouldRunAging`). Its ghost
  tier is read after the map entry was deleted; the model reads it first.
- Re-opening a watched file deletes its inode from the watchlist before inserting it again, and a
  failed insertion loses it (`DirWatcher.OpenGrowsExactly`). That does no harm by itself; but if a
  tracked folio of the inode is evicted before the inode is watched again, its metadata stays
  (`MglruRuns.EvictionSeenExactly`, `MglruRuns.NeverStaleExactly`). MGLRU's counters are then still
  exact until an add finds such metadata at its own address and overwrites it, and never again after
  (`MglruAlways.CountersExactly`, `MglruAlways.CountersStep`); `MglruRuns.CountersGoWrong` is such a run.
- An eviction call counts verdicts, not folios: a folio chosen in one pass is chosen again in the
  next. Exactly when a request holds distinct folios is `S3FifoRequests.RequestsDistinctExactly` and
  `MglruRequests.EvictionsHandOver`; runs in which it does not are `S3FifoRequests.RepeatingRun` and
  `MglruRequests.RequestFilledTwice`.
- The delay proxy stalls for good on a read larger than its rate (`TokenBucket.ProxyForwardsExactly`).

## Model

| member | source | states |
|---|---|---|
| MglruRuns.RunsKeepInv | policies/cache_ext_mglru.bpf.c:694-913 | every run of hooks, opens (also those that lose an inode), ghost drops and eviction calls in which the eviction hook never ignored a tracked folio keeps the whole MGLRU invariant: exact per-slot counters, lists agreeing with metadata, legal window, sparse edge slots, no key both resident and ghost, per-tier ledger |
| MglruRuns.EvictionSeenExactly | policies/cache_ext_mglru.bpf.c:888-892 | one eviction leaves no metadata behind, and keeps the invariant, if and only if the folio's inode is watched at that moment or the folio was not tracked |
| MglruRuns.NeverStaleExactly | policies/cache_ext_mglru.bpf.c:888-913 | over a whole run only resident folios ever have metadata if and only if no eviction of a tracked folio was ignored |
| MglruRuns.SizedStep | policies/cache_ext_mglru.bpf.c:113-127 | no event changes the sizes of the tables, so every event can follow every run |
| MglruAlways.CountersExactly | policies/cache_ext_mglru.bpf.c:209-214 | in every run whatever, ignored evictions included, nr_pages[g] is the number of metadata entries of generation g and of those that adds found at their own address and overwrote; so no counter is ever negative, and the counters are exact if and only if no add met metadata at its own address, hence in every run without ignored evictions |
| MglruAlways.CountersStep | policies/cache_ext_mglru.bpf.c:376-502 | at any point of any run the counters are exact after an event if and only if they were before it and it is no add, watched and not refused, that finds metadata at its own address |
| MglruAlways.RunsKeepAlways | policies/cache_ext_mglru.bpf.c:694-913 | every run whatever keeps window, lists, generation indices and the counters up to what was overwritten |
| MglruAlways.ListsAgree | policies/cache_ext_mglru.bpf.c:713-857 | in every run whatever a folio is on at most one list, once, it is resident, that list is the one its metadata names, and no list is longer than the number of entries of its generation; adds, failed inserts, promotions during two passes and ignored evictions included |
| MglruAlways.WindowStaysLegal | policies/cache_ext_mglru.bpf.c:577-635 | in every run whatever 2 <= max_seq - min_seq <= 3 and aging succeeds whenever it is requested |
| MglruRuns.EdgeSlotsSparse | policies/cache_ext_mglru.bpf.c:577-635 | in every run without ignored evictions at most 4 tracked folios sit in the youngest slot and at most 4 in the slot outside the window |
| MglruRuns.EvictionsAccounted | policies/cache_ext_mglru.bpf.c:67-95 | in every such run no page is both tracked and in the ghost map; per tier evictions = refaults + live ghosts + dropped ghosts whatever the LRU map drops; folios requested, counted at every call, are those found, those missed and those of calls that gave up |
| MglruRequests.HandsOverExactly | policies/cache_ext_mglru.bpf.c:820-861 | however two passes show the oldest list, each node once a pass: a call yields min(request, c) distinct folios, c being the number that fit (not protected, not pinned) in the first pass, and min(request, c + u) verdicts, u being those of them not pinned by the second pass; so what it hands over is distinct if and only if c fills the request or all that fit are pinned by the second pass |
| MglruRequests.EvictionsHandOver | policies/cache_ext_mglru.bpf.c:780-870 | the same in every run whatever, and the success counter grows by the number of verdicts |
| MglruRequests.PassPicks | policies/cache_ext_mglru.bpf.c:713-778 | one pass over distinct listed folios chooses folios that fit, each once; while there is room it chooses all shown that fit and takes exactly the other ones shown off the list |
| MglruRequests.PassOrders | policies/cache_ext_mglru.bpf.c:713-857 | a pass that had room leaves, in the order shown, the chosen folios behind those not shown and the others at the tail of the next list |
| MglruRequests.RequestFilledTwice | policies/cache_ext_mglru.bpf.c:839-870 | two events from the start a request for two is filled with the only folio there is, twice, and counted as two successes |
| MglruFeedback.CountersSinceRetirement | policies/cache_ext_mglru.bpf.c:297-329 | in every run refaulted[t], evicted[t] and protected[t-1] are exactly the refaults, evictions and protections of tier t since the last retirement |
| MglruFeedback.ReadingsExactly | policies/cache_ext_mglru.bpf.c:284-329 | in every run what read_ctrl_pos reports is the fold of the run that adds each refault, and each eviction or protection, of the tier and halves at each retirement |
| MglruFeedback.ReadingStep | policies/cache_ext_mglru.bpf.c:284-329 | one event at a time: a refault raises the refaults read for its own tier by one, an eviction or protection the total, and nothing else moves but by halving at a retirement |
| MglruFeedback.RefaultHeard | policies/cache_ext_mglru.bpf.c:505-508 | a tracked add of a page remembered at tier t raises the refaults read for tier t by one and those of no other tier |
| MglruFeedback.GhostTierExactly | policies/cache_ext_mglru.bpf.c:67-95 | in every run the tier a page is remembered by is its tier when the hook last saw it evicted with room for its entry |
| MglruFeedback.AccessesExactly | policies/cache_ext_mglru.bpf.c:880-886 | in every run the access count of a folio is one plus the accesses seen since it was last tracked |
| MglruFeedback.TierExactly | policies/cache_ext_mglru.bpf.c:405-430 | tier t holds the access counts from 2^t up to below 2^(t+1), tier 0 also 0 and what is negative as an int, and tier 3 all from 8 on |
| MglruFeedback.AddGoesExactly | policies/cache_ext_mglru.bpf.c:475-520 | at any point of any run a tracked add counts one access and puts the folio at the head of the list of its generation: the youngest, the one below, or the oldest or second oldest, each in its own case |
| MglruFeedback.TotalsExactly | policies/cache_ext_mglru.bpf.c:67-95 | the ledger totals of refaults and evictions are what happened in the whole run |
| MglruFeedback.SelectedExactly | policies/cache_ext_mglru.bpf.c:783-803 | tier_selected[t] is the number of eviction calls whose controller put the threshold at t |
| MglruRuns.AddTarget | policies/cache_ext_mglru.bpf.c:475-485 | a folio that is not resident is never taken for active, its sequence number lies in [min_seq, max_seq - 1], and its slot is neither the youngest nor outside the window |
| MglruRuns.AddedKeeps | policies/cache_ext_mglru.bpf.c:485-520 | an add keeps the invariant in all four outcomes of the two insertions, including metadata kept after a failed list insertion |
| MglruRuns.EvictedKeeps | policies/cache_ext_mglru.bpf.c:888-913 | an eviction, tracked or not, with or without room in the ghost map, keeps the invariant |
| MglruRuns.VisitKeeps | policies/cache_ext_mglru.bpf.c:713-778 | showing one node to the callback (protect, promote, or choose) keeps counters, lists and ledger, and leaves slots other than the two involved alone; the counter update by curr_gen is right because the list invariant says the node's own generation is curr_gen |
| MglruRuns.PassKeeps | policies/cache_ext_mglru.bpf.c:831-857 | a pass over any visiting order does so too |
| MglruRuns.ScanKeeps | policies/cache_ext_mglru.bpf.c:804-861 | both passes with their accounting, failing or not, keep the invariant of a rotated state |
| MglruRuns.OpenKeeps | policies/dir_watcher.bpf.h:99-115 | an open in mid-run, whether it adds, re-tags or loses an inode, breaks nothing by itself |
| MglruRuns.LostInodeBreaksCounts | policies/dir_watcher.bpf.h:102-115 | from every reachable state with a tracked folio the four events re-open with a failing insertion, eviction, open, add at the same address are a run after which the counters are wrong |
| MglruRuns.CountersGoWrong | policies/dir_watcher.bpf.h:102-115 | such a state is two events from the start, so there is a run of six events with wrong counters |
| MglruGen.RotateKeepsWindow | policies/cache_ext_mglru.bpf.c:786-802 | aging and retirement as evict_folios combines them keep the window at three or four generations and the edge slots sparse, never fail when aging is needed, and say exactly when min_seq moves |
| MglruGen.AgingExactly | policies/cache_ext_mglru.bpf.c:523-575 | in a legal window aging is asked for exactly when there are three generations and the second oldest has more than three times the pages of the oldest |
| MglruGen.SlotsDistinct | policies/cache_ext_mglru.bpf.c:800-801 | in a legal window the slot drained, the slot promoted into, the youngest slot and the slot outside the window are pairwise different |
| MglruGen.HalvedReading | policies/cache_ext_mglru.bpf.c:284-329 | a carry-over reset halves, rounding down, what read_ctrl_pos reports for every tier |
| MglruGen.RepeatedHalving | policies/cache_ext_mglru.bpf.c:284-329 | k resets with no event between divide every reading by 2^k, rounding down once |
| MglruGen.ProtectionDecays | policies/cache_ext_mglru.bpf.c:331-364 | once every tier's refaults are below 64 * 2^k, k quiet retirements turn protection off in all tiers |
| MglruGen.PassesMonotone | policies/cache_ext_mglru.bpf.c:331-340 | a tier that passes still passes with fewer refaults or a larger total, and with more refaults or a smaller total in tier 0 |
| MglruGen.PassesExactly | policies/cache_ext_mglru.bpf.c:331-340 | a tier is protected if and only if it has at least 64 refaults and, over its total, more than 2 * (refaulted0 + 1) / (total0 + 64) as real quotients; with total 0 the 64 refaults suffice |
| MglruGen.ThresholdExactly | policies/cache_ext_mglru.bpf.c:346-364 | the threshold is the unique r such that no tier up to r refaults too much in that sense and tier r + 1, if any, does |
| MglruGen.LruGen.constructor | policies/cache_ext_mglru.bpf.c:694-697 | the record after mglru_init: zeroed, window 0..3 |
| MglruGen.LruGen.ReadCtrlPos | policies/cache_ext_mglru.bpf.c:284-294 | returns the reading of a tier: averages plus current counters, with protected pages counted for tiers above 0 |
| MglruGen.LruGen.ResetCtrlPos | policies/cache_ext_mglru.bpf.c:297-329 | with carry-over all four tiers are halved and cleared in place; without it nothing changes, as one history generation is kept |
| MglruGen.LruGen.GetTierIdx | policies/cache_ext_mglru.bpf.c:346-364 | returns the end of the longest prefix of tiers 1..3 that pass positive_ctrl_err, so at most 3: none of them exceeds the real quotient of tier 0 and the next tier does |
| MglruGen.LruGen.ShouldRunAging | policies/cache_ext_mglru.bpf.c:523-575 | the loop's answer in closed form; the loop never meets max_seq, so the test for too many young pages cannot fire |
| MglruGen.LruGen.TryToIncMinSeq | policies/cache_ext_mglru.bpf.c:577-587 | retires the oldest generation and halves the controller exactly when at most 4 pages are left in it |
| MglruGen.IncMinExactly | policies/cache_ext_mglru.bpf.c:577-587 | retiring succeeds exactly when at most four pages are left in the oldest slot, drops that generation and halves the controller, and else changes nothing |
| MglruGen.IncMaxExactly | policies/cache_ext_mglru.bpf.c:589-635 | opening fails exactly when the window is full and its oldest generation cannot retire; a full window stays at four generations, any other grows by one |
| MglruGen.LruGen.TryToIncMaxSeq | policies/cache_ext_mglru.bpf.c:589-635 | opens a generation; a full window must first retire one, else nothing changes |
| MglruGen.LruGen.AgeAndRetire | policies/cache_ext_mglru.bpf.c:785-799 | the locked prologue of evict_folios, with retirement decided on the sequence numbers read before aging |
| MglruPolicy.PrefixUnique | policies/cache_ext_mglru.bpf.c:346-364 | the tier threshold is unique, so the loop and the specification agree |
| MglruPolicy.Policy.constructor | policies/cache_ext_mglru.bpf.c:694-709 | initial state of a run |
| MglruPolicy.Policy.UpdateNrPages | policies/cache_ext_mglru.bpf.c:209-214 | changes one counter, and none for an invalid generation |
| MglruPolicy.Policy.TakeGhost | policies/cache_ext_mglru.bpf.c:82-95 | removes a ghost entry and counts one refault in the tier it held (read before the deletion) |
| MglruPolicy.Policy.PutGhost | policies/cache_ext_mglru.bpf.c:67-75 | remembers an evicted page, or counts it as dropped when the insertion fails |
| MglruPolicy.Policy.LruGenAddFolio | policies/cache_ext_mglru.bpf.c:452-521 | performs the add step of the state machine and reports whether the folio is on a list |
| MglruPolicy.Policy.FolioAdded | policies/cache_ext_mglru.bpf.c:872-878 | performs the add event |
| MglruPolicy.Policy.FolioAccessed | policies/cache_ext_mglru.bpf.c:880-886 | performs the access event |
| MglruPolicy.Policy.FolioEvicted | policies/cache_ext_mglru.bpf.c:888-913 | performs the eviction event, the kernel's list removal included |
| MglruPolicy.Policy.ForgetFolio | policies/cache_ext_mglru.bpf.c:893-912 | ghost entry, per-tier and per-slot counters and metadata removal, with the whole new state stated |
| MglruPolicy.Policy.IterFn | policies/cache_ext_mglru.bpf.c:713-778 | the callback's verdict and its exact effect on counters, protection and metadata in all four branches |
| MglruPolicy.Policy.IterateExtended | policies/cache_ext_mglru.bpf.c:823-836 | the in-place iteration equals the pass of the state machine for every visiting order |
| MglruPolicy.Policy.ScanLists | policies/cache_ext_mglru.bpf.c:804-861 | one or two passes and the success and failure counters, including both early returns |
| MglruPolicy.Policy.EvictFolios | policies/cache_ext_mglru.bpf.c:780-870 | performs the eviction event of the state machine |
| DirWatcher.Watcher.ClientTagFromWatchRoots | policies/dir_watcher.bpf.h:51-80 | the parent walk finds the nearest watch root among the first 64 ancestors, reached through existing inodes only, and 0 if there is none |
| DirWatcher.Watcher.VfsOpenEnter | policies/dir_watcher.bpf.h:82-118 | classifies the open and changes the watchlist for that inode only |
| DirWatcher.OpenGrowsExactly | policies/dir_watcher.bpf.h:99-115 | an open keeps every watched inode watched if and only if it is not a re-insertion whose update fails after its delete; other inodes keep their tags |
| LhdHistogram.CoarseningCommutes | policies/cache_ext_lhd.bpf.c:114-202 | for all recorded ages, every shift and every delta in 1..14: coarsening the histogram recorded at shift s gives the histogram recorded at shift s + delta if and only if no recorded age reached the last bucket |
| LhdHistogram.CoarseMass | policies/cache_ext_lhd.bpf.c:181-200 | for delta up to 14 the buckets below the last receive the whole old mass and the last keeps its own; beyond that the rest of the mass is lost |
| LhdHistogram.SaturatedGainsMass | policies/cache_ext_lhd.bpf.c:197-200 | the clearing loop stops before the last bucket, so coarsening counts that bucket twice |
| LhdHistogram.HistogramMass | policies/cache_ext_lhd.bpf.c:392-394 | each recorded age adds one scaled unit of mass |
| LhdHistogram.LifetimeStep | policies/cache_ext_lhd.bpf.c:249-251 | adding the running event count once per age computes the weighted sum of all later events |
| LhdHistogram.LifetimeCoversEvents | policies/cache_ext_lhd.bpf.c:253-256 | where a density is computed the divisor is positive |
| LhdHistogram.EarlierAge | policies/cache_ext_lhd.bpf.c:243-252 | each earlier age adds its own hits to the hits to come and its evictions, not its hits, to the events, and all events once more to the lifetime |
| LhdHistogram.LastAge | policies/cache_ext_lhd.bpf.c:239-242 | at the last age hits, events and lifetime are those of its own bucket |
| LhdHistogram.DensityExactly | policies/cache_ext_lhd.bpf.c:253-259 | the density is hits to come over lifetime, scaled by 2^20 and rounded down, where there are more than ten events, and 0 elsewhere |
| LhdHistogram.InitialDensityExactly | policies/cache_ext_lhd.bpf.c:296-302 | the initial density is (class + 1) / (age + 1), scaled and rounded down; it never grows with age nor falls with the class |
| LhdHistogram.DecayExactly | policies/cache_ext_lhd.bpf.c:71-73 | a decayed counter is nine tenths of what it was, rounded down, so no counter but 0 stays |
| LhdHistogram.AgeExactly | policies/cache_ext_lhd.bpf.c:114-123 | bucket a takes the raw ages from a * 2^s up to below (a + 1) * 2^s, and the last one all from there on |
| LhdHistogram.RatedAgesFormPrefix | policies/cache_ext_lhd.bpf.c:253-258 | ages without enough events form a suffix, and those have density 0 |
| LhdHistogram.LhdClass.Update | policies/cache_ext_lhd.bpf.c:137-150 | every counter loses a tenth in place and the totals are the sums of the new counters |
| LhdHistogram.LhdClass.GatherBlock | policies/cache_ext_lhd.bpf.c:181-195 | bucket j receives the sum of its block, read from buckets not yet overwritten |
| LhdHistogram.LhdClass.Compress | policies/cache_ext_lhd.bpf.c:175-202 | in-place coarsening of both histograms equals the coarsened old ones |
| LhdHistogram.LhdClass.ModelHitDensity | policies/cache_ext_lhd.bpf.c:236-261 | the one backward scan leaves in every bucket below the last the closed form: suffix hits times the scale over the weighted lifetime, or 0 |
| LhdPolicy.HitAgeToClass | policies/cache_ext_lhd.bpf.c:89-102 | the doubling loop returns the least c with hit_age * 2^c >= MAX_AGE, and 0 for hit age 0 |
| LhdPolicy.ClassesOrdered | policies/cache_ext_lhd.bpf.c:95-101 | larger hit ages never get larger classes and no hit age needs the last class |
| LhdPolicy.IndicesInRange | policies/cache_ext_lhd.bpf.c:104-123 | for tracked metadata the class number and the age index the tables without masking |
| LhdPolicy.RunsKeepInv | policies/cache_ext_lhd.bpf.c:370-493 | every run keeps the LHD invariant, with arbitrary histogram rewrites between hooks |
| LhdPolicy.RunsAccountExactly | policies/cache_ext_lhd.bpf.c:370-493 | in every run num_objects is the number of tracked folios and the difference of adds and evictions; the reconfiguration counters are quotient and countdown of the request clock; no access lies in the future; the histograms hold exactly the hits and evictions since the last rewrite |
| LhdPolicy.RunsScoreExactly | policies/cache_ext_lhd.bpf.c:125-135 | in every run, whatever was recorded since, a tracked folio scores the density of its class and age on the histograms that the last reconfiguration left, before the first one the initial density, and 0 in the saturated bucket |
| LhdRecording.RunsRecordExactly | policies/cache_ext_lhd.bpf.c:380-394 | in every run the hits of each class are those the last reconfiguration left plus the histogram, at the present shift, of the ages at which its folios were hit since, and its evictions those at which they were evicted; ages and classes are told from the events alone |
| LhdRecording.RunsTellHistory | policies/cache_ext_lhd.bpf.c:370-406 | in every run clock, shift and metadata are what the events tell: time of the last use and ages at the last two hits, each at the shift of its time |
| LhdRecording.ResidentExactly | policies/cache_ext_lhd.bpf.c:370-493 | resident are the folios added and not evicted since, tracked or not |
| LhdRecording.HitRecorded | policies/cache_ext_lhd.bpf.c:380-394 | a hit raises the cell of the folio's own class and age by 2^20, no other cell and no eviction count, and an eviction likewise |
| LhdHooks.Policy.GetAge | policies/cache_ext_lhd.bpf.c:114-123 | the saturating age |
| LhdHooks.Policy.GetClass | policies/cache_ext_lhd.bpf.c:104-112 | the masked class index |
| LhdHooks.Policy.Record | policies/cache_ext_lhd.bpf.c:392-394 | adds one unit to one cell of one table and leaves the other table alone |
| LhdHooks.Policy.AdvanceClock | policies/cache_ext_lhd.bpf.c:396-405 | one request on the clock, restarting the countdown at 0 |
| LhdHooks.Policy.FolioAdded | policies/cache_ext_lhd.bpf.c:446-493 | performs the add event |
| LhdHooks.Policy.FolioAccessed | policies/cache_ext_lhd.bpf.c:370-406 | performs the access event and leaves all densities alone |
| LhdHooks.Policy.FolioEvicted | policies/cache_ext_lhd.bpf.c:408-444 | performs the eviction event, which has no relevance check, and leaves all densities alone |
| LhdHooks.Policy.Reconfigure | policies/cache_ext_lhd.bpf.c:263-278 | in all 256 classes: decay, coarsening if the shift grew, and densities modelled on the result; as an event it is a histogram rewrite |
| LhdHooks.Policy.HitDensity | policies/cache_ext_lhd.bpf.c:125-135 | the eviction score is, for whatever histograms the folio's class was last modelled on, their density at the folio's age (suffix hits over lifetime), and 0 in the saturated bucket; before the first reconfiguration it is the initial density of the class; and it is the score of the state machine, which every hook and reconfiguration preserves |
| LhdHooks.Policy.constructor | policies/cache_ext_lhd.bpf.c:280-305 | 256 separate classes with zeroed counters and the initial densities; the object starts in the initial state of a run |
| S3Fifo.RunsKeepInv | policies/cache_ext_s3fifo.bpf.c:273-370 | every run keeps the S3-FIFO invariant, with the sizes off by exactly the counted drift |
| S3Fifo.RunsKeepPlaces | policies/cache_ext_s3fifo.bpf.c:284-370 | in every run freq <= 3, every tracked folio is on exactly one list, and no page that entered while watched is both resident and in the ghost map |
| S3FifoUses.SmallFrequencies | policies/cache_ext_s3fifo.bpf.c:284-297 | in every run the frequency of a folio of the small list is the smaller of 3 and its relevant accesses since it was added |
| S3FifoUses.UsesAddUp | policies/cache_ext_s3fifo.bpf.c:284-297 | at any point of any run, k relevant accesses with no eviction call between take a frequency f on either list to the smaller of 3 and f + k |
| S3FifoUses.AccessRaises | policies/cache_ext_s3fifo.bpf.c:284-297 | an access never lowers a frequency and raises its own folio's by one below 3 |
| S3FifoUses.GhostsExactly | policies/cache_ext_s3fifo.bpf.c:299-332 | in every run the ghost map holds exactly the pages evicted with room for their entry and since neither dropped nor added by a relevant folio |
| S3FifoUses.AddGoesExactly | policies/cache_ext_s3fifo.bpf.c:338-370 | at any point of any run a relevant add that succeeds goes to the tail of main, flagged, if its page is gone in that sense, and else to the tail of small |
| S3FifoUses.FailedAddExactly | policies/cache_ext_s3fifo.bpf.c:338-370 | an add that is not relevant or fails tracks nothing, but if relevant has taken the ghost entry and counted the folio |
| S3FifoUses.FromSmallExactly | policies/cache_ext_s3fifo.bpf.c:273-282 | the small list gives way exactly when its size is negative, 15 * (size + 1) exceeds the cache size, or main is at most twice as large |
| S3FifoUses.SmallPassSorts | policies/cache_ext_s3fifo.bpf.c:121-143 | an unfilled pass over the small list chooses exactly the eligible folios used at most once, moves the others to main, and flags of those exactly the eligible ones |
| S3FifoUses.SmallPassOrders | policies/cache_ext_s3fifo.bpf.c:250-264 | in doing so it keeps the order shown on both lists, at the tail |
| S3FifoUses.CallSizesExactly | policies/cache_ext_s3fifo.bpf.c:244-271 | the sizes follow the number of folios that left the small list, a negative size counting as nothing, and stay if the iteration fails |
| S3Fifo.SizesExactly | policies/cache_ext_s3fifo.bpf.c:244-271 | in every run both sizes are the numbers of unflagged and flagged entries if and only if no insertion failed, no size was reset, and as many folios strayed as moves went uncounted; flag and list agree if and only if every stray has been evicted; without strays and uncounted moves no reset ever fires |
| S3Fifo.SizesDrift | policies/cache_ext_s3fifo.bpf.c:123-132 | in every run, resets included, each size is given exactly against its list and against the flags, by failed insertions, uncounted moves, strays and reset amounts |
| S3Fifo.StrayRunDrifts | policies/cache_ext_s3fifo.bpf.c:244-271 | add, eviction call while the folio is ineligible, eviction, eviction call: no folio is tracked any more, the small size went negative and was reset, and the main size says one |
| S3Fifo.SmallPassKeeps | policies/cache_ext_s3fifo.bpf.c:121-143 | a pass over the small list in any order keeps the invariant, strays included |
| S3Fifo.PassVisitsAll | policies/cache_ext_s3fifo.bpf.c:166-188 | a pass that did not fill the request took one use from each eligible node shown and chose exactly those left with fewer uses than the threshold |
| S3Fifo.PassesSelect | policies/cache_ext_s3fifo.bpf.c:195-242 | after n full passes the chosen folios are exactly the eligible ones with half their frequency, rounded up, below n |
| S3FifoUses.MainPassOrders | policies/cache_ext_s3fifo.bpf.c:195-208 | an unfilled pass over the main list leaves what was not shown in front of what was, in the order shown |
| S3Fifo.FourPasses | policies/cache_ext_s3fifo.bpf.c:195-242 | four full passes choose every eligible folio and the fourth adds nobody |
| S3Fifo.MainEvictionComplete | policies/cache_ext_s3fifo.bpf.c:195-242 | in every reachable state, if eviction from main ends short of the request then every eligible main folio was chosen, already by the third pass |
| S3FifoRequests.PassesCount | policies/cache_ext_s3fifo.bpf.c:195-242 | a chosen folio stays listed: after n full passes it was chosen n minus its first pass times, so requests are filled with verdicts |
| S3FifoRequests.PassChoosesOnce | policies/cache_ext_s3fifo.bpf.c:166-188 | one pass, filled or not, chooses no folio twice and only eligible folios left with fewer uses than its threshold |
| S3FifoRequests.DistinctExactly | policies/cache_ext_s3fifo.bpf.c:195-242 | with p the first pass that can choose anything: all visiting orders of the four passes leave distinct folios if and only if the folios due in pass p fill the request |
| S3FifoRequests.RequestsDistinctExactly | policies/cache_ext_s3fifo.bpf.c:195-242 | the same in every reachable state, also when no main folio is eligible |
| S3FifoRequests.RequestFilledTwiceByOne | policies/cache_ext_s3fifo.bpf.c:195-242 | with frequencies 0 and 3 and a request for two, one folio fills both places in the four passes and the other, eligible one is never chosen |
| S3FifoRequests.RepeatingRun | policies/cache_ext_s3fifo.bpf.c:273-282 | that input is the end of a run of nine events (two pages come, go, come back, one is used three times) after which the policy takes from the main list |
| S3FifoRequests.FullPassesIdle | policies/cache_ext_s3fifo.bpf.c:215-240 | once the request is full the remaining passes change nothing, so the early returns lose nothing |
| S3FifoPolicy.Policy.FolioAdded | policies/cache_ext_s3fifo.bpf.c:338-370 | performs the add event, both failures included |
| S3FifoPolicy.Policy.FolioAccessed | policies/cache_ext_s3fifo.bpf.c:284-297 | performs the access event, capping at 3 |
| S3FifoPolicy.Policy.FolioEvicted | policies/cache_ext_s3fifo.bpf.c:299-332 | performs the eviction event |
| S3FifoPolicy.Policy.ScoreSmall | policies/cache_ext_s3fifo.bpf.c:121-143 | the verdict and the flag, in all branches |
| S3FifoPolicy.Policy.ScoreMain | policies/cache_ext_s3fifo.bpf.c:166-188 | the verdict and the lowered frequency, in all branches |
| S3FifoPolicy.Policy.CountMovedFolios | policies/cache_ext_s3fifo.bpf.c:266-270 | sizes follow the moves, except that a size found negative is reset |
| S3FifoPolicy.Policy.EvictFromSmall | policies/cache_ext_s3fifo.bpf.c:244-271 | one pass over the small list and its accounting equal the state machine's |
| S3FifoPolicy.Policy.EvictFromMain | policies/cache_ext_s3fifo.bpf.c:195-242 | passes with rising thresholds equal the state machine's, whichever pass fills the request or fails |
| S3FifoPolicy.Policy.EvictFolios | policies/cache_ext_s3fifo.bpf.c:273-282 | chooses the list with the unsigned comparison of a signed size and performs the eviction event |
| VulcanListeners.SdivTruncates | policies/vulcan_bpf.h:26-34 | vulcan_sdiv is the one quotient whose remainder is smaller than the divisor and has the dividend's sign, for operands of any sign |
| VulcanListeners.MinMaxExact | policies/vulcan_bpf.h:47-68 | for streams of any length the listener reports the extremes of the values pushed since its 32-bit counter last wrapped, and 0 at a wrap |
| VulcanListeners.MinMaxOfShortStream | policies/vulcan_bpf.h:47-68 | for fewer than 2^32 values these are the extremes of the whole stream |
| VulcanListeners.EwmaBetweenExactly | policies/vulcan_bpf.h:80-97 | the weighted average lies between minimum and maximum of every stream if and only if alpha <= 1000; above, the unsigned weight wraps |
| VulcanListeners.EwmaEscapes | policies/vulcan_bpf.h:88-90 | for every alpha above the scale the stream 0, 1000 leaves the range |
| VulcanListeners.EwmaError | policies/vulcan_bpf.h:80-92 | after any number of pushes the integer average is within 1000 / alpha of the exact weighted average: truncation errors do not add up |
| VulcanListeners.EwmaOfConstant | policies/vulcan_bpf.h:80-92 | a positive constant stream keeps its value if alpha <= 1000 or one value was pushed, and only then as far as the pushes fit 64 bits |
| VulcanListeners.EwmaKeepsConstantExactly | policies/vulcan_bpf.h:80-92 | the average of a constant below about 2^31 is that constant after any number of pushes that fit if and only if alpha <= 1000; the second push, which fits, shows the difference |
| VulcanListeners.AverageExact | policies/vulcan_bpf.h:108-112 | sum and count are those of the stream |
| VulcanListeners.AverageBetween | policies/vulcan_bpf.h:108-117 | the truncated running average lies between minimum and maximum, for streams of any sign |
| VulcanListeners.PushFits | policies/vulcan_bpf.h:80-112 | how small values must be for every intermediate product and sum of a push to stay in 64 bits |
| VulcanListeners.WindowContents | policies/vulcan_bpf.h:130-150 | for every window size from 1 and every stream: count = min(pushes, size, 16), the buffer holds the last 16 pushes, and sum is their total, not the window's |
| VulcanListeners.WindowRecalls | policies/vulcan_bpf.h:152-168 | get_kth_recent(k) is the k-th most recent push for k below the count and 0 from there on; get_latest is the last push |
| VulcanListeners.WindowMeanExactly | policies/vulcan_bpf.h:142-175 | get_avg is the mean over the window on every stream of n values if and only if the size is 16 or more, or n is at most the size, or the window is off |
| VulcanListeners.WindowMeanFails | policies/vulcan_bpf.h:142-175 | in every other case the constant stream of the size shows the difference |
| VulcanListeners.MinMaxListener.Update | policies/vulcan_bpf.h:47-58 | one push in place is one step of the fold |
| VulcanListeners.EwmaListener.Update | policies/vulcan_bpf.h:80-92 | one push in place is one step of the fold |
| VulcanListeners.AverageListener.Update | policies/vulcan_bpf.h:108-112 | one push in place is one step of the fold |
| VulcanListeners.RollingWindow.Update | policies/vulcan_bpf.h:130-150 | one push into the circular buffer in place is one step of the fold, oversized and zero windows included |
| VulcanListeners.RollingWindow.KthRecent | policies/vulcan_bpf.h:161-168 | reads the buffer as the fold's accessor does |
| VulcanRuns.RunsFold | eviction_evo/initial_vulcan_split.c:315-372 | for every interleaving of opens, socket reads and folio hooks each map entry is the listener fold over exactly the values routed to its tag and feature, and only 34 keys are ever used |
| VulcanRuns.RunsAnswer | eviction_evo/initial_vulcan_split.c:374-424 | the scalar accessors answer with the listener's value over exactly those values; 0 for tag 0, an unknown feature or a listener that is off |
| VulcanRuns.RunsRecall | eviction_evo/initial_vulcan_split.c:426-480 | the windowed accessors return the k-th most recent value routed, for k below the window, and the quotient of the last 16 by the window count |
| VulcanRuns.MapsNeverFill | eviction_evo/initial_vulcan_split.c:223-249 | no listener map ever holds more than 34 of its 128 entries, whatever the two client tags are |
| VulcanRuns.AveragesBetween | eviction_evo/initial_vulcan_split.c:374-424 | for every tag and feature fed fewer than 2^32 values both averages lie between minimum and maximum |
| VulcanRuns.ClientTagSettles | eviction_evo/initial_vulcan_split.c:527-561 | once fed, the client-tag feature reports the tag itself: always by the average, by minimum and maximum unless the counter just wrapped, by the weighted average if alpha <= 1000 or one value was fed, and only then as far as its arithmetic fits 64 bits |
| VulcanRuns.InterArrivalsAddUp | eviction_evo/initial_vulcan_split.c:604-646 | the inter-arrival values of both tags add up to the time between the first and the last arrival on any port |
| VulcanRuns.OwnGapsExactly | eviction_evo/initial_vulcan_split.c:604-646 | the inter-arrival values routed to a client are the gaps between its own arrivals if and only if no arrival of the other client precedes one of its own |
| VulcanRuns.InterleavedGaps | eviction_evo/initial_vulcan_split.c:604-646 | after any run, a packet of another client and then one of this client: the value routed is the time since the other's packet, which is not the client's own gap |
| VulcanRuns.RunsKeepClock | eviction_evo/initial_vulcan_split.c:604-606 | the packet globals count the arrivals on all monitored ports and hold the last two times |
| VulcanRuns.MetadataExactly | eviction_evo/initial_vulcan_split.c:516-573 | in every run the metadata holds exactly the folios entered by a watched add or access that found room and not evicted while watched since, each with the tag its inode then had |
| VulcanRuns.RunsKeepTags | eviction_evo/initial_vulcan_split.c:522-555 | every watched inode and every entered folio carries the non-zero tag of a configured root |
| VulcanDispatch.UpdateFeatureExact | eviction_evo/initial_vulcan_split.c:315-372 | whatever the maps hold, a call moves exactly the enabled listeners of its own key that have or can get an entry, and nothing for tag 0 or any other key |
| VulcanDispatch.DispatchFits | eviction_evo/initial_vulcan_split.c:651-657 | one receive pushes each network feature once, in the entry of its tag, and skips the client-tag feature |
| VulcanDispatch.PortsExactly | eviction_evo/initial_vulcan_split.c:306-313 | client 1 is served on ports 9100 and 9001, client 2 on 9101 and 9002, and no other port is monitored |
| VulcanRuns.Policy.UpdateListeners | eviction_evo/initial_vulcan_split.c:315-372 | the four lookups, insertions and updates in place |
| VulcanRuns.Policy.TraceTcpRecvmsg | eviction_evo/initial_vulcan_split.c:582-660 | performs the receive event |
| VulcanRuns.Policy.DispatchAll | eviction_evo/initial_vulcan_split.c:651-657 | the dispatch loop equals the specified dispatch |
| VulcanRuns.Policy.FolioAdded | eviction_evo/initial_vulcan_split.c:511-531 | performs the add event |
| VulcanRuns.Policy.FolioAccessed | eviction_evo/initial_vulcan_split.c:534-563 | performs the access event: a known folio reports the tag it was entered with |
| VulcanRuns.Policy.FolioEvicted | eviction_evo/initial_vulcan_split.c:566-574 | performs the eviction event |
| Crc32.Checksum.Init | eviction_evo/file_workload.cpp:55-62 | every table entry is eight register steps on its index |
| Crc32.Checksum.Entry | eviction_evo/file_workload.cpp:57-60 | the inner loop |
| Crc32.Checksum.Step | eviction_evo/file_workload.cpp:68 | one table step takes in one byte exactly as eight single-bit steps do |
| Crc32.Checksum.Update | eviction_evo/file_workload.cpp:64-70 | the table-driven form computes the bit-at-a-time CRC of section 8 of RFC 1952, for every buffer and starting value |
| Crc32.Checksum.ReadAll | eviction_evo/file_workload.cpp:168-172 | however a file is split into reads, the result is the CRC of everything delivered before the first empty read |
| Crc32.TableStep | eviction_evo/file_workload.cpp:58-68 | eight steps on a word are the table entry of its low byte added to the rest shifted, by linearity of the register |
| Crc32.FeedByteShifts | eviction_evo/file_workload.cpp:57-68 | feeding the bits of a byte one by one is eight steps on the register with the byte added |
| Crc32.CrcChains | eviction_evo/file_workload.cpp:168-172 | continuing over a second buffer is the CRC of both |
| Crc32.CrcOneToOne | eviction_evo/file_workload.cpp:64-70 | over a fixed buffer different starting values give different results |
| Crc32.BurstDetected | eviction_evo/file_workload.cpp:64-70 | two buffers whose bits differ only within one stretch of at most 32 bits, at any bit offset, never have the same CRC |
| Crc32.ByteBurstDetected | eviction_evo/file_workload.cpp:64-70 | in particular when they differ only within four adjacent bytes |
| Crc32.FeedBits | eviction_evo/file_workload.cpp:57-68 | feeding a buffer byte by byte is feeding its bits, lowest first |
| TokenBucket.RunsConserve | eviction_evo/tcp_delay_proxy.py:31-43 | over any run of polls 0 <= tokens <= rate, and what is granted plus what is left never exceeds what was there plus rate times time |
| TokenBucket.RunsBalance | eviction_evo/tcp_delay_proxy.py:34-41 | the balance of every run of polls: granted plus left plus spilled, spilled being what refills lost above the rate, is exactly what was there plus rate times the time passed |
| TokenBucket.NothingSpilledExactly | eviction_evo/tcp_delay_proxy.py:37-41 | granted plus left is exactly what was there plus rate times time if and only if no refill finds more than fits |
| TokenBucket.PollExactly | eviction_evo/tcp_delay_proxy.py:37-41 | a poll is granted exactly when its bytes fit what is there after the refill, and takes exactly them |
| TokenBucket.TogetherGranted | eviction_evo/tcp_delay_proxy.py:34-41 | any number of requests made at one time that together fit what is there are all granted and leave the difference |
| TokenBucket.WaitsExactly | eviction_evo/tcp_delay_proxy.py:42-43 | the wait is exact: at its end the bytes are just there, and a shorter sleep does not pass |
| TokenBucket.AnyStretchLimited | eviction_evo/tcp_delay_proxy.py:34-41 | over every stretch of every run at most rate bytes more than rate times its length pass |
| TokenBucket.PassesWithinOneSleep | eviction_evo/tcp_delay_proxy.py:34-43 | bytes that fit the bucket pass after at most one sleep however late it wakes, and the wait is exactly the time to earn the missing tokens plus the delay |
| TokenBucket.NeverPasses | eviction_evo/tcp_delay_proxy.py:34-43 | more bytes than the rate never pass, however often the loop runs |
| TokenBucket.PassesExactly | eviction_evo/tcp_delay_proxy.py:31-43 | consume returns if and only if limiting is off or the bytes fit the bucket |
| TokenBucket.ProxyForwardsExactly | eviction_evo/tcp_delay_proxy.py:46-56 | every read of up to 65536 bytes is forwarded if and only if the rate is at least 65536 bytes per second |
| TokenBucket.ConsumeIsARun | eviction_evo/tcp_delay_proxy.py:34-43 | consuming is a run of polls that grants its bytes once or not at all, so the limits on runs hold for any consumers |
| TokenBucket.Limiter.constructor | eviction_evo/tcp_delay_proxy.py:26-29 | a full bucket |
| TokenBucket.Limiter.TryTake | eviction_evo/tcp_delay_proxy.py:35-41 | one turn of the loop in place |
| TokenBucket.Limiter.ConsumeBytes | eviction_evo/tcp_delay_proxy.py:31-43 | the loop in place equals the specified consumption, with a decreasing bound on the sleeps |

## Left out

- Concurrency between hooks (atomics, the spin lock, per-CPU arrays, the ring buffer): hooks are atomic steps.
- Overflow of 64-bit counters, sums and products: integers are unbounded, except for the narrowing of access counts to int, unsigned subtraction and comparison, and 32-bit counters and weights, which wrap. For alpha up to 1000 `VulcanListeners.PushFits` says which values keep the listeners' arithmetic within 64 bits. For larger alpha the products of the weighted average leave 64 bits after a few pushes; what is claimed there is limited to pushes that fit (`VulcanListeners.BlendsFit`), and what the code returns beyond them is not modelled.
- VulcanListeners.EwmaOfConstant: for alpha above 1000 says nothing about pushes whose 64-bit product overflows.
- VulcanRuns.ClientTagSettles: likewise for its weighted average.
- The bodies of the kernel list functions, list sampling, folio flag tests, missing mappings, and kprobe memory reads: contracts or inputs.
- Lookups of one-element array maps, which cannot fail, and messages printed on errors.
- LHD's negative shift changes (policies/cache_ext_lhd.bpf.c:152-173, whose loops overwrite the last bucket and read by the wrong index) and its search for the shift (lines 204-234): a reconfiguration event may leave any histograms, and the in-place reconfiguration takes the growth of the shift as input.
- LHD's overflow counter and its average victim density, which no decision reads.
- LhdHooks.Policy.Reconfigure: models shift growth only, because shrinking has no clean meaning as written.
- LHD and S3-FIFO take the relevance of a folio as an input; how it comes about is in `DirWatcher`, which MGLRU and the dispatcher use.
- S3-FIFO's unused sampling variant of main eviction (policies/cache_ext_s3fifo.bpf.c:145-164).
- MGLRU's iteration debug counter, and the narrowing of a page count to int in gen_almost_empty.
- The dispatcher's maps hold listeners as values that are replaced, not as structures reached through a pointer into the map; a new entry is refused only when the map is full. The listener structures themselves are updated in place in `VulcanListeners`.
- The dispatcher's per-folio listeners and the feature header (vulcan_feature.h and vulcan_folio_on_access are not part of this model); of a folio's metadata only the client tag is kept. Listener masks, alphas and window sizes are configuration values fixed over a run.
- TokenBucket.Limiter.ConsumeBytes: the loop is bounded by the number of sleeps given, because it need not end; `TokenBucket.NeverPasses` shows when it does not. Rates and times are exact reals, so float rounding is not covered.
- The proxy's delay, sockets and stream copying beyond the size of its reads.
- The file workload's random choice of files, Zipf generator and latency statistics.
- Userspace loaders, directory scanning, servers, benchmarks, plots, and the evolved or one-branch policies (FIFO, MRU, sampling, get-scan), which would add only easy members.
