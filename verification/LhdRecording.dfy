/** What the LHD histograms hold over a run: told from the events alone, each class holds the ages
    at which its folios were hit and evicted since the last reconfiguration. */
module LhdRecording {
  import opened Arith
  import opened PageCache
  import opened LhdHistogram
  import opened LhdPolicy

  // ---------------------------------------------------------------- the history of a folio

  /** An add or a hit: its request time, and the coarsening shift then. */
  datatype Use = Use(time: nat, shift: nat)

  /** The requests counted so far: adds that succeed, and relevant accesses to tracked folios. */
  function Clock(es: seq<Event>): nat
    decreases |es|
  {
    if es == [] then 0
    else
      var earlier, e := es[..|es| - 1], es[|es| - 1];
      match e
      case FolioAdded(_, relevant, listOk, metaOk) =>
        if relevant && listOk && metaOk then Clock(earlier) + 1 else Clock(earlier)
      case FolioAccessed(f, relevant) =>
        if relevant && Uses(earlier, f) != [] then Clock(earlier) + 1 else Clock(earlier)
      case _ => Clock(earlier)
  }

  function Shift(es: seq<Event>): nat {
    if es == [] then INITIAL_AGE_COARSENING_SHIFT
    else if es[|es| - 1].Reconfigure? then es[|es| - 1].shift
    else Shift(es[..|es| - 1])
  }

  /** The uses of f since it was last tracked, none when it is not tracked. */
  function Uses(es: seq<Event>, f: Folio): seq<Use>
    decreases |es|
  {
    if es == [] then []
    else
      var earlier, e := es[..|es| - 1], es[|es| - 1];
      var was := Uses(earlier, f);
      match e
      case FolioAdded(g, relevant, listOk, metaOk) =>
        if g == f && relevant && listOk && metaOk then [Use(Clock(earlier), Shift(earlier))] else was
      case FolioAccessed(g, relevant) =>
        if g == f && relevant && was != [] then was + [Use(Clock(earlier), Shift(earlier))] else was
      case FolioEvicted(g) => if g == f then [] else was
      case _ => was
  }

  /** Requests between a use and the one before. */
  function Gap(uses: seq<Use>, i: nat): nat
    requires 0 < i < |uses|
  {
    if uses[i].time >= uses[i - 1].time then uses[i].time - uses[i - 1].time else 0
  }

  function HitAge(uses: seq<Use>, i: nat): nat
    requires 0 < i < |uses|
  {
    Age(Gap(uses, i), uses[i].shift)
  }

  /** The age at the last hit, 0 before the first one. */
  function LastHitAge(uses: seq<Use>): nat {
    if |uses| >= 2 then HitAge(uses, |uses| - 1) else 0
  }

  /** The age at the hit before; 0 before the second one, and MAX_AGE before the first. */
  function HitAgeBefore(uses: seq<Use>): nat {
    if |uses| >= 3 then HitAge(uses, |uses| - 2) else if |uses| == 2 then 0 else MAX_AGE
  }

  /** The class a folio's history puts it in: that of its last two hit ages together. */
  function ClassOf(uses: seq<Use>): nat {
    DEFAULT_APP_ID * HIT_AGE_CLASSES + HitAgeClass(LastHitAge(uses) + HitAgeBefore(uses))
  }

  /** Requests since the last use of a tracked folio. */
  function RawNow(es: seq<Event>, f: Folio): nat
    requires Uses(es, f) != []
  {
    var last := Uses(es, f)[|Uses(es, f)| - 1].time;
    if Clock(es) >= last then Clock(es) - last else 0
  }

  /** The raw ages, one by one, at which folios of class c were hit since the last
      reconfiguration; with evicted, those at which tracked folios of class c were evicted. */
  function RawAges(es: seq<Event>, c: nat, evicted: bool): seq<nat> {
    if es == [] then []
    else
      var earlier, e := es[..|es| - 1], es[|es| - 1];
      var was := RawAges(earlier, c, evicted);
      match e
      case Reconfigure(_, _, _) => []
      case FolioAccessed(f, relevant) =>
        if !evicted && relevant && Uses(earlier, f) != [] && ClassOf(Uses(earlier, f)) == c
        then was + [RawNow(earlier, f)] else was
      case FolioEvicted(f) =>
        if evicted && Uses(earlier, f) != [] && ClassOf(Uses(earlier, f)) == c
        then was + [RawNow(earlier, f)] else was
      case _ => was
  }

  /** The histograms the last reconfiguration left, empty before the first. */
  ghost function LeftBy(es: seq<Event>, evicted: bool): Table {
    if es == [] then ZeroTable()
    else if es[|es| - 1].Reconfigure? then if evicted then es[|es| - 1].evictions else es[|es| - 1].hits
    else LeftBy(es[..|es| - 1], evicted)
  }

  // ---------------------------------------------------------------- metadata

  /** Metadata m tells the history uses. */
  ghost predicate Tells(m: FolioMeta, uses: seq<Use>, now: nat) {
    && uses != [] && m.lastAccessTime == uses[|uses| - 1].time <= now
    && m.lastHitAge == LastHitAge(uses) && m.lastLastHitAge == HitAgeBefore(uses)
    && m.app == DEFAULT_APP_ID
  }

  ghost predicate HistoryOk(es: seq<Event>, s: State) {
    && s.timestamp == Clock(es) && s.shift == Shift(es)
    && (forall f :: f in s.meta <==> Uses(es, f) != [])
    && (forall f :: f in s.meta ==> Tells(s.meta[f], Uses(es, f), s.timestamp))
  }

  /** One more event on the history. */
  lemma HistoryNext(es: seq<Event>, e: Event)
    ensures Shift(es + [e]) == if e.Reconfigure? then e.shift else Shift(es)
    ensures Clock(es + [e]) == Clock(es) +
            if e.FolioAdded? && e.relevant && e.listOk && e.metaOk then 1
            else if e.FolioAccessed? && e.relevant && Uses(es, e.folio) != [] then 1 else 0
    ensures forall f :: Uses(es + [e], f) ==
              if e.FolioAdded? && e.folio == f && e.relevant && e.listOk && e.metaOk then [Use(Clock(es), Shift(es))]
              else if e.FolioAccessed? && e.folio == f && e.relevant && Uses(es, f) != []
              then Uses(es, f) + [Use(Clock(es), Shift(es))]
              else if e.FolioEvicted? && e.folio == f then [] else Uses(es, f)
  {
    var all := es + [e];
    assert all[..|all| - 1] == es && all[|all| - 1] == e;
  }

  lemma TellsMore(m: FolioMeta, uses: seq<Use>, now: nat, shift: nat)
    requires Tells(m, uses, now)
    ensures var age := Age(RawAge(now, m.lastAccessTime), shift);
            Tells(m.(lastLastHitAge := m.lastHitAge, lastHitAge := age, lastAccessTime := now),
                  uses + [Use(now, shift)], now + 1)
  {
    hide Age;
    var more, n := uses + [Use(now, shift)], |uses|;
    if n >= 2 {
      assert Gap(more, n - 1) == Gap(uses, n - 1);
    }
  }

  lemma HistoryStep(es: seq<Event>, s: State, e: Event)
    requires HistoryOk(es, s) && Enabled(s, e) && (forall f :: f in s.meta ==> f in s.resident)
    ensures HistoryOk(es + [e], Next(s, e))
  {
    hide HistoryOk;
    match e
    case FolioAccessed(_, _) => AccessStep(es, s, e);
    case FolioAdded(_, _, _, _) => AddStep(es, s, e);
    case _ => OtherStep(es, s, e);
  }

  lemma OtherStep(es: seq<Event>, s: State, e: Event)
    requires HistoryOk(es, s) && Enabled(s, e) && !e.FolioAccessed? && !e.FolioAdded?
    ensures HistoryOk(es + [e], Next(s, e))
  {
    hide Clock, Shift, Uses, BumpCell, Tells, ClassIndex, Age, RawAge;
    HistoryNext(es, e);
  }

  lemma AccessStep(es: seq<Event>, s: State, e: Event)
    requires HistoryOk(es, s) && e.FolioAccessed?
    ensures HistoryOk(es + [e], Accessed(s, e.folio, e.relevant))
  {
    hide Clock, Shift, Uses, BumpCell, Tells, ClassIndex, Age, RawAge;
    HistoryNext(es, e);
    if e.relevant && e.folio in s.meta {
      TellsMore(s.meta[e.folio], Uses(es, e.folio), s.timestamp, s.shift);
      OlderTells(s, es);
    }
  }

  lemma AddStep(es: seq<Event>, s: State, e: Event)
    requires HistoryOk(es, s) && e.FolioAdded?
    ensures HistoryOk(es + [e], Added(s, e.folio, e.relevant, e.listOk, e.metaOk))
  {
    hide Clock, Shift, Uses, Tells;
    HistoryNext(es, e);
    FreshTells(s.timestamp, s.shift);
    OlderTells(s, es);
  }

  lemma OlderTells(s: State, es: seq<Event>)
    requires HistoryOk(es, s)
    ensures forall f :: f in s.meta ==> Tells(s.meta[f], Uses(es, f), s.timestamp + 1)
  {
    hide Clock, Shift, Uses, LastHitAge, HitAgeBefore;
  }

  lemma FreshTells(now: nat, shift: nat)
    ensures Tells(FolioMeta(now, 0, MAX_AGE, DEFAULT_APP_ID % APP_CLASSES), [Use(now, shift)], now + 1)
  {
  }

  /** In every run the metadata tells each tracked folio's history: its last use, and the ages at
      its last two hits. */
  lemma {:induction false} RunsTellHistory(es: seq<Event>, s: State)
    requires Reaches(es, s)
    ensures HistoryOk(es, s)
    decreases |es|
  {
    if es != [] {
      hide Reaches, Enabled, Next, HistoryOk, Inv;
      var n := |es| - 1;
      var before := LastStep(es, s);
      RunsTellHistory(es[..n], before);
      RunsKeepInv(es[..n], before);
      TrackedResident(before);
      HistoryStep(es[..n], before, es[n]);
      assert es == es[..n] + [es[n]];
    }
  }

  lemma TrackedResident(s: State)
    requires Inv(s)
    ensures forall f :: f in s.meta ==> f in s.resident && MetaOk(s.meta[f], s.timestamp)
    ensures IsTable(s.hits) && IsTable(s.evictions)
  {
  }

  /** f was added and not evicted since. */
  predicate Here(es: seq<Event>, f: Folio) {
    if es == [] then false
    else
      var e := es[|es| - 1];
      if e.FolioAdded? && e.folio == f then true
      else if e.FolioEvicted? && e.folio == f then false
      else Here(es[..|es| - 1], f)
  }

  /** Resident are the folios added and not evicted since, tracked or not. */
  lemma {:induction false} ResidentExactly(es: seq<Event>, s: State)
    requires Reaches(es, s)
    ensures forall f :: f in s.resident <==> Here(es, f)
    decreases |es|
  {
    hide BumpCell, ClassIndex, Age, RawAge, Mass;
    if es != [] {
      var before := LastStep(es, s);
      hide Reaches;
      ResidentExactly(es[..|es| - 1], before);
    }
  }

  // ---------------------------------------------------------------- cells

  /** t' is t with one event more in the cell of class c and age a. */
  ghost predicate OneMore(t: Table, t': Table, c: nat, a: nat)
    requires IsTable(t)
  {
    && IsTable(t')
    && forall d, b :: 0 <= d < NUM_CLASSES && 0 <= b < MAX_AGE ==>
         t'[d][b] == t[d][b] + if d == c && b == a then 0x10_0000 else 0
  }

  lemma CellBumped(t: Table, c: nat, a: nat)
    requires IsTable(t) && c < NUM_CLASSES && a < MAX_AGE
    ensures OneMore(t, BumpCell(t, c, a), c, a)
  {
  }

  /** A relevant hit raises the cell of the folio's own class and age, and no other; the other table
      stays. So does an eviction. */
  lemma HitRecorded(s: State, f: Folio)
    requires Inv(s) && f in s.meta
    ensures var c, a := ClassId(s.meta[f]), Age(s.timestamp - s.meta[f].lastAccessTime, s.shift);
            && c < NUM_CLASSES && a < MAX_AGE
            && OneMore(s.hits, Accessed(s, f, true).hits, c, a) && Accessed(s, f, true).evictions == s.evictions
            && OneMore(s.evictions, Evicted(s, f).evictions, c, a) && Evicted(s, f).hits == s.hits
  {
    var m := s.meta[f];
    TrackedResident(s);
    IndicesInRange(m, s.timestamp, RawAge(s.timestamp, m.lastAccessTime), s.shift);
    CellBumped(s.hits, ClassIndex(m), Age(RawAge(s.timestamp, m.lastAccessTime), s.shift));
    CellBumped(s.evictions, ClassIndex(m), Age(RawAge(s.timestamp, m.lastAccessTime), s.shift));
    hide Inv, BumpCell, OneMore, IsTable, Age, ClassId, ClassIndex;
  }

  // ---------------------------------------------------------------- whole tables

  /** t is what was left and, per class, the histogram of the raw ages since. */
  ghost predicate Holds(es: seq<Event>, t: Table, evicted: bool) {
    && IsTable(t) && IsTable(LeftBy(es, evicted))
    && forall c, a :: 0 <= c < NUM_CLASSES && 0 <= a < MAX_AGE ==>
         t[c][a] == LeftBy(es, evicted)[c][a] + Histogram(RawAges(es, c, evicted), Shift(es))[a]
  }

  /** The event records an age: a hit, or an eviction, of a tracked folio. */
  ghost predicate Records(es: seq<Event>, e: Event, evicted: bool) {
    if evicted then e.FolioEvicted? && Uses(es, e.folio) != []
    else e.FolioAccessed? && e.relevant && Uses(es, e.folio) != []
  }

  lemma RawAgesNext(es: seq<Event>, e: Event, evicted: bool)
    ensures forall c :: RawAges(es + [e], c, evicted) ==
              if e.Reconfigure? then []
              else if Records(es, e, evicted) && ClassOf(Uses(es, e.folio)) == c
              then RawAges(es, c, evicted) + [RawNow(es, e.folio)] else RawAges(es, c, evicted)
    ensures LeftBy(es + [e], evicted)
         == if e.Reconfigure? then if evicted then e.evictions else e.hits else LeftBy(es, evicted)
  {
    var all := es + [e];
    assert all[..|all| - 1] == es && all[|all| - 1] == e;
  }

  lemma RecordedNext(ages: seq<nat>, raw: nat, shift: nat, a: nat)
    requires a < MAX_AGE
    ensures Histogram(ages + [raw], shift)[a]
         == Histogram(ages, shift)[a] + if Age(raw, shift) == a then HIT_SCALING_FACTOR else 0
    ensures Histogram([], shift)[a] == 0
  {
    assert (ages + [raw])[..|ages|] == ages;
  }

  lemma HoldsMore(es: seq<Event>, e: Event, t: Table, t': Table, evicted: bool)
    requires Holds(es, t, evicted) && Records(es, e, evicted)
    requires OneMore(t, t', ClassOf(Uses(es, e.folio)), Age(RawNow(es, e.folio), Shift(es)))
    ensures Holds(es + [e], t', evicted)
  {
    hide Histogram, Shift, RawAges, LeftBy, ClassOf, Uses, Clock, RawNow, Age;
    RawAgesNext(es, e, evicted);
    HistoryNext(es, e);
    forall c, a | 0 <= c < NUM_CLASSES && 0 <= a < MAX_AGE
      ensures t'[c][a]
           == LeftBy(es + [e], evicted)[c][a] + Histogram(RawAges(es + [e], c, evicted), Shift(es + [e]))[a]
    {
      RecordedNext(RawAges(es, c, evicted), RawNow(es, e.folio), Shift(es), a);
    }
  }

  lemma HoldsStill(es: seq<Event>, e: Event, t: Table, evicted: bool)
    requires Holds(es, t, evicted) && !Records(es, e, evicted) && !e.Reconfigure?
    ensures Holds(es + [e], t, evicted)
  {
    hide Histogram, Shift, RawAges, LeftBy, ClassOf, Uses, Clock, RawNow;
    RawAgesNext(es, e, evicted);
    HistoryNext(es, e);
  }

  lemma HoldsAnew(es: seq<Event>, e: Event, evicted: bool)
    requires e.Reconfigure? && IsTable(e.hits) && IsTable(e.evictions)
    ensures Holds(es + [e], if evicted then e.evictions else e.hits, evicted)
  {
    hide Histogram, Shift, RawAges, LeftBy, ClassOf, Uses, Clock, RawNow;
    RawAgesNext(es, e, evicted);
    HistoryNext(es, e);
    forall a | 0 <= a < MAX_AGE ensures Histogram([], Shift(es + [e]))[a] == 0 {
      RecordedNext([], 0, Shift(es + [e]), a);
    }
  }

  ghost function TableOf(s: State, evicted: bool): Table {
    if evicted then s.evictions else s.hits
  }

  /** The class and age an event is recorded at are those of the history. */
  lemma RecordedAt(es: seq<Event>, s: State, f: Folio)
    requires HistoryOk(es, s) && f in s.meta
    ensures ClassId(s.meta[f]) == ClassOf(Uses(es, f))
    ensures s.timestamp - s.meta[f].lastAccessTime == RawNow(es, f) && s.shift == Shift(es)
  {
    hide Uses, Clock, Shift, LastHitAge, HitAgeBefore, HitAgeClass;
  }

  lemma HoldsStep(es: seq<Event>, s: State, e: Event, evicted: bool)
    requires HistoryOk(es, s) && Inv(s) && Enabled(s, e) && Holds(es, TableOf(s, evicted), evicted)
    ensures Holds(es + [e], TableOf(Next(s, e), evicted), evicted)
  {
    hide Holds, Inv, ClassOf, Uses, Clock, Shift, RawNow, Age, OneMore, IsTable, BumpCell, ClassIndex, Tells;
    if Records(es, e, evicted) {
      HitRecorded(s, e.folio);
      RecordedAt(es, s, e.folio);
      HoldsMore(es, e, TableOf(s, evicted), TableOf(Next(s, e), evicted), evicted);
    } else if e.Reconfigure? {
      HoldsAnew(es, e, evicted);
    } else {
      HoldsStill(es, e, TableOf(s, evicted), evicted);
    }
  }

  lemma HoldsAtStart(evicted: bool)
    ensures Holds([], TableOf(Init(), evicted), evicted)
  {
    forall a | 0 <= a < MAX_AGE ensures Histogram([], Shift([]))[a] == 0 {
      RecordedNext([], 0, Shift([]), a);
    }
    hide Histogram;
  }

  /** In every run each class's hits are those the last reconfiguration left and the histogram, at
      the present shift, of the ages at which its folios were hit since; and its evictions those at
      which they were evicted. */
  lemma {:induction false} RunsRecordExactly(es: seq<Event>, s: State, evicted: bool)
    requires Reaches(es, s)
    ensures Holds(es, TableOf(s, evicted), evicted)
    decreases |es|
  {
    hide Enabled, Next, HistoryOk, Inv, Holds, Init, TableOf;
    if es == [] {
      HoldsAtStart(evicted);
    } else {
      hide Reaches;
      var n := |es| - 1;
      var before := LastStep(es, s);
      RunsRecordExactly(es[..n], before, evicted);
      RunsTellHistory(es[..n], before);
      RunsKeepInv(es[..n], before);
      HoldsStep(es[..n], before, es[n], evicted);
      assert es == es[..n] + [es[n]];
    }
  }

  lemma LastStep(es: seq<Event>, s: State) returns (before: State)
    requires Reaches(es, s) && es != []
    ensures Reaches(es[..|es| - 1], before) && Enabled(before, es[|es| - 1]) && s == Next(before, es[|es| - 1])
  {
    var n := |es| - 1;
    before :| Reaches(es[..n], before) && Enabled(before, es[n]) && s == Next(before, es[n]);
  }
}
