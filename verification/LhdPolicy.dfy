/** The LHD policy: the request clock, age classes and metadata behind its histograms, and
    what every run of its hooks keeps. */
module LhdPolicy {
  import opened Arith
  import opened PageCache
  import opened LhdHistogram

  const HIT_AGE_CLASSES: nat := 16
  const APP_CLASSES: nat := 16
  const NUM_CLASSES: nat := 256
  const REQS_PER_RECONFIG: nat := 0x10_0000
  const INITIAL_AGE_COARSENING_SHIFT: nat := 10
  const DEFAULT_APP_ID: nat := 1

  datatype FolioMeta = FolioMeta(lastAccessTime: nat, lastHitAge: nat, lastLastHitAge: nat, app: nat)

  // ---------------------------------------------------------------- age classes

  /** The least number of doublings, at most 15, that takes a hit age to MAX_AGE. */
  ghost predicate IsClass(hitAge: nat, c: nat) {
    && c < HIT_AGE_CLASSES
    && (hitAge == 0 ==> c == 0)
    && (hitAge > 0 ==> hitAge * Pow2(c) >= MAX_AGE && forall k :: 0 <= k < c ==> hitAge * Pow2(k) < MAX_AGE)
  }

  function HitAgeClass(hitAge: nat): (c: nat)
    ensures IsClass(hitAge, c)
  {
    if hitAge == 0 then 0 else ClassFrom(hitAge, 0)
  }

  function ClassFrom(hitAge: nat, c: nat): (r: nat)
    requires hitAge > 0 && c <= LOG_MAX_AGE && forall k :: 0 <= k < c ==> hitAge * Pow2(k) < MAX_AGE
    ensures IsClass(hitAge, r)
    decreases LOG_MAX_AGE - c
  {
    if hitAge * Pow2(c) >= MAX_AGE then c
    else
      LastClassSuffices(hitAge, c);
      ClassFrom(hitAge, c + 1)
  }

  lemma LastClassSuffices(hitAge: nat, c: nat)
    requires hitAge > 0 && c <= LOG_MAX_AGE && hitAge * Pow2(c) < MAX_AGE
    ensures c < LOG_MAX_AGE
  {
    MaxAgePow2();
    MulMono(1, hitAge, Pow2(c));
  }

  /** Older hit ages never get a larger class, and no hit age needs the last class. */
  lemma ClassesOrdered(a: nat, b: nat)
    requires 0 < a <= b
    ensures HitAgeClass(b) <= HitAgeClass(a) <= LOG_MAX_AGE
  {
    var c, d := HitAgeClass(a), HitAgeClass(b);
    MulMono(a, b, Pow2(c));
    LogSuffices(a, c);
  }

  lemma LogSuffices(a: nat, c: nat)
    requires a > 0 && IsClass(a, c)
    ensures c <= LOG_MAX_AGE
  {
    MaxAgePow2();
    MulMono(1, a, Pow2(LOG_MAX_AGE));
  }

  /** hit_age_to_class: doubling until MAX_AGE is reached. */
  method HitAgeToClass(hitAge: nat) returns (c: nat)
    ensures c == HitAgeClass(hitAge)
  {
    c := 0;
    if hitAge == 0 {
      return;
    }
    var h := hitAge;
    while h < MAX_AGE && c < HIT_AGE_CLASSES - 1
      invariant c <= LOG_MAX_AGE && h == hitAge * Pow2(c)
      invariant forall k :: 0 <= k < c ==> hitAge * Pow2(k) < MAX_AGE
    {
      LastClassSuffices(hitAge, c);
      NextDoubling(hitAge, c);
      h := 2 * h;
      c := c + 1;
    }
  }

  lemma NextDoubling(hitAge: nat, c: nat)
    ensures 2 * (hitAge * Pow2(c)) == hitAge * Pow2(c + 1)
  {
  }

  function ClassId(m: FolioMeta): nat {
    m.app * HIT_AGE_CLASSES + HitAgeClass(m.lastHitAge + m.lastLastHitAge)
  }

  /** get_class masks the class number to the table size. */
  function ClassIndex(m: FolioMeta): (c: nat)
    ensures c < NUM_CLASSES
  {
    ClassId(m) % NUM_CLASSES
  }

  // ---------------------------------------------------------------- the state machine

  /** Histograms of all classes, one row per class. */
  type Table = seq<seq<nat>>

  ghost predicate IsTable(t: Table) {
    |t| == NUM_CLASSES && forall c :: 0 <= c < NUM_CLASSES ==> |t[c]| == MAX_AGE
  }

  /** Totals for stating conservation: folios tracked and forgotten since the start, and hits
      and evictions since the histograms were last rewritten, with the masses left then. */
  datatype Tally = Tally(added: nat, evicted: nat, hitsSince: nat, evictionsSince: nat,
                         hitMass: nat, evictionMass: nat)

  datatype State = State(timestamp: nat, nextReconfiguration: nat, numReconfigurations: nat, shift: nat,
                         numObjects: nat, meta: map<Folio, FolioMeta>, resident: set<Folio>,
                         hits: Table, evictions: Table, basis: Basis, tally: Tally)

  /** What the densities were computed from: the class numbers alone, or the histograms that the
      last reconfiguration left. */
  datatype Basis = Initial | FromTables(hits: Table, evictions: Table)

  ghost predicate BasisOk(b: Basis) {
    b.FromTables? ==> IsTable(b.hits) && IsTable(b.evictions)
  }

  /** The density kept for a class and an age below the last. */
  ghost function DensityOn(b: Basis, c: nat, age: nat): nat
    requires BasisOk(b) && c < NUM_CLASSES && age < MAX_AGE
  {
    match b
    case Initial => InitialDensity(c, age)
    case FromTables(hits, evictions) => Density(hits[c], evictions[c], age)
  }

  /** The score by which a folio is ranked for eviction; the oldest age always scores zero. */
  ghost function Score(s: State, m: FolioMeta): nat
    requires BasisOk(s.basis)
  {
    var age := Age(RawAge(s.timestamp, m.lastAccessTime), s.shift);
    if age == MAX_AGE - 1 then 0 else DensityOn(s.basis, ClassIndex(m), age)
  }

  /** Unsigned 64-bit subtraction of two clock values. */
  function RawAge(now: nat, lastAccess: nat): nat {
    if now >= lastAccess then now - lastAccess else (now - lastAccess) % TWO_64
  }

  ghost function BumpCell(t: Table, c: nat, a: nat): Table {
    if c < |t| && a < |t[c]| then
      var row: seq<nat> := t[c][a := t[c][a] + HIT_SCALING_FACTOR];
      t[c := row]
    else t
  }

  /** One request: the clock advances, and at zero the countdown restarts. */
  ghost function Tick(s: State): State {
    if s.nextReconfiguration == 1
    then s.(timestamp := s.timestamp + 1, nextReconfiguration := REQS_PER_RECONFIG,
            numReconfigurations := s.numReconfigurations + 1)
    else s.(timestamp := s.timestamp + 1, nextReconfiguration := CountDown(s.nextReconfiguration))
  }

  /** Decrement of an unsigned 64-bit counter. */
  function CountDown(n: nat): nat {
    if n == 0 then TWO_64 - 1 else n - 1
  }

  ghost function Added(s: State, f: Folio, relevant: bool, listOk: bool, metaOk: bool): State {
    var s1 := s.(resident := s.resident + {f});
    if !relevant || !listOk || !metaOk then s1
    else
      Tick(s1.(meta := s.meta[f := FolioMeta(s.timestamp, 0, MAX_AGE, DEFAULT_APP_ID % APP_CLASSES)],
               numObjects := s.numObjects + 1,
               tally := s.tally.(added := s.tally.added + 1)))
  }

  ghost function Accessed(s: State, f: Folio, relevant: bool): State {
    if !relevant || f !in s.meta then s
    else
      var m := s.meta[f];
      var age := Age(RawAge(s.timestamp, m.lastAccessTime), s.shift);
      Tick(s.(meta := s.meta[f := m.(lastLastHitAge := m.lastHitAge, lastHitAge := age, lastAccessTime := s.timestamp)],
              hits := BumpCell(s.hits, ClassIndex(m), age),
              tally := s.tally.(hitsSince := s.tally.hitsSince + 1)))
  }

  ghost function Evicted(s: State, f: Folio): State {
    var s1 := s.(resident := s.resident - {f});
    if f !in s.meta then s1
    else
      var m := s.meta[f];
      s1.(meta := s.meta - {f},
          numObjects := CountDown(s.numObjects),
          evictions := BumpCell(s.evictions, ClassIndex(m), Age(RawAge(s.timestamp, m.lastAccessTime), s.shift)),
          tally := s.tally.(evicted := s.tally.evicted + 1, evictionsSince := s.tally.evictionsSince + 1))
  }

  /** A reconfiguration may leave any histograms and any shift. */
  ghost function Reconfigured(s: State, shift: nat, hits: Table, evictions: Table): State {
    s.(shift := shift, hits := hits, evictions := evictions, basis := FromTables(hits, evictions),
       tally := s.tally.(hitsSince := 0, evictionsSince := 0, hitMass := Mass(hits), evictionMass := Mass(evictions)))
  }

  datatype Event =
    | FolioAdded(folio: Folio, relevant: bool, listOk: bool, metaOk: bool)
    | FolioAccessed(folio: Folio, relevant: bool)
    | FolioEvicted(folio: Folio)
    | Reconfigure(shift: nat, hits: Table, evictions: Table)

  ghost function ZeroTable(): Table {
    seq(NUM_CLASSES, _ => seq(MAX_AGE, _ => 0))
  }

  ghost function Init(): State {
    State(0, REQS_PER_RECONFIG, 0, INITIAL_AGE_COARSENING_SHIFT, 0, map[], {}, ZeroTable(), ZeroTable(), Initial,
          Tally(0, 0, 0, 0, 0, 0))
  }

  ghost predicate Enabled(s: State, e: Event) {
    match e
    case FolioAdded(f, _, _, _) => f !in s.resident
    case FolioAccessed(f, _) => f in s.resident
    case FolioEvicted(f) => f in s.resident
    case Reconfigure(_, hits, evictions) => IsTable(hits) && IsTable(evictions)
  }

  ghost function Next(s: State, e: Event): State {
    match e
    case FolioAdded(f, relevant, listOk, metaOk) => Added(s, f, relevant, listOk, metaOk)
    case FolioAccessed(f, relevant) => Accessed(s, f, relevant)
    case FolioEvicted(f) => Evicted(s, f)
    case Reconfigure(shift, hits, evictions) => Reconfigured(s, shift, hits, evictions)
  }

  ghost predicate Reaches(es: seq<Event>, s: State)
    decreases |es|
  {
    if es == [] then s == Init()
    else
      var n := |es| - 1;
      exists before :: Reaches(es[..n], before) && Enabled(before, es[n]) && s == Next(before, es[n])
  }

  // ---------------------------------------------------------------- the invariant

  ghost function MassTo(t: Table, n: nat): nat
    requires n <= |t|
  {
    if n == 0 then 0 else MassTo(t, n - 1) + Total(t[n - 1])
  }

  /** All counts in a table. */
  ghost function Mass(t: Table): nat {
    MassTo(t, |t|)
  }

  ghost predicate MetaOk(m: FolioMeta, now: nat) {
    && m.lastAccessTime <= now
    && m.lastHitAge < MAX_AGE && m.lastLastHitAge <= MAX_AGE
    && m.app == DEFAULT_APP_ID % APP_CLASSES
  }

  ghost predicate ClockOk(s: State) {
    && 1 <= s.nextReconfiguration <= REQS_PER_RECONFIG
    && s.timestamp + s.nextReconfiguration == REQS_PER_RECONFIG * (s.numReconfigurations + 1)
  }

  ghost predicate TablesOk(s: State) {
    && IsTable(s.hits) && IsTable(s.evictions)
    && Mass(s.hits) == s.tally.hitMass + s.tally.hitsSince * HIT_SCALING_FACTOR
    && Mass(s.evictions) == s.tally.evictionMass + s.tally.evictionsSince * HIT_SCALING_FACTOR
  }

  ghost predicate Inv(s: State) {
    && ClockOk(s)
    && (forall f :: f in s.meta ==> f in s.resident && MetaOk(s.meta[f], s.timestamp))
    && s.numObjects == |s.meta|
    && s.numObjects + s.tally.evicted == s.tally.added
    && TablesOk(s)
  }

  /** The class and age of tracked metadata index the tables without any masking. */
  lemma IndicesInRange(m: FolioMeta, now: nat, raw: nat, shift: nat)
    requires MetaOk(m, now)
    ensures ClassId(m) < NUM_CLASSES && ClassIndex(m) == ClassId(m)
    ensures ClassId(m) / HIT_AGE_CLASSES == DEFAULT_APP_ID
    ensures Age(raw, shift) < MAX_AGE && Age(raw, shift) % MAX_AGE == Age(raw, shift)
  {
  }

  lemma {:induction false} MassSame(t: Table, t': Table, n: nat)
    requires n <= |t| && n <= |t'| && forall c :: 0 <= c < n ==> t[c] == t'[c]
    ensures MassTo(t, n) == MassTo(t', n)
  {
    if n > 0 {
      MassSame(t, t', n - 1);
    }
  }

  lemma RowBump(h: seq<nat>, a: nat)
    requires a < |h|
    ensures Total(h[a := h[a] + HIT_SCALING_FACTOR]) == Total(h) + HIT_SCALING_FACTOR
  {
    SumBump(h, h[a := h[a] + HIT_SCALING_FACTOR], a, HIT_SCALING_FACTOR, 0, |h|);
  }

  lemma {:induction false} MassBumpTo(t: Table, c: nat, a: nat, n: nat)
    requires c < n <= |t| && a < |t[c]|
    ensures MassTo(BumpCell(t, c, a), n) == MassTo(t, n) + HIT_SCALING_FACTOR
  {
    var t' := BumpCell(t, c, a);
    if c == n - 1 {
      MassSame(t, t', n - 1);
      RowBump(t[c], a);
    } else {
      MassBumpTo(t, c, a, n - 1);
    }
  }

  /** Recording one event adds exactly its weight to its table. */
  lemma MassBump(t: Table, c: nat, a: nat)
    requires IsTable(t) && c < NUM_CLASSES && a < MAX_AGE
    ensures IsTable(BumpCell(t, c, a)) && Mass(BumpCell(t, c, a)) == Mass(t) + HIT_SCALING_FACTOR
  {
    MassBumpTo(t, c, a, NUM_CLASSES);
  }

  lemma TickKeepsClock(s: State)
    requires ClockOk(s)
    ensures ClockOk(Tick(s)) && Tick(s).timestamp == s.timestamp + 1
    ensures Tick(s) == s.(timestamp := s.timestamp + 1, nextReconfiguration := Tick(s).nextReconfiguration,
                          numReconfigurations := Tick(s).numReconfigurations)
  {
  }

  lemma SizeAfterAdd(meta: map<Folio, FolioMeta>, f: Folio, m: FolioMeta)
    requires f !in meta
    ensures |meta[f := m]| == |meta| + 1
  {
    assert meta[f := m].Keys == meta.Keys + {f};
    assert |meta[f := m]| == |meta[f := m].Keys|;
  }

  lemma SizeAfterChange(meta: map<Folio, FolioMeta>, f: Folio, m: FolioMeta)
    requires f in meta
    ensures |meta[f := m]| == |meta|
  {
    assert meta[f := m].Keys == meta.Keys;
    assert |meta[f := m]| == |meta[f := m].Keys|;
  }

  lemma SizeAfterRemove(meta: map<Folio, FolioMeta>, f: Folio)
    requires f in meta
    ensures |meta - {f}| == |meta| - 1
  {
    assert (meta - {f}).Keys == meta.Keys - {f};
    assert |meta - {f}| == |(meta - {f}).Keys|;
  }

  lemma AddedKeeps(s: State, f: Folio, relevant: bool, listOk: bool, metaOk: bool)
    requires Inv(s) && f !in s.resident
    ensures Inv(Added(s, f, relevant, listOk, metaOk))
  {
    if relevant && listOk && metaOk {
      TickKeepsClock(s);
      SizeAfterAdd(s.meta, f, FolioMeta(s.timestamp, 0, MAX_AGE, DEFAULT_APP_ID % APP_CLASSES));
    }
  }

  lemma AccessedKeeps(s: State, f: Folio, relevant: bool)
    requires Inv(s)
    ensures Inv(Accessed(s, f, relevant))
  {
    if relevant && f in s.meta {
      var m := s.meta[f];
      IndicesInRange(m, s.timestamp, RawAge(s.timestamp, m.lastAccessTime), s.shift);
      MassBump(s.hits, ClassIndex(m), Age(RawAge(s.timestamp, m.lastAccessTime), s.shift));
      TickKeepsClock(s);
      SizeAfterChange(s.meta, f, Accessed(s, f, relevant).meta[f]);
    }
  }

  lemma EvictedKeeps(s: State, f: Folio)
    requires Inv(s)
    ensures Inv(Evicted(s, f))
  {
    if f in s.meta {
      var m := s.meta[f];
      IndicesInRange(m, s.timestamp, RawAge(s.timestamp, m.lastAccessTime), s.shift);
      MassBump(s.evictions, ClassIndex(m), Age(RawAge(s.timestamp, m.lastAccessTime), s.shift));
      SizeAfterRemove(s.meta, f);
    }
  }

  lemma {:induction false} ZeroMass(t: Table, n: nat)
    requires n <= |t| && forall c :: 0 <= c < n ==> forall a :: 0 <= a < |t[c]| ==> t[c][a] == 0
    ensures MassTo(t, n) == 0
  {
    if n > 0 {
      ZeroMass(t, n - 1);
      SumZero(t[n - 1], 0, |t[n - 1]|);
    }
  }

  lemma InitHolds()
    ensures Inv(Init())
  {
    ZeroMass(ZeroTable(), NUM_CLASSES);
  }

  lemma StepKeeps(s: State, e: Event)
    requires Inv(s) && Enabled(s, e)
    ensures Inv(Next(s, e))
  {
    match e
    case FolioAdded(f, relevant, listOk, metaOk) => AddedKeeps(s, f, relevant, listOk, metaOk);
    case FolioAccessed(f, relevant) => AccessedKeeps(s, f, relevant);
    case FolioEvicted(f) => EvictedKeeps(s, f);
    case Reconfigure(_, _, _) =>
  }

  lemma {:induction false} RunsKeepInv(es: seq<Event>, s: State)
    requires Reaches(es, s)
    ensures Inv(s)
    decreases |es|
  {
    if es == [] {
      InitHolds();
    } else {
      var n := |es| - 1;
      var before :| Reaches(es[..n], before) && Enabled(before, es[n]) && s == Next(before, es[n]);
      RunsKeepInv(es[..n], before);
      StepKeeps(before, es[n]);
    }
  }

  /** In every run: the object count is exact; the reconfiguration counters are the quotient
      and the countdown of the request clock; no access lies in the future; every folio still
      tracked was added and not evicted; and between rewrites the histograms hold exactly the
      hits and evictions recorded. */
  lemma RunsAccountExactly(es: seq<Event>, s: State)
    requires Reaches(es, s)
    ensures s.numObjects == |s.meta| && s.numObjects + s.tally.evicted == s.tally.added
    ensures s.numReconfigurations == s.timestamp / REQS_PER_RECONFIG
    ensures s.nextReconfiguration == REQS_PER_RECONFIG - s.timestamp % REQS_PER_RECONFIG
    ensures forall f :: f in s.meta ==>
              s.meta[f].lastAccessTime <= s.timestamp && ClassIndex(s.meta[f]) == ClassId(s.meta[f])
    ensures Mass(s.hits) == s.tally.hitMass + s.tally.hitsSince * HIT_SCALING_FACTOR
    ensures Mass(s.evictions) == s.tally.evictionMass + s.tally.evictionsSince * HIT_SCALING_FACTOR
  {
    RunsKeepInv(es, s);
    DivUnique(s.timestamp, REQS_PER_RECONFIG, s.numReconfigurations, REQS_PER_RECONFIG - s.nextReconfiguration);
    forall f | f in s.meta ensures ClassIndex(s.meta[f]) == ClassId(s.meta[f]) {
      IndicesInRange(s.meta[f], s.timestamp, 0, s.shift);
    }
  }

  // ---------------------------------------------------------------- scores

  ghost function LastBasis(es: seq<Event>): Basis
    decreases |es|
  {
    if es == [] then Initial
    else
      var n := |es| - 1;
      match es[n]
      case Reconfigure(_, hits, evictions) => FromTables(hits, evictions)
      case _ => LastBasis(es[..n])
  }

  lemma {:induction false} RunsKeepBasis(es: seq<Event>, s: State)
    requires Reaches(es, s)
    ensures s.basis == LastBasis(es) && BasisOk(s.basis)
    decreases |es|
  {
    if es != [] {
      var n := |es| - 1;
      var before :| Reaches(es[..n], before) && Enabled(before, es[n]) && s == Next(before, es[n]);
      RunsKeepBasis(es[..n], before);
      hide IsTable, BumpCell, Mass, ClassIndex, Age, RawAge;
    }
  }

  ghost predicate NoneYet(es: seq<Event>) {
    forall j :: 0 <= j < |es| ==> !es[j].Reconfigure?
  }

  /** The last reconfiguration of a run was event i, and left the histograms of b. */
  ghost predicate LastAt(es: seq<Event>, i: nat, b: Basis) {
    && i < |es| && es[i].Reconfigure? && b == FromTables(es[i].hits, es[i].evictions)
    && forall j :: i < j < |es| ==> !es[j].Reconfigure?
  }

  lemma {:induction false} BasisSince(es: seq<Event>)
    ensures NoneYet(es) ==> LastBasis(es) == Initial
    ensures forall i: nat, b :: LastAt(es, i, b) ==> LastBasis(es) == b
    decreases |es|
  {
    if es != [] {
      var n := |es| - 1;
      BasisSince(es[..n]);
      forall i: nat, b | LastAt(es, i, b)
        ensures LastBasis(es) == b
      {
        if i < n {
          assert !es[n].Reconfigure? && LastAt(es[..n], i, b);
        }
      }
    }
  }

  /** m scores the density of its class and age on b, and zero at the last age. */
  ghost predicate ScoresOn(s: State, m: FolioMeta, b: Basis) {
    var age := Age(RawAge(s.timestamp, m.lastAccessTime), s.shift);
    && BasisOk(s.basis) && BasisOk(b) && ClassId(m) < NUM_CLASSES && age < MAX_AGE
    && Score(s, m) == if age == MAX_AGE - 1 then 0 else DensityOn(b, ClassId(m), age)
  }

  /** In every run, whatever was recorded since: a tracked folio's score comes from the histograms
      that the last reconfiguration left, and before the first one from its class and age alone. */
  lemma RunsScoreExactly(es: seq<Event>, s: State, f: Folio)
    requires Reaches(es, s) && f in s.meta
    ensures NoneYet(es) ==> ScoresOn(s, s.meta[f], Initial)
    ensures forall i: nat, b :: LastAt(es, i, b) ==> ScoresOn(s, s.meta[f], b)
  {
    hide Reaches, LastBasis, NoneYet, LastAt, TablesOk;
    var m := s.meta[f];
    RunsKeepInv(es, s);
    RunsKeepBasis(es, s);
    BasisSince(es);
    IndicesInRange(m, s.timestamp, RawAge(s.timestamp, m.lastAccessTime), s.shift);
    hide ClassId, ClassIndex, Age, RawAge, DensityOn, BasisOk;
  }
}
