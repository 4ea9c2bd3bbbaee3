/** The LHD hooks as they run over class objects with in-place histograms, each proved to
    perform its step of the state machine; and the whole reconfiguration. */
module LhdHooks {
  import opened Arith
  import opened PageCache
  import opened LhdHistogram
  import opened LhdPolicy

  ghost function Rows(classes: seq<LhdClass>, evictions: bool): (t: Table)
    reads set c | c in classes :: c.hits
    reads set c | c in classes :: c.evictions
    ensures |t| == |classes|
  {
    seq(|classes|, c requires 0 <= c < |classes|
                     reads (set d | d in classes :: d.hits), (set d | d in classes :: d.evictions) =>
      if evictions then classes[c].evictions[..] else classes[c].hits[..])
  }

  /** The classes are well formed and share no array. */
  ghost predicate Separate(classes: seq<LhdClass>) {
    && (forall i :: 0 <= i < |classes| ==> classes[i].Valid())
    && (forall i, j :: 0 <= i < |classes| && 0 <= j < |classes| && i != j ==> Apart(classes[i], classes[j]))
    && (forall i, j :: 0 <= i < |classes| && 0 <= j < |classes| ==>
          classes[i].hits != classes[j].evictions && classes[i].hits != classes[j].hitDensities
          && classes[i].evictions != classes[j].hitDensities)
  }

  ghost predicate Apart(c: LhdClass, d: LhdClass) {
    c != d && c.hits != d.hits && c.evictions != d.evictions && c.hitDensities != d.hitDensities
  }

  ghost predicate Untouched(c: LhdClass, index: nat)
    requires c.Valid()
    reads c.hits, c.evictions, c.hitDensities
  {
    && c.hits[..] == c.evictions[..] == seq(MAX_AGE, _ => 0)
    && forall i :: 0 <= i < MAX_AGE ==> c.hitDensities[i] == InitialDensity(index, i)
  }

  method NewClasses() returns (classes: seq<LhdClass>)
    ensures |classes| == NUM_CLASSES && Separate(classes)
    ensures forall c :: 0 <= c < NUM_CLASSES ==> Untouched(classes[c], c)
  {
    classes := [];
    for n := 0 to NUM_CLASSES
      invariant |classes| == n && Separate(classes)
      invariant forall c :: 0 <= c < n ==> Untouched(classes[c], c)
    {
      var c := new LhdClass(n);
      classes := classes + [c];
    }
  }

  lemma ZeroRows(classes: seq<LhdClass>, evictions: bool)
    requires |classes| == NUM_CLASSES && Separate(classes)
    requires forall c :: 0 <= c < NUM_CLASSES ==> Untouched(classes[c], c)
    ensures Rows(classes, evictions) == ZeroTable()
  {
    var rows := Rows(classes, evictions);
    forall c | 0 <= c < NUM_CLASSES ensures rows[c] == ZeroTable()[c] {
      assert Untouched(classes[c], c);
    }
  }

  class Policy {
    const classes: seq<LhdClass>
    var timestamp: nat
    var nextReconfiguration: nat
    var numReconfigurations: nat
    var shift: nat
    var numObjects: nat
    var meta: map<Folio, FolioMeta>
    ghost var resident: set<Folio>
    ghost var basis: Basis
    ghost var tally: Tally

    ghost predicate Valid() {
      |classes| == NUM_CLASSES && Separate(classes)
    }

    /** The stored densities are those of the basis. */
    ghost predicate Scored()
      requires Valid()
      reads this`basis, set c | c in classes :: c.hitDensities
    {
      && BasisOk(basis)
      && forall c :: 0 <= c < NUM_CLASSES ==>
           forall i :: 0 <= i < MAX_AGE - 1 ==> classes[c].hitDensities[i] == DensityOn(basis, c, i)
    }

    /** lhd_init: zeroed counters and clock, and the initial densities of each class. */
    constructor ()
      ensures Valid() && Scored() && View() == Init()
      ensures forall c, i :: 0 <= c < NUM_CLASSES && 0 <= i < MAX_AGE ==>
                classes[c].hitDensities[i] == InitialDensity(c, i)
    {
      timestamp, nextReconfiguration, numReconfigurations := 0, REQS_PER_RECONFIG, 0;
      shift, numObjects, meta, resident := INITIAL_AGE_COARSENING_SHIFT, 0, map[], {};
      basis, tally := Initial, Tally(0, 0, 0, 0, 0, 0);
      var cs := NewClasses();
      classes := cs;
      new;
      ZeroRows(classes, false);
      ZeroRows(classes, true);
    }

    ghost function Cells(): set<object> {
      (set c: LhdClass | c in classes :: c as object) + (set c: LhdClass | c in classes :: c.hits as object)
      + (set c: LhdClass | c in classes :: c.evictions as object)
      + (set c: LhdClass | c in classes :: c.hitDensities as object)
    }

    ghost function View(): State
      reads this, set c | c in classes :: c.hits
      reads set c | c in classes :: c.evictions
    {
      State(timestamp, nextReconfiguration, numReconfigurations, shift, numObjects, meta, resident,
            Rows(classes, false), Rows(classes, true), basis, tally)
    }

    method GetAge(m: FolioMeta) returns (age: nat)
      ensures age == Age(RawAge(timestamp, m.lastAccessTime), shift)
    {
      age := Shr(RawAge(timestamp, m.lastAccessTime), shift);
      if age >= MAX_AGE {
        age := MAX_AGE - 1;
      }
    }

    method GetClass(m: FolioMeta) returns (c: nat)
      ensures c == ClassIndex(m)
    {
      var k := HitAgeToClass(m.lastHitAge + m.lastLastHitAge);
      c := (m.app * HIT_AGE_CLASSES + k) % NUM_CLASSES;
    }

    /** One more hit or eviction in a cell of a class. */
    method Record(c: nat, age: nat, evictions: bool)
      requires Valid() && c < NUM_CLASSES && age < MAX_AGE
      modifies classes[c].hits, classes[c].evictions
      ensures Rows(classes, evictions) == BumpCell(old(Rows(classes, evictions)), c, age)
      ensures Rows(classes, !evictions) == old(Rows(classes, !evictions))
    {
      if evictions {
        classes[c].evictions[age] := classes[c].evictions[age] + HIT_SCALING_FACTOR;
      } else {
        classes[c].hits[age] := classes[c].hits[age] + HIT_SCALING_FACTOR;
      }
    }

    method AdvanceClock()
      modifies this`timestamp, this`nextReconfiguration, this`numReconfigurations
      ensures View() == Tick(old(View()))
    {
      timestamp := timestamp + 1;
      nextReconfiguration := CountDown(nextReconfiguration);
      if nextReconfiguration == 0 {
        nextReconfiguration := REQS_PER_RECONFIG;
        numReconfigurations := numReconfigurations + 1;
      }
    }

    method FolioAdded(f: Folio, relevant: bool, listOk: bool, metaOk: bool)
      modifies this
      ensures View() == Added(old(View()), f, relevant, listOk, metaOk)
      ensures old(Valid() && Scored()) ==> Scored()
    {
      resident := resident + {f};
      if !relevant || !listOk || !metaOk {
        return;
      }
      meta := meta[f := FolioMeta(timestamp, 0, MAX_AGE, DEFAULT_APP_ID % APP_CLASSES)];
      numObjects := numObjects + 1;
      tally := tally.(added := tally.added + 1);
      AdvanceClock();
    }

    method FolioAccessed(f: Folio, relevant: bool)
      requires Valid()
      modifies this, set c | c in classes :: c.hits
      modifies set c | c in classes :: c.evictions
      ensures View() == Accessed(old(View()), f, relevant)
      ensures forall c :: 0 <= c < NUM_CLASSES ==> classes[c].hitDensities[..] == old(classes[c].hitDensities[..])
      ensures old(Scored()) ==> Scored()
    {
      hide Age, RawAge, HitAgeClass, ClassId, ClassIndex, BumpCell;
      if !relevant || f !in meta {
        return;
      }
      var m := meta[f];
      var age := GetAge(m);
      var c := GetClass(m);
      meta := meta[f := m.(lastLastHitAge := m.lastHitAge, lastHitAge := age, lastAccessTime := timestamp)];
      Record(c, age, false);
      tally := tally.(hitsSince := tally.hitsSince + 1);
      AdvanceClock();
    }

    method FolioEvicted(f: Folio)
      requires Valid()
      modifies this, set c | c in classes :: c.hits
      modifies set c | c in classes :: c.evictions
      ensures View() == Evicted(old(View()), f)
      ensures forall c :: 0 <= c < NUM_CLASSES ==> classes[c].hitDensities[..] == old(classes[c].hitDensities[..])
      ensures old(Scored()) ==> Scored()
    {
      hide Age, RawAge, HitAgeClass, ClassId, ClassIndex, BumpCell;
      if f !in meta {
        resident := resident - {f};
        return;
      }
      var m := meta[f];
      var age := GetAge(m);
      var c := GetClass(m);
      Record(c, age, true);
      Untrack(f);
    }

    /** The bookkeeping of an eviction: one object less, its metadata gone. */
    method Untrack(f: Folio)
      requires f in meta
      modifies this
      ensures var s := old(View());
              View() == s.(resident := s.resident - {f}, meta := s.meta - {f}, numObjects := CountDown(s.numObjects),
                           tally := s.tally.(evicted := s.tally.evicted + 1,
                                             evictionsSince := s.tally.evictionsSince + 1))
    {
      resident := resident - {f};
      numObjects := CountDown(numObjects);
      tally := tally.(evicted := tally.evicted + 1, evictionsSince := tally.evictionsSince + 1);
      meta := meta - {f};
    }

    /** What a reconfiguration leaves of a histogram. */
    ghost function Rewritten(h: seq<nat>, coarsening: nat): (r: seq<nat>)
      requires |h| == MAX_AGE
      ensures |r| == MAX_AGE
    {
      if coarsening > 0 then Coarse(Decayed(h), coarsening) else Decayed(h)
    }

    ghost predicate RewrittenFrom(c: LhdClass, h: seq<nat>, e: seq<nat>, coarsening: nat)
      requires c.Valid() && |h| == |e| == MAX_AGE
      reads c.hits, c.evictions
    {
      c.hits[..] == Rewritten(h, coarsening) && c.evictions[..] == Rewritten(e, coarsening)
    }

    ghost predicate Modelled(c: LhdClass)
      requires c.Valid()
      reads c.hits, c.evictions, c.hitDensities
    {
      c.ModelledOn(c.hits[..], c.evictions[..])
    }

    method UpdateAll()
      requires Valid()
      modifies Cells()
      ensures forall c :: 0 <= c < NUM_CLASSES ==>
        RewrittenFrom(classes[c], old(classes[c].hits[..]), old(classes[c].evictions[..]), 0)
    {
      for n := 0 to NUM_CLASSES
        invariant forall c :: 0 <= c < n ==>
          RewrittenFrom(classes[c], old(classes[c].hits[..]), old(classes[c].evictions[..]), 0)
        invariant forall c :: n <= c < NUM_CLASSES ==>
          classes[c].hits[..] == old(classes[c].hits[..]) && classes[c].evictions[..] == old(classes[c].evictions[..])
      {
        classes[n].Update();
      }
    }

    /** compress_distribution over all classes. */
    method CompressAll(coarsening: nat)
      requires Valid() && coarsening > 0
      modifies Cells()
      ensures forall c :: 0 <= c < NUM_CLASSES ==>
        && classes[c].hits[..] == Coarse(old(classes[c].hits[..]), coarsening)
        && classes[c].evictions[..] == Coarse(old(classes[c].evictions[..]), coarsening)
    {
      for n := 0 to NUM_CLASSES
        invariant forall c :: 0 <= c < n ==>
          && classes[c].hits[..] == Coarse(old(classes[c].hits[..]), coarsening)
          && classes[c].evictions[..] == Coarse(old(classes[c].evictions[..]), coarsening)
        invariant forall c :: n <= c < NUM_CLASSES ==>
          classes[c].hits[..] == old(classes[c].hits[..]) && classes[c].evictions[..] == old(classes[c].evictions[..])
      {
        classes[n].Compress(coarsening);
      }
    }

    method ModelAll()
      requires Valid()
      modifies set c | c in classes :: c.hitDensities
      ensures forall c :: 0 <= c < NUM_CLASSES ==> Modelled(classes[c])
      ensures forall c :: 0 <= c < NUM_CLASSES ==>
        classes[c].hits[..] == old(classes[c].hits[..]) && classes[c].evictions[..] == old(classes[c].evictions[..])
    {
      for n := 0 to NUM_CLASSES
        invariant forall c :: 0 <= c < n ==> Modelled(classes[c])
      {
        classes[n].ModelHitDensity();
      }
    }

    /** Decay all histograms, then coarsen them if the shift grew. */
    method RewriteAll(coarsening: nat)
      requires Valid()
      modifies Cells()
      ensures forall c :: 0 <= c < NUM_CLASSES ==>
        RewrittenFrom(classes[c], old(classes[c].hits[..]), old(classes[c].evictions[..]), coarsening)
    {
      UpdateAll();
      if coarsening > 0 {
        CompressAll(coarsening);
      }
    }

    /** reconfigure, with the shift change it decided on: in every class the counters decay,
        are coarsened if the shift grew, and the densities are modelled anew. */
    method Reconfigure(coarsening: nat)
      requires Valid()
      modifies this`shift, this`basis, this`tally, Cells()
      ensures Scored() && shift == old(shift) + coarsening
      ensures forall c :: 0 <= c < NUM_CLASSES ==>
        && RewrittenFrom(classes[c], old(classes[c].hits[..]), old(classes[c].evictions[..]), coarsening)
        && Modelled(classes[c])
      ensures View() == Reconfigured(old(View()), shift, Rows(classes, false), Rows(classes, true))
    {
      hide Mass, Coarse, Decayed, Density;
      RemodelAll(coarsening);
      StartTally(shift + coarsening);
      ModelledScored();
    }

    lemma ModelledScored()
      requires Valid() && basis == FromTables(Rows(classes, false), Rows(classes, true))
      requires forall c :: 0 <= c < NUM_CLASSES ==> Modelled(classes[c])
      ensures Scored()
    {
      hide Density;
    }

    method RemodelAll(coarsening: nat)
      requires Valid()
      modifies Cells()
      ensures forall c :: 0 <= c < NUM_CLASSES ==>
        && RewrittenFrom(classes[c], old(classes[c].hits[..]), old(classes[c].evictions[..]), coarsening)
        && Modelled(classes[c])
    {
      RewriteAll(coarsening);
      ModelAll();
    }

    method StartTally(newShift: nat)
      modifies this`shift, this`basis, this`tally
      ensures shift == newShift && basis == FromTables(Rows(classes, false), Rows(classes, true))
      ensures View() == Reconfigured(old(View()), newShift, Rows(classes, false), Rows(classes, true))
    {
      shift, basis := newShift, FromTables(Rows(classes, false), Rows(classes, true));
      tally := tally.(hitsSince := 0, evictionsSince := 0,
                      hitMass := Mass(Rows(classes, false)), evictionMass := Mass(Rows(classes, true)));
    }

    /** get_hit_density, the score by which folios are sampled for eviction. If the densities of
        the folio's class were last modelled on histograms h and e, the score is h's hits from its
        age on against the lifetime of those it met, in the fixed scale; recording since then has
        not changed it. Until the first reconfiguration it falls with age alone. */
    method HitDensity(m: FolioMeta) returns (density: nat)
      requires Valid()
      ensures var age, c := Age(RawAge(timestamp, m.lastAccessTime), shift), ClassIndex(m);
              && density == (if age == MAX_AGE - 1 then 0 else classes[c].hitDensities[age])
              && (forall h: seq<nat>, e: seq<nat> :: |h| == |e| == MAX_AGE && classes[c].ModelledOn(h, e) ==>
                    density == if age == MAX_AGE - 1 then 0 else Density(h, e, age))
              && ((forall i :: 0 <= i < MAX_AGE ==> classes[c].hitDensities[i] == InitialDensity(c, i)) ==>
                    density == if age == MAX_AGE - 1 then 0 else InitialDensity(c, age))
      ensures Scored() ==> density == Score(View(), m)
    {
      var age := GetAge(m);
      if age == MAX_AGE - 1 {
        return 0;
      }
      var c := GetClass(m);
      return classes[c].hitDensities[age];
    }
  }
}
