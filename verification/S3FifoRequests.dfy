/** What an S3-FIFO eviction call on the main list hands over: verdicts, not folios. How often a
    folio is chosen, and exactly when a request holds distinct folios. */
module S3FifoRequests {
  import opened Lists
  import opened PageCache
  import opened S3Fifo

  // ---------------------------------------------------------------- verdicts against folios

  /** How often a folio was chosen. */
  ghost function Times(sc: MainScan, f: Folio): nat {
    multiset(sc.selected)[f]
  }

  lemma {:induction false} PassCounts(sc: MainScan, order: seq<Folio>, eligible: set<Folio>, id: nat,
                                      request: nat, f: Folio)
    requires NoDup(sc.main) && NoDup(order) && forall g :: g in order ==> g in sc.main
    requires |MainPass(sc, order, eligible, id, request).selected| < request
    ensures Times(MainPass(sc, order, eligible, id, request), f)
         == Times(sc, f) + (if f in order && Counted(sc, eligible, f) && sc.meta[f].freq - 1 < id then 1 else 0)
    decreases |order|
  {
    if order != [] {
      var n := |order| - 1;
      var mid := MainPass(sc, order[..n], eligible, id, request);
      MainPassLowers(sc, order[..n], eligible, id, request);
      MainVisitLowers(mid, order[n], eligible, id, request);
      PassVisitsAll(sc, order[..n], eligible, id, request);
      PassCounts(sc, order[..n], eligible, id, request, f);
      SplitLast(order);
    }
  }

  /** A chosen folio stays on the list and is chosen again by every later pass: after n full
      passes it was chosen once for each pass from its first on, so a request is filled with
      verdicts, not with folios. */
  lemma {:induction false} PassesCount(sc: MainScan, orders: seq<seq<Folio>>, eligible: set<Folio>,
                                       request: nat, n: nat, f: Folio)
    requires NoDup(sc.main) && n <= |orders| && sc.selected == []
    requires forall i :: 0 <= i < n ==> Covers(orders[i], sc.main)
    requires |MainPasses(sc, orders, eligible, request, n).selected| < request
    ensures Times(MainPasses(sc, orders, eligible, request, n), f)
         == if f in sc.main && Counted(sc, eligible, f) && FirstPass(sc.meta[f].freq) < n
            then n - FirstPass(sc.meta[f].freq) else 0
  {
    if n > 0 {
      var mid := MainPasses(sc, orders, eligible, request, n - 1);
      MainPassesLower(sc, orders, eligible, request, n - 1);
      MainPassLowers(mid, orders[n - 1], eligible, n - 1, request);
      PassesSelect(sc, orders, eligible, request, n - 1);
      PassesCount(sc, orders, eligible, request, n - 1, f);
      PassCounts(mid, orders[n - 1], eligible, n - 1, request, f);
    }
  }

  /** Once the request is full, a pass changes nothing. */
  lemma {:induction false} FullPassIdle(sc: MainScan, order: seq<Folio>, eligible: set<Folio>, id: nat, request: nat)
    requires |sc.selected| >= request
    ensures MainPass(sc, order, eligible, id, request) == sc
    decreases |order|
  {
    if order != [] {
      FullPassIdle(sc, order[..|order| - 1], eligible, id, request);
    }
  }

  lemma {:induction false} FullPassesIdle(sc: MainScan, orders: seq<seq<Folio>>, eligible: set<Folio>,
                                          request: nat, m: nat, n: nat)
    requires m <= n <= |orders| && |MainPasses(sc, orders, eligible, request, m).selected| >= request
    ensures MainPasses(sc, orders, eligible, request, n) == MainPasses(sc, orders, eligible, request, m)
    decreases n - m
  {
    if m < n {
      FullPassesIdle(sc, orders, eligible, request, m, n - 1);
      FullPassIdle(MainPasses(sc, orders, eligible, request, m), orders[n - 1], eligible, n - 1, request);
    }
  }

  lemma {:induction false} PassLeaves(sc: MainScan, order: seq<Folio>, eligible: set<Folio>, id: nat, request: nat,
                                      f: Folio)
    requires f !in order
    ensures var r := MainPass(sc, order, eligible, id, request);
            (f in r.meta <==> f in sc.meta) && (f in sc.meta ==> r.meta[f] == sc.meta[f])
    decreases |order|
  {
    if order != [] {
      PassLeaves(sc, order[..|order| - 1], eligible, id, request, f);
    }
  }

  /** A pass, filled or not, chooses no folio twice, and only eligible ones left with fewer uses
      than its threshold. */
  lemma {:induction false} PassChoosesOnce(sc: MainScan, order: seq<Folio>, eligible: set<Folio>, id: nat, request: nat)
    requires NoDup(order)
    ensures var r := MainPass(sc, order, eligible, id, request);
            && |sc.selected| <= |r.selected| && r.selected[..|sc.selected|] == sc.selected
            && (forall f :: f in r.selected[|sc.selected|..] ==>
                  f in order && Counted(sc, eligible, f) && sc.meta[f].freq - 1 < id)
            && NoDup(r.selected[|sc.selected|..])
    decreases |order|
  {
    if order != [] {
      var n := |order| - 1;
      var mid := MainPass(sc, order[..n], eligible, id, request);
      PassChoosesOnce(sc, order[..n], eligible, id, request);
      SplitLast(order);
      PassLeaves(sc, order[..n], eligible, id, request, order[n]);
      var r := MainPass(sc, order, eligible, id, request);
      var was := mid.selected[|sc.selected|..];
      if r.selected != mid.selected {
        assert r.selected[|sc.selected|..] == was + [order[n]];
        AppendNoDup(was, order[n]);
      }
    }
  }

  // ---------------------------------------------------------------- when a request holds distinct folios

  /** The folios whose first pass is p. */
  ghost function FirstChosen(sc: MainScan, eligible: set<Folio>, p: nat): set<Folio> {
    set f | f in sc.main && Counted(sc, eligible, f) && FirstPass(sc.meta[f].freq) == p
  }

  /** p is the first pass in which anything can be chosen. */
  ghost predicate LeastPass(sc: MainScan, eligible: set<Folio>, p: nat) {
    && FirstChosen(sc, eligible, p) != {}
    && forall f :: f in sc.main && Counted(sc, eligible, f) ==> p <= FirstPass(sc.meta[f].freq)
  }

  ghost predicate AllCover(orders: seq<seq<Folio>>, main: seq<Folio>) {
    |orders| == PASSES && forall i :: 0 <= i < PASSES ==> Covers(orders[i], main)
  }

  /** Pass n chooses only folios whose first pass is n or earlier. */
  lemma PassChoosesDue(sc: MainScan, orders: seq<seq<Folio>>, eligible: set<Folio>, request: nat, n: nat)
    requires NoDup(sc.main) && sc.selected == [] && AllCover(orders, sc.main) && n < PASSES
    requires |MainPasses(sc, orders, eligible, request, n).selected| < request
    ensures var before := MainPasses(sc, orders, eligible, request, n);
            var r := MainPasses(sc, orders, eligible, request, n + 1);
            && |before.selected| <= |r.selected| && r.selected[..|before.selected|] == before.selected
            && NoDup(r.selected[|before.selected|..])
            && forall f :: f in r.selected[|before.selected|..] ==>
                 f in sc.main && Counted(sc, eligible, f) && FirstPass(sc.meta[f].freq) <= n
  {
    var before := MainPasses(sc, orders, eligible, request, n);
    PassesSelect(sc, orders, eligible, request, n);
    PassChoosesOnce(before, orders[n], eligible, n, request);
  }

  lemma EmptyOrSome<T>(l: seq<T>)
    ensures l == [] || exists x :: x in l
  {
    if l != [] {
      assert l[0] in l;
    }
  }

  lemma {:induction false} NothingDue(sc: MainScan, orders: seq<seq<Folio>>, eligible: set<Folio>, request: nat,
                                      p: nat, n: nat)
    requires NoDup(sc.main) && sc.selected == [] && AllCover(orders, sc.main) && request > 0
    requires LeastPass(sc, eligible, p) && n <= p < PASSES
    ensures MainPasses(sc, orders, eligible, request, n).selected == []
  {
    if n > 0 {
      NothingDue(sc, orders, eligible, request, p, n - 1);
      PassChoosesDue(sc, orders, eligible, request, n - 1);
      var r := MainPasses(sc, orders, eligible, request, n);
      assert r.selected[0..] == r.selected;
      EmptyOrSome(r.selected);
    }
  }

  /** The first pass that chooses anything leaves distinct folios, all of them due then; and all
      that are due, if the request is not filled. */
  lemma AfterLeastPass(sc: MainScan, orders: seq<seq<Folio>>, eligible: set<Folio>, request: nat, p: nat)
    requires NoDup(sc.main) && sc.selected == [] && AllCover(orders, sc.main) && request > 0
    requires LeastPass(sc, eligible, p) && p < PASSES
    ensures var r, due := MainPasses(sc, orders, eligible, request, p + 1).selected, FirstChosen(sc, eligible, p);
            && NoDup(r) && Elems(r) <= due && |r| <= |due|
            && (|r| < request ==> Elems(r) == due && |r| == |due|)
  {
    hide MainPasses, NoDup, Covers;
    var r, due := MainPasses(sc, orders, eligible, request, p + 1).selected, FirstChosen(sc, eligible, p);
    NothingDue(sc, orders, eligible, request, p, p);
    PassChoosesDue(sc, orders, eligible, request, p);
    assert r[0..] == r;
    ElemsSize(r);
    SubsetSize(Elems(r), due);
    if |r| < request {
      PassesSelect(sc, orders, eligible, request, p + 1);
      assert Elems(r) == due;
    }
  }

  lemma {:induction false} PassesExtend(sc: MainScan, orders: seq<seq<Folio>>, eligible: set<Folio>, request: nat,
                                        m: nat, n: nat)
    requires NoDup(sc.main) && m <= n <= |orders|
    ensures var was, now := MainPasses(sc, orders, eligible, request, m), MainPasses(sc, orders, eligible, request, n);
            |was.selected| <= |now.selected| && now.selected[..|was.selected|] == was.selected
    decreases n - m
  {
    if m < n {
      PassesExtend(sc, orders, eligible, request, m, n - 1);
      MainPassesLower(sc, orders, eligible, request, n - 1);
      var was := MainPasses(sc, orders, eligible, request, m).selected;
      var mid := MainPasses(sc, orders, eligible, request, n - 1);
      MainPassLowers(mid, orders[n - 1], eligible, n - 1, request);
      var now := MainPasses(sc, orders, eligible, request, n).selected;
      assert now[..|mid.selected|][..|was|] == now[..|was|];
    }
  }

  lemma PrefixNoDup<T>(a: seq<T>, longer: seq<T>)
    requires |a| <= |longer| && longer[..|a|] == a && NoDup(longer)
    ensures NoDup(a)
  {
    assert forall i :: 0 <= i < |a| ==> a[i] == longer[i];
  }

  /** An order that shows f first. */
  ghost function HeadFirst(main: seq<Folio>, f: Folio): seq<Folio> {
    [f] + Without(main, f)
  }

  lemma HeadFirstCovers(main: seq<Folio>, f: Folio)
    requires NoDup(main) && f in main
    ensures Covers(HeadFirst(main, f), main)
  {
    WithoutNoDup(main, f);
    var order, rest := HeadFirst(main, f), Without(main, f);
    forall i, j | 0 <= i < j < |order| ensures order[i] != order[j] {
      assert order[j] == rest[j - 1] && order[j] in rest;
      if i > 0 {
        assert order[i] == rest[i - 1];
      }
    }
  }

  /** A pass that shows a due, already chosen folio first, with room left, chooses it again. */
  lemma HeadChosenAgain(sc: MainScan, order: seq<Folio>, eligible: set<Folio>, id: nat, request: nat)
    requires order != [] && order[0] in sc.main && Counted(sc, eligible, order[0]) && order[0] in sc.selected
    requires sc.meta[order[0]].freq - 1 < id && |sc.selected| < request && NoDup(sc.main)
    ensures !NoDup(MainPass(sc, order, eligible, id, request).selected)
  {
    var f := order[0];
    var one := MainPass(sc, order[..1], eligible, id, request);
    assert order[..1][..0] == [] && MainPass(sc, [], eligible, id, request) == sc;
    assert one == MainVisit(sc, f, eligible, id, request);
    var k :| 0 <= k < |sc.selected| && sc.selected[k] == f;
    assert one.selected[k] == one.selected[|sc.selected|] == f;
    PassGrows(sc, order, eligible, id, request, 1);
    if NoDup(MainPass(sc, order, eligible, id, request).selected) {
      PrefixNoDup(one.selected, MainPass(sc, order, eligible, id, request).selected);
    }
  }

  lemma {:induction false} PassGrows(sc: MainScan, order: seq<Folio>, eligible: set<Folio>, id: nat,
                                     request: nat, m: nat)
    requires m <= |order|
    ensures var was, now := MainPass(sc, order[..m], eligible, id, request), MainPass(sc, order, eligible, id, request);
            |was.selected| <= |now.selected| && now.selected[..|was.selected|] == was.selected
    decreases |order|
  {
    if m == |order| {
      assert order[..m] == order;
    } else {
      var n := |order| - 1;
      PassGrows(sc, order[..n], eligible, id, request, m);
      assert order[..n][..m] == order[..m];
    }
  }

  ghost predicate DistinctFor(sc: MainScan, orders: seq<seq<Folio>>, eligible: set<Folio>, request: nat)
    requires |orders| == PASSES
  {
    NoDup(MainPasses(sc, orders, eligible, request, PASSES).selected)
  }

  /** Whatever the visiting orders, an eviction call on the main list hands over distinct folios
      exactly when those due in the first pass that chooses anything fill the request. */
  lemma DistinctExactly(sc: MainScan, eligible: set<Folio>, request: nat, p: nat)
    requires NoDup(sc.main) && sc.selected == [] && LeastPass(sc, eligible, p) && p <= 2
    ensures (forall orders :: AllCover(orders, sc.main) ==> DistinctFor(sc, orders, eligible, request))
            <==> |FirstChosen(sc, eligible, p)| >= request
  {
    if |FirstChosen(sc, eligible, p)| >= request {
      forall orders | AllCover(orders, sc.main) ensures DistinctFor(sc, orders, eligible, request) {
        DistinctWhenFilled(sc, orders, eligible, request, p);
      }
    } else {
      var orders := RepeatingOrders(sc, eligible, p);
      RepeatedWhenShort(sc, orders, eligible, request, p);
    }
  }

  lemma DistinctWhenFilled(sc: MainScan, orders: seq<seq<Folio>>, eligible: set<Folio>, request: nat, p: nat)
    requires NoDup(sc.main) && sc.selected == [] && LeastPass(sc, eligible, p) && p <= 2
    requires AllCover(orders, sc.main) && |FirstChosen(sc, eligible, p)| >= request
    ensures DistinctFor(sc, orders, eligible, request)
  {
    if request == 0 {
      FullPassesIdle(sc, orders, eligible, request, 0, PASSES);
    } else {
      AfterLeastPass(sc, orders, eligible, request, p);
      FullPassesIdle(sc, orders, eligible, request, p + 1, PASSES);
    }
  }

  /** Orders that show a folio of the first choosing pass first in every pass. */
  lemma RepeatingOrders(sc: MainScan, eligible: set<Folio>, p: nat) returns (orders: seq<seq<Folio>>)
    requires NoDup(sc.main) && LeastPass(sc, eligible, p)
    ensures AllCover(orders, sc.main)
    ensures forall i :: 0 <= i < PASSES ==> orders[i] != [] && orders[i][0] in FirstChosen(sc, eligible, p)
    ensures forall i :: 0 <= i < PASSES ==> orders[i] == orders[0]
  {
    var f :| f in FirstChosen(sc, eligible, p);
    HeadFirstCovers(sc.main, f);
    var order := HeadFirst(sc.main, f);
    orders := [order, order, order, order];
  }

  lemma RepeatedWhenShort(sc: MainScan, orders: seq<seq<Folio>>, eligible: set<Folio>, request: nat, p: nat)
    requires NoDup(sc.main) && sc.selected == [] && LeastPass(sc, eligible, p) && p <= 2
    requires AllCover(orders, sc.main) && |FirstChosen(sc, eligible, p)| < request
    requires orders[p + 1] != [] && orders[p + 1][0] in FirstChosen(sc, eligible, p)
    ensures !DistinctFor(sc, orders, eligible, request)
  {
    var mid := MainPasses(sc, orders, eligible, request, p + 1);
    DueAgain(sc, orders, eligible, request, p, orders[p + 1][0]);
    hide MainPass, FirstChosen, LeastPass, Covers;
    HeadChosenAgain(mid, orders[p + 1], eligible, p + 1, request);
    PassesExtend(sc, orders, eligible, request, p + 2, PASSES);
    if DistinctFor(sc, orders, eligible, request) {
      PrefixNoDup(MainPasses(sc, orders, eligible, request, p + 2).selected,
                  MainPasses(sc, orders, eligible, request, PASSES).selected);
    }
  }

  /** A folio due in the first choosing pass is chosen by it, stays listed, and is due again. */
  lemma DueAgain(sc: MainScan, orders: seq<seq<Folio>>, eligible: set<Folio>, request: nat, p: nat, f: Folio)
    requires NoDup(sc.main) && sc.selected == [] && LeastPass(sc, eligible, p) && p <= 2
    requires AllCover(orders, sc.main) && |FirstChosen(sc, eligible, p)| < request && f in FirstChosen(sc, eligible, p)
    ensures var mid := MainPasses(sc, orders, eligible, request, p + 1);
            && NoDup(mid.main) && f in mid.main && Counted(mid, eligible, f) && mid.meta[f].freq - 1 < p + 1
            && f in mid.selected && |mid.selected| < request
  {
    hide MainPasses, MainPass, LeastPass, Covers;
    var mid := MainPasses(sc, orders, eligible, request, p + 1);
    AfterLeastPass(sc, orders, eligible, request, p);
    PassesSelect(sc, orders, eligible, request, p + 1);
    MainPassesLower(sc, orders, eligible, request, p + 1);
    assert f in Elems(mid.selected);
  }

  lemma LeastPassExists(sc: MainScan, eligible: set<Folio>, f: Folio) returns (p: nat)
    requires f in sc.main && Counted(sc, eligible, f)
    requires forall g :: g in sc.meta ==> sc.meta[g].freq <= 3
    ensures p <= 2 && LeastPass(sc, eligible, p)
  {
    assert f in FirstChosen(sc, eligible, FirstPass(sc.meta[f].freq));
    p := if FirstChosen(sc, eligible, 0) != {} then 0 else if FirstChosen(sc, eligible, 1) != {} then 1 else 2;
    forall g | g in sc.main && Counted(sc, eligible, g) ensures p <= FirstPass(sc.meta[g].freq) {
      assert g in FirstChosen(sc, eligible, FirstPass(sc.meta[g].freq));
    }
  }

  /** In every reachable state: whatever the visiting orders, an eviction call on the main list
      hands over distinct folios exactly when no main folio is eligible or those due in the first
      pass that chooses anything fill the request. */
  lemma RequestsDistinctExactly(cacheSize: nat, es: seq<Event>, s: State, eligible: set<Folio>, request: nat)
    requires Reaches(cacheSize, es, s)
    ensures var sc := MainScan(s.meta, s.main, []);
            (forall orders :: AllCover(orders, s.main) ==> DistinctFor(sc, orders, eligible, request)) <==>
            forall p :: LeastPass(sc, eligible, p) ==> |FirstChosen(sc, eligible, p)| >= request
  {
    RunsKeepInv(cacheSize, es, s);
    var sc := MainScan(s.meta, s.main, []);
    if f :| f in s.main && f in eligible {
      var p := LeastPassExists(sc, eligible, f);
      DistinctExactly(sc, eligible, request, p);
      forall q | LeastPass(sc, eligible, q) ensures q == p {
        LeastPassOne(sc, eligible, p, q);
      }
    } else {
      forall orders | AllCover(orders, s.main) ensures DistinctFor(sc, orders, eligible, request) {
        NobodyEligible(sc, orders, eligible, request, PASSES);
      }
      forall p ensures FirstChosen(sc, eligible, p) == {} {
      }
    }
  }

  lemma LeastPassOne(sc: MainScan, eligible: set<Folio>, p: nat, q: nat)
    requires LeastPass(sc, eligible, p) && LeastPass(sc, eligible, q)
    ensures p == q
  {
    var f :| f in FirstChosen(sc, eligible, p);
    var g :| g in FirstChosen(sc, eligible, q);
  }

  lemma {:induction false} NobodyEligible(sc: MainScan, orders: seq<seq<Folio>>, eligible: set<Folio>, request: nat,
                                          n: nat)
    requires NoDup(sc.main) && sc.selected == [] && AllCover(orders, sc.main) && n <= PASSES
    requires forall f :: f in sc.main ==> f !in eligible
    ensures MainPasses(sc, orders, eligible, request, n).selected == []
  {
    if n > 0 {
      NobodyEligible(sc, orders, eligible, request, n - 1);
      if request > 0 {
        PassChoosesDue(sc, orders, eligible, request, n - 1);
        var r := MainPasses(sc, orders, eligible, request, n);
        assert r.selected[0..] == r.selected;
        EmptyOrSome(r.selected);
      } else {
        FullPassIdle(MainPasses(sc, orders, eligible, request, n - 1), orders[n - 1], eligible, n - 1, request);
      }
    }
  }

  /** With frequencies 0 and 3 and a request for two, the first folio fills both places and the
      second, eligible one is never chosen. */
  lemma RequestFilledTwiceByOne(meta: map<Folio, FolioMeta>, a: Folio, b: Folio)
    requires a != b && a in meta && b in meta && meta[a].freq == 0 && meta[b].freq == 3
    ensures var orders := [[a, b], [a, b], [a, b], [a, b]];
            MainPasses(MainScan(meta, [a, b], []), orders, {a, b}, 2, PASSES).selected == [a, a]
  {
    var eligible, order, sc := {a, b}, [a, b], MainScan(meta, [a, b], []);
    var orders := [order, order, order, order];
    hide MainPass, MainPasses;
    var two := FirstPassKeepsOne(meta, a, b, eligible);
    var three := SecondPassFull(two, a, b, eligible);
    TwoPasses(sc, orders, eligible, 2);
    FullPassesIdle(sc, orders, eligible, 2, 2, PASSES);
  }

  lemma TwoPasses(sc: MainScan, orders: seq<seq<Folio>>, eligible: set<Folio>, request: nat)
    requires |orders| == PASSES
    ensures MainPasses(sc, orders, eligible, request, 2)
         == MainPass(MainPass(sc, orders[0], eligible, 0, request), orders[1], eligible, 1, request)
  {
    hide MainPass;
    assert MainPasses(sc, orders, eligible, request, 0) == sc;
    assert MainPasses(sc, orders, eligible, request, 1) == MainPass(sc, orders[0], eligible, 0, request);
  }

  lemma FirstPassKeepsOne(meta: map<Folio, FolioMeta>, a: Folio, b: Folio, eligible: set<Folio>) returns (r: MainScan)
    requires a != b && a in meta && b in meta && meta[a].freq == 0 && meta[b].freq == 3
    requires a in eligible && b in eligible
    ensures MainPass(MainScan(meta, [a, b], []), [a, b], eligible, 0, 2) == r
    ensures r.main == [a, b] && r.selected == [a] && a in r.meta && r.meta[a].freq == -1
  {
    hide MainVisit, MainPass;
    var meta1 := meta[a := meta[a].(freq := -1)];
    VisitHead(meta, a, b, eligible, [], 0, 2);
    VisitHead(meta1, b, a, eligible, [a], 0, 2);
    TwoVisits(MainScan(meta, [a, b], []), a, b, eligible, 0, 2);
    r := MainScan(meta1[b := meta1[b].(freq := 2)], [a, b], [a]);
    assert [] + [a] == [a];
  }

  lemma SecondPassFull(sc: MainScan, a: Folio, b: Folio, eligible: set<Folio>) returns (r: MainScan)
    requires a != b && sc.main == [a, b] && sc.selected == [a] && a in sc.meta && sc.meta[a].freq == -1 && a in eligible
    ensures MainPass(sc, [a, b], eligible, 1, 2) == r && r.selected == [a, a]
  {
    VisitHead(sc.meta, a, b, eligible, [a], 1, 2);
    TwoVisits(sc, a, b, eligible, 1, 2);
    r := MainVisit(sc, a, eligible, 1, 2);
    hide MainVisit, MainPass;
  }

  lemma VisitHead(meta: map<Folio, FolioMeta>, a: Folio, b: Folio, eligible: set<Folio>, chosen: seq<Folio>,
                  id: nat, request: nat)
    requires a != b && a in meta && a in eligible && |chosen| < request
    ensures MainVisit(MainScan(meta, [a, b], chosen), a, eligible, id, request)
         == MainScan(meta[a := meta[a].(freq := meta[a].freq - 1)], [b, a],
                     if meta[a].freq - 1 < id then chosen + [a] else chosen)
  {
    assert Without([a, b], a) == [b];
  }

  lemma TwoVisits(sc: MainScan, a: Folio, b: Folio, eligible: set<Folio>, id: nat, request: nat)
    ensures MainPass(sc, [a, b], eligible, id, request)
         == MainVisit(MainVisit(sc, a, eligible, id, request), b, eligible, id, request)
  {
    assert [a, b][..1] == [a] && [a][..0] == [];
    assert MainPass(sc, [], eligible, id, request) == sc;
    assert MainPass(sc, [a], eligible, id, request) == MainVisit(sc, a, eligible, id, request);
  }

  // ---------------------------------------------------------------- that input as a run

  /** Two pages come, go, and come back from the ghost map; the second is used three times. */
  function ReturningEvents(a: Folio, k: PageKey, b: Folio, l: PageKey): seq<Event> {
    [FolioAdded(a, k, true, true, true), FolioAdded(b, l, true, true, true),
     FolioEvicted(a, true), FolioEvicted(b, true),
     FolioAdded(a, k, true, true, true), FolioAdded(b, l, true, true, true),
     FolioAccessed(b, true), FolioAccessed(b, true), FolioAccessed(b, true)]
  }

  const NO_DRIFT: Drift := Drift(0, 0, 0, 0, 0, 0, 0)

  function BothMain(a: Folio, k: PageKey, b: Folio, l: PageKey, freq: int): State {
    State(map[a := FolioMeta(0, true), b := FolioMeta(freq, true)], [], [a, b], {}, 0, 2,
          map[a := k, b := l], {a, b}, NO_DRIFT)
  }

  /** The states of that run. */
  function Returning(a: Folio, k: PageKey, b: Folio, l: PageKey): (states: seq<State>)
    ensures |states| == 10 && states[0] == Init() && states[9] == BothMain(a, k, b, l, 3)
  {
    [Init(),
     State(map[a := FolioMeta(0, false)], [a], [], {}, 1, 0, map[a := k], {a}, NO_DRIFT),
     State(map[a := FolioMeta(0, false), b := FolioMeta(0, false)], [a, b], [], {}, 2, 0,
           map[a := k, b := l], {a, b}, NO_DRIFT),
     State(map[b := FolioMeta(0, false)], [b], [], {k}, 1, 0, map[b := l], {b}, NO_DRIFT),
     State(map[], [], [], {k, l}, 0, 0, map[], {}, NO_DRIFT),
     State(map[a := FolioMeta(0, true)], [], [a], {l}, 0, 1, map[a := k], {a}, NO_DRIFT),
     BothMain(a, k, b, l, 0), BothMain(a, k, b, l, 1), BothMain(a, k, b, l, 2), BothMain(a, k, b, l, 3)]
  }

  lemma Coming(cacheSize: nat, a: Folio, k: PageKey, b: Folio, l: PageKey, i: nat)
    requires a != b && k != l && i < 2
    ensures StepOk(cacheSize, ReturningEvents(a, k, b, l), Returning(a, k, b, l), i)
  {
  }

  lemma Going(cacheSize: nat, a: Folio, k: PageKey, b: Folio, l: PageKey, i: nat)
    requires a != b && k != l && 2 <= i < 4
    ensures StepOk(cacheSize, ReturningEvents(a, k, b, l), Returning(a, k, b, l), i)
  {
    assert [a, b][1..] == [b] && [b][1..] == [];
    assert Without([b], a) == [b] && Without([b], b) == [];
  }

  lemma ComingBack(cacheSize: nat, a: Folio, k: PageKey, b: Folio, l: PageKey, i: nat)
    requires a != b && k != l && 4 <= i < 6
    ensures StepOk(cacheSize, ReturningEvents(a, k, b, l), Returning(a, k, b, l), i)
  {
  }

  lemma Used(cacheSize: nat, a: Folio, k: PageKey, b: Folio, l: PageKey, i: nat)
    requires a != b && 6 <= i < 9
    ensures StepOk(cacheSize, ReturningEvents(a, k, b, l), Returning(a, k, b, l), i)
  {
    assert Returning(a, k, b, l)[i] == BothMain(a, k, b, l, i - 6);
    assert Returning(a, k, b, l)[i + 1] == BothMain(a, k, b, l, i - 5);
    assert ReturningEvents(a, k, b, l)[i] == FolioAccessed(b, true);
  }

  /** A run ends in a state whose next eviction call, for two folios, takes from the main list and
      is handed the same folio twice while another is eligible and not chosen. */
  lemma RepeatingRun(cacheSize: nat, a: Folio, k: PageKey, b: Folio, l: PageKey)
    requires cacheSize >= 15 && a != b && k != l
    ensures var s, orders := BothMain(a, k, b, l, 3), [[a, b], [a, b], [a, b], [a, b]];
            && Reaches(cacheSize, ReturningEvents(a, k, b, l), s)
            && !FromSmall(s.smallSize, s.mainSize, cacheSize) && AllCover(orders, s.main)
            && MainPasses(MainScan(s.meta, s.main, []), orders, {a, b}, 2, PASSES).selected == [a, a]
  {
    var es, states := ReturningEvents(a, k, b, l), Returning(a, k, b, l);
    assert |es| == 9;
    RequestFilledTwiceByOne(BothMain(a, k, b, l, 3).meta, a, b);
    hide StepOk, MainPasses, ReturningEvents, Returning, Reaches;
    forall i | 0 <= i < |es| ensures StepOk(cacheSize, es, states, i) {
      if i < 2 {
        Coming(cacheSize, a, k, b, l, i);
      } else if i < 4 {
        Going(cacheSize, a, k, b, l, i);
      } else if i < 6 {
        ComingBack(cacheSize, a, k, b, l, i);
      } else {
        Used(cacheSize, a, k, b, l, i);
      }
    }
    RunReaches(cacheSize, es, states);
  }
}
