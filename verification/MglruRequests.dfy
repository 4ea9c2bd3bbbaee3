/** What an MGLRU eviction call hands over: verdicts, not folios. How many verdicts and how many
    distinct folios a call yields, and exactly when the two agree. */
module MglruRequests {
  import opened Lists
  import opened PageCache
  import opened MglruGen
  import opened Mglru
  import opened MglruRuns
  import opened MglruAlways

  // ---------------------------------------------------------------- one pass

  /** A folio the callback lets go: not worth protecting, and not pinned. */
  ghost predicate Fits(s: State, sc: Scan, pinned: set<Folio>, f: Folio) {
    f in s.meta && TierFromRefs(s.meta[f].accesses) <= sc.threshold && f !in pinned
  }

  ghost function Choosable(s: State, sc: Scan, pinned: set<Folio>): set<Folio>
    requires sc.curr < |s.lists|
  {
    set f | f in s.lists[sc.curr] && Fits(s, sc, pinned, f)
  }

  /** The visits of a pass in the given order. */
  ghost function Shown(order: seq<Folio>, pinned: set<Folio>): (r: seq<Visit>)
    ensures |r| == |order| && forall i :: 0 <= i < |r| ==> r[i] == Visit(order[i], order[i] in pinned)
  {
    seq(|order|, i requires 0 <= i < |order| => Visit(order[i], order[i] in pinned))
  }

  /** One node of the oldest list, shown while there is room: it is chosen and kept on the list,
      or promoted off the list. */
  lemma VisitPicks(pr: Progress, f: Folio, pinned: set<Folio>, sc: Scan)
    requires ListsOk(pr.s.lists, pr.s.meta) && ScanOk(sc) && |pr.selected| < sc.request && f in pr.s.lists[sc.curr]
    ensures Picked(pr, VisitNode(pr, Visit(f, f in pinned), sc), f, pinned, sc)
  {
    assert f in pr.s.meta;
    hide ListsOk, TierFromRefs;
    var tier := TierFromRefs(pr.s.meta[f].accesses);
    if tier > sc.threshold {
      PromotePicks(ProtectBump(pr.s, tier), f, sc);
      hide Promote;
    } else if f in pinned {
      PromotePicks(pr.s, f, sc);
      hide Promote;
    }
  }

  ghost predicate Picked(pr: Progress, r: Progress, f: Folio, pinned: set<Folio>, sc: Scan)
    requires sc.curr < |pr.s.lists|
  {
    && |r.s.lists| == |pr.s.lists| && SameFolios(pr.s.meta, r.s.meta)
    && r.selected == (if Fits(pr.s, sc, pinned, f) then pr.selected + [f] else pr.selected)
    && forall g :: g in r.s.lists[sc.curr]
                   <==> g in pr.s.lists[sc.curr] && (g == f ==> Fits(pr.s, sc, pinned, f))
  }

  lemma PromotePicks(s: State, f: Folio, sc: Scan)
    requires ScanOk(sc) && |s.lists| == MAX_NR_GENS && f in s.meta
    ensures var r := Promote(s, f, sc);
            && |r.lists| == |s.lists| && SameFolios(s.meta, r.meta)
            && forall g :: g in r.lists[sc.curr] <==> g in s.lists[sc.curr] && g != f
  {
    var was := s.lists[sc.curr];
    assert Promote(s, f, sc).lists[sc.curr] == Without(was, f);
  }

  /** A pass that showed order chose only folios shown that fit, each once. */
  ghost predicate NewOnes(s: State, chosen: seq<Folio>, order: seq<Folio>, pinned: set<Folio>, sc: Scan) {
    && NoDup(chosen) && (forall f :: f in chosen ==> f in order && Fits(s, sc, pinned, f))
  }

  /** It chose all of them. */
  ghost predicate AllOnes(s: State, chosen: seq<Folio>, order: seq<Folio>, pinned: set<Folio>, sc: Scan) {
    forall f :: f in order && Fits(s, sc, pinned, f) ==> f in chosen
  }

  /** What a pass over distinct listed folios makes of a call in progress: the new verdicts are
      distinct folios that fit; and while there is room, all that fit were chosen and exactly the
      others shown have left the list. */
  ghost predicate Picks(pr: Progress, r: Progress, order: seq<Folio>, pinned: set<Folio>, sc: Scan)
    requires sc.curr < |pr.s.lists|
  {
    && |r.s.lists| == |pr.s.lists| && SameFolios(pr.s.meta, r.s.meta)
    && Chooses(pr, r, order, pinned, sc) && Leaves(pr, r, order, pinned, sc)
  }

  ghost predicate Chooses(pr: Progress, r: Progress, order: seq<Folio>, pinned: set<Folio>, sc: Scan) {
    && |pr.selected| <= |r.selected| && r.selected[..|pr.selected|] == pr.selected
    && (|pr.selected| <= sc.request ==> |r.selected| <= sc.request)
    && NewOnes(pr.s, r.selected[|pr.selected|..], order, pinned, sc)
    && (|r.selected| < sc.request ==> AllOnes(pr.s, r.selected[|pr.selected|..], order, pinned, sc))
  }

  ghost predicate Leaves(pr: Progress, r: Progress, order: seq<Folio>, pinned: set<Folio>, sc: Scan)
    requires sc.curr < |pr.s.lists| && |r.s.lists| == |pr.s.lists|
  {
    |r.selected| < sc.request ==>
      forall f :: f in r.s.lists[sc.curr]
                  <==> f in pr.s.lists[sc.curr] && (f in order ==> Fits(pr.s, sc, pinned, f))
  }

  lemma {:induction false} PassPicks(pr: Progress, order: seq<Folio>, pinned: set<Folio>, sc: Scan)
    requires AlwaysCore(pr.s) && ScanOk(sc) && |pr.s.lists| == MAX_NR_GENS && NoDup(order)
    requires forall f :: f in order ==> f in pr.s.lists[sc.curr]
    ensures Picks(pr, Pass(pr, Shown(order, pinned), sc), order, pinned, sc)
    decreases |order|
  {
    hide VisitNode, Picks, Fits, TrueCounts, ListsOk, ListedResident, GensOk;
    if order == [] {
      NothingPicked(pr, pinned, sc);
    } else {
      var n := |order| - 1;
      var visits := Shown(order, pinned);
      SplitLast(order);
      assert visits[..n] == Shown(order[..n], pinned);
      var mid := Pass(pr, visits[..n], sc);
      PassPicks(pr, order[..n], pinned, sc);
      PassAlways(pr, visits[..n], sc);
      LastPick(pr, mid, order, pinned, sc);
    }
  }

  lemma NothingPicked(pr: Progress, pinned: set<Folio>, sc: Scan)
    requires sc.curr < |pr.s.lists|
    ensures Picks(pr, pr, [], pinned, sc)
  {
  }

  lemma LastPick(pr: Progress, mid: Progress, order: seq<Folio>, pinned: set<Folio>, sc: Scan)
    requires ListsOk(mid.s.lists, mid.s.meta) && ScanOk(sc) && |pr.s.lists| == MAX_NR_GENS
    requires NoDup(order) && order != []
    requires forall f :: f in order ==> f in pr.s.lists[sc.curr]
    requires Picks(pr, mid, order[..|order| - 1], pinned, sc)
    ensures var last := order[|order| - 1];
            Picks(pr, VisitNode(mid, Visit(last, last in pinned), sc), order, pinned, sc)
  {
    var n := |order| - 1;
    var last := order[n];
    SplitLast(order);
    var r := VisitNode(mid, Visit(last, last in pinned), sc);
    if |mid.selected| < sc.request {
      VisitPicks(mid, last, pinned, sc);
      hide VisitNode, ListsOk, Fits;
      OneMorePick(pr, mid, r, order[..n], last, pinned, sc);
      PicksByElems(pr, r, order[..n] + [last], order, pinned, sc);
    } else {
      assert r == mid;
      hide VisitNode, ListsOk, Fits;
    }
  }

  lemma PicksByElems(pr: Progress, r: Progress, order: seq<Folio>, order': seq<Folio>, pinned: set<Folio>, sc: Scan)
    requires sc.curr < |pr.s.lists| && Picks(pr, r, order, pinned, sc)
    requires forall f :: f in order <==> f in order'
    ensures Picks(pr, r, order', pinned, sc)
  {
    hide Fits, SameFolios, NoDup;
  }

  lemma OneMorePick(pr: Progress, mid: Progress, r: Progress, order: seq<Folio>, f: Folio,
                    pinned: set<Folio>, sc: Scan)
    requires sc.curr < |pr.s.lists| && |mid.s.lists| == |pr.s.lists| && Picks(pr, mid, order, pinned, sc)
    requires f !in order && |mid.selected| < sc.request
    requires forall g :: Fits(pr.s, sc, pinned, g) <==> Fits(mid.s, sc, pinned, g)
    requires Picked(mid, r, f, pinned, sc)
    ensures Picks(pr, r, order + [f], pinned, sc)
  {
    hide Fits, NoDup, Chooses;
    assert forall g :: g in order + [f] <==> g in order || g == f;
    OneMoreChosen(pr, mid, r, order, f, pinned, sc);
  }

  lemma OneMoreChosen(pr: Progress, mid: Progress, r: Progress, order: seq<Folio>, f: Folio,
                      pinned: set<Folio>, sc: Scan)
    requires Chooses(pr, mid, order, pinned, sc) && f !in order && |mid.selected| < sc.request
    requires r.selected == (if Fits(pr.s, sc, pinned, f) then mid.selected + [f] else mid.selected)
    ensures Chooses(pr, r, order + [f], pinned, sc)
  {
    hide NewOnes, AllOnes, Fits;
    var was := mid.selected[|pr.selected|..];
    OneMoreNew(pr.s, was, order, f, pinned, sc);
    if Fits(pr.s, sc, pinned, f) {
      assert r.selected[|pr.selected|..] == was + [f];
    }
  }

  lemma OneMoreNew(s: State, was: seq<Folio>, order: seq<Folio>, f: Folio, pinned: set<Folio>, sc: Scan)
    requires NewOnes(s, was, order, pinned, sc) && AllOnes(s, was, order, pinned, sc) && f !in order
    ensures var now := if Fits(s, sc, pinned, f) then was + [f] else was;
            NewOnes(s, now, order + [f], pinned, sc) && AllOnes(s, now, order + [f], pinned, sc)
  {
    hide Fits;
    if Fits(s, sc, pinned, f) {
      AppendNoDup(was, f);
    }
    hide NoDup;
    assert forall g :: g in order + [f] <==> g in order || g == f;
    assert forall g :: g in was + [f] <==> g in was || g == f;
  }

  // ---------------------------------------------------------------- the order on the lists

  /** The lists after a pass with room over order, when c are those of order that fit: what was not
      shown stays in front of the chosen ones, and the others went to the tail of the next list,
      all in the order shown. */
  ghost predicate Ordered(pr: Progress, r: Progress, order: seq<Folio>, c: set<Folio>, sc: Scan)
    requires sc.curr < |pr.s.lists| && sc.next < |pr.s.lists|
  {
    && |r.s.lists| == |pr.s.lists|
    && r.s.lists[sc.curr] == Except(pr.s.lists[sc.curr], Elems(order)) + Only(order, c)
    && r.s.lists[sc.next] == pr.s.lists[sc.next] + Except(order, c)
    && r.selected == pr.selected + Only(order, c)
  }

  lemma VisitOrders(pr: Progress, f: Folio, pinned: set<Folio>, sc: Scan)
    requires ListsOk(pr.s.lists, pr.s.meta) && ScanOk(sc) && |pr.selected| < sc.request && f in pr.s.lists[sc.curr]
    ensures var r, fits := VisitNode(pr, Visit(f, f in pinned), sc), Fits(pr.s, sc, pinned, f);
            var rest := Without(pr.s.lists[sc.curr], f);
            && |r.s.lists| == |pr.s.lists|
            && r.s.lists[sc.curr] == (if fits then rest + [f] else rest)
            && r.s.lists[sc.next] == (if fits then pr.s.lists[sc.next] else pr.s.lists[sc.next] + [f])
            && r.selected == (if fits then pr.selected + [f] else pr.selected)
  {
    hide Promote, ListsOk, TierFromRefs, Without;
    ListedTracked(pr.s, sc.curr, f);
    PromoteOrders(ProtectBump(pr.s, TierFromRefs(pr.s.meta[f].accesses)), f, sc);
    PromoteOrders(pr.s, f, sc);
  }

  lemma ListedTracked(s: State, g: nat, f: Folio)
    requires ListsOk(s.lists, s.meta) && g < MAX_NR_GENS && f in s.lists[g]
    ensures f in s.meta && |s.lists| == MAX_NR_GENS
  {
  }

  lemma PromoteOrders(s: State, f: Folio, sc: Scan)
    requires ScanOk(sc) && |s.lists| == MAX_NR_GENS && f in s.meta
    ensures var r := Promote(s, f, sc).lists;
            && |r| == |s.lists| && r[sc.curr] == Without(s.lists[sc.curr], f) && r[sc.next] == s.lists[sc.next] + [f]
  {
    hide Without;
  }

  lemma OrderOne(pr: Progress, mid: Progress, r: Progress, order: seq<Folio>, f: Folio, c: set<Folio>, sc: Scan)
    requires ScanOk(sc) && |pr.s.lists| == |r.s.lists| == MAX_NR_GENS && Ordered(pr, mid, order, c, sc) && f !in order
    requires var rest := Without(mid.s.lists[sc.curr], f);
             && r.s.lists[sc.curr] == (if f in c then rest + [f] else rest)
             && r.s.lists[sc.next] == (if f in c then mid.s.lists[sc.next] else mid.s.lists[sc.next] + [f])
             && r.selected == (if f in c then mid.selected + [f] else mid.selected)
    ensures Ordered(pr, r, order + [f], c, sc)
  {
    hide Without, Only, Except, Elems;
    OneShown(pr.s.lists[sc.curr], pr.s.lists[sc.next], order, f, c);
    OneShown(pr.s.lists[sc.curr], pr.selected, order, f, c);
  }

  /** A pass that had room to its end, over distinct folios of the oldest list. */
  lemma {:induction false} PassOrders(pr: Progress, order: seq<Folio>, pinned: set<Folio>, c: set<Folio>, sc: Scan)
    requires AlwaysCore(pr.s) && ScanOk(sc) && |pr.s.lists| == MAX_NR_GENS && NoDup(order)
    requires forall f :: f in order ==> f in pr.s.lists[sc.curr] && (f in c <==> Fits(pr.s, sc, pinned, f))
    requires |Pass(pr, Shown(order, pinned), sc).selected| < sc.request
    ensures Ordered(pr, Pass(pr, Shown(order, pinned), sc), order, c, sc)
    decreases |order|
  {
    hide VisitNode, Fits, TrueCounts, ListsOk, ListedResident, GensOk, Ordered;
    if order == [] {
      NothingOrdered(pr, c, sc);
    } else {
      var n := |order| - 1;
      var visits, last := Shown(order, pinned), order[n];
      SplitLast(order);
      assert visits[..n] == Shown(order[..n], pinned);
      var mid := Pass(pr, visits[..n], sc);
      PassAlways(pr, visits[..n], sc);
      PassPicks(pr, order[..n], pinned, sc);
      StillListed(pr, mid, order, pinned, sc);
      PassOrders(pr, order[..n], pinned, c, sc);
      VisitOrders(mid, last, pinned, sc);
      OrderOne(pr, mid, VisitNode(mid, Visit(last, last in pinned), sc), order[..n], last, c, sc);
      assert order == order[..n] + [last];
    }
  }

  lemma NothingOrdered(pr: Progress, c: set<Folio>, sc: Scan)
    requires sc.curr < |pr.s.lists| && sc.next < |pr.s.lists|
    ensures Ordered(pr, pr, [], c, sc)
  {
    assert Elems<Folio>([]) == {};
    ExceptNone(pr.s.lists[sc.curr]);
  }

  /** The last node shown was still listed, and fits as it did at the start. */
  lemma StillListed(pr: Progress, mid: Progress, order: seq<Folio>, pinned: set<Folio>, sc: Scan)
    requires sc.curr < |pr.s.lists| && NoDup(order) && order != []
    requires forall f :: f in order ==> f in pr.s.lists[sc.curr]
    requires Picks(pr, mid, order[..|order| - 1], pinned, sc)
    requires sc.next < |mid.s.lists|
    requires |VisitNode(mid, Visit(order[|order| - 1], order[|order| - 1] in pinned), sc).selected| < sc.request
    ensures |mid.selected| < sc.request && order[|order| - 1] in mid.s.lists[sc.curr]
    ensures forall f :: Fits(pr.s, sc, pinned, f) <==> Fits(mid.s, sc, pinned, f)
  {
    SplitLast(order);
    hide TierFromRefs, Promote, Select, Chooses;
  }

  // ---------------------------------------------------------------- two passes

  ghost function Lesser(a: nat, b: nat): nat {
    if a < b then a else b
  }

  /** The folios handed over by a call whose iterations succeed: a second pass is made only if the
      first left the request short. */
  ghost function HandedOver(s: State, sc: Scan, visits1: seq<Visit>, visits2: seq<Visit>): seq<Folio>
    requires sc.curr < |s.lists| && sc.next < |s.lists|
  {
    var pr1 := Pass(Progress(s, []), visits1, sc);
    if |pr1.selected| >= sc.request then pr1.selected else Pass(pr1, visits2, sc).selected
  }

  /** The first pass over the whole oldest list: it fills the request if enough folios fit, and
      else chooses all that fit and leaves exactly those on the list. */
  lemma FirstPass(s: State, sc: Scan, order: seq<Folio>, pinned: set<Folio>)
    requires AlwaysCore(s) && ScanOk(sc) && |s.lists| == MAX_NR_GENS && Covers(order, s.lists[sc.curr])
    ensures var r, c := Pass(Progress(s, []), Shown(order, pinned), sc), Choosable(s, sc, pinned);
            && |r.s.lists| == MAX_NR_GENS && AlwaysCore(r.s) && SameFolios(s.meta, r.s.meta)
            && NoDup(r.selected) && Elems(r.selected) <= c && |r.selected| == Lesser(sc.request, |c|)
            && (|c| < sc.request ==> Elems(r.selected) == c && Elems(r.s.lists[sc.curr]) == c)
  {
    var start := Progress(s, []);
    PassPicks(start, order, pinned, sc);
    PassAlways(start, Shown(order, pinned), sc);
    hide Pass, Fits, TrueCounts, ListsOk, ListedResident, GensOk;
    var r, c := Pass(start, Shown(order, pinned), sc), Choosable(s, sc, pinned);
    assert r.selected[0..] == r.selected;
    ElemsSize(r.selected);
    SubsetSize(Elems(r.selected), c);
    if |r.selected| < sc.request {
      assert Elems(r.selected) == c;
    }
  }

  /** The second pass meets only folios already chosen: it chooses those again that are not pinned
      by then, while there is room. */
  lemma SecondPass(pr: Progress, sc: Scan, c: set<Folio>, order: seq<Folio>, pinned: set<Folio>)
    requires AlwaysCore(pr.s) && ScanOk(sc) && |pr.s.lists| == MAX_NR_GENS && Covers(order, pr.s.lists[sc.curr])
    requires NoDup(pr.selected) && Elems(pr.selected) == Elems(pr.s.lists[sc.curr]) == c && |c| < sc.request
    requires forall f :: f in c ==> Fits(pr.s, sc, {}, f)
    ensures var r := Pass(pr, Shown(order, pinned), sc);
            && Elems(r.selected) == c && |r.selected| == Lesser(sc.request, |c| + |c - pinned|)
  {
    PassPicks(pr, order, pinned, sc);
    hide Pass, Fits, AlwaysCore, SameFolios, Picks, NoDup;
    CountSecond(pr, Pass(pr, Shown(order, pinned), sc), sc, c, order, pinned);
  }

  lemma CountSecond(pr: Progress, r: Progress, sc: Scan, c: set<Folio>, order: seq<Folio>, pinned: set<Folio>)
    requires sc.curr < |pr.s.lists| && Picks(pr, r, order, pinned, sc)
    requires NoDup(pr.selected) && Elems(pr.selected) == c && |c| < sc.request
    requires forall f :: f in order <==> f in c
    requires forall f :: f in c ==> (Fits(pr.s, sc, pinned, f) <==> f !in pinned)
    ensures Elems(r.selected) == c && |r.selected| == Lesser(sc.request, |c| + |c - pinned|)
  {
    hide Fits, SameFolios, NoDup;
    var more := r.selected[|pr.selected|..];
    assert r.selected == pr.selected + more;
    ElemsSize(pr.selected);
    ElemsSize(more);
    assert Elems(r.selected) == c + Elems(more);
    assert Elems(more) <= c - pinned;
    SubsetSize(Elems(more), c - pinned);
    if |r.selected| < sc.request {
      assert Elems(more) == c - pinned;
    }
  }

  /** What a call hands over, when c fits in the first pass and pinned are pinned by the second:
      no more distinct folios than fit; one verdict for each, and in a second pass one more for
      each not pinned by then; so distinct folios exactly when those that fit fill the request or
      are all pinned by the second pass. */
  ghost predicate HandsOver(r: seq<Folio>, c: set<Folio>, request: nat, pinned: set<Folio>) {
    && Elems(r) <= c && |Elems(r)| == Lesser(request, |c|)
    && |r| == Lesser(request, |c| + |c - pinned|)
    && (NoDup(r) <==> |c| >= request || c <= pinned)
  }

  /** However the lists are shown, each node once a pass. */
  lemma HandsOverExactly(s: State, sc: Scan, order1: seq<Folio>, pinned1: set<Folio>,
                         order2: seq<Folio>, pinned2: set<Folio>)
    requires AlwaysCore(s) && ScanOk(sc) && |s.lists| == MAX_NR_GENS && Covers(order1, s.lists[sc.curr])
    requires Covers(order2, Pass(Progress(s, []), Shown(order1, pinned1), sc).s.lists[sc.curr])
    ensures HandsOver(HandedOver(s, sc, Shown(order1, pinned1), Shown(order2, pinned2)),
                      Choosable(s, sc, pinned1), sc.request, pinned2)
  {
    var pr1, c := Pass(Progress(s, []), Shown(order1, pinned1), sc), Choosable(s, sc, pinned1);
    FirstPass(s, sc, order1, pinned1);
    FirstFits(s, pr1.s, sc, pinned1);
    hide Pass, Fits, AlwaysCore, SameFolios, Choosable, Covers, HandsOver;
    if |c| < sc.request {
      SecondPass(pr1, sc, c, order2, pinned2);
      CountVerdicts(Pass(pr1, Shown(order2, pinned2), sc).selected, c, sc.request, pinned2);
    } else {
      ElemsSize(pr1.selected);
      CountVerdicts(pr1.selected, c, sc.request, pinned2);
    }
  }

  lemma FirstFits(s: State, s': State, sc: Scan, pinned: set<Folio>)
    requires sc.curr < |s.lists| && SameFolios(s.meta, s'.meta)
    ensures forall f :: f in Choosable(s, sc, pinned) ==> Fits(s', sc, {}, f)
  {
  }

  lemma CountVerdicts(r: seq<Folio>, c: set<Folio>, request: nat, pinned: set<Folio>)
    requires Elems(r) <= c && |Elems(r)| == Lesser(request, |c|) && |r| == Lesser(request, |c| + |c - pinned|)
    ensures HandsOver(r, c, request, pinned)
  {
    DistinctBySize(r);
    EmptyBySize(c, pinned);
    hide NoDup, Elems;
  }

  lemma EmptyBySize<T>(c: set<T>, p: set<T>)
    ensures |c - p| == 0 <==> c <= p
  {
    if c <= p {
      assert c - p == {};
    } else {
      var x :| x in c && x !in p;
      assert x in c - p;
    }
  }

  /** A list holds distinct elements exactly when it has as many places as elements. */
  lemma {:induction false} DistinctBySize<T(!new)>(l: seq<T>)
    ensures |Elems(l)| <= |l|
    ensures NoDup(l) <==> |Elems(l)| == |l|
  {
    if l != [] {
      var n := |l| - 1;
      DistinctBySize(l[..n]);
      var init := l[..n];
      assert forall i :: 0 <= i < n ==> init[i] == l[i];
      assert l == init + [l[n]];
      assert Elems(l) == Elems(init) + {l[n]};
      if l[n] in init {
        assert Elems(l) == Elems(init);
        var i :| 0 <= i < n && init[i] == l[n];
        assert l[i] == l[n];
      }
    }
  }

  // ---------------------------------------------------------------- in every run

  /** Where the passes of an eviction call start, and what they scan. */
  ghost function CallStart(s: State, request: nat): (r: (State, Scan))
    requires s.gen.Shaped() && |s.lists| == MAX_NR_GENS
    ensures r.0.lists == s.lists && r.0.meta == s.meta
    ensures r.1.curr < MAX_NR_GENS && r.1.next < MAX_NR_GENS && r.1.request == request
  {
    var s1 := s.(gen := Rotate(s.gen));
    var t := TierThreshold(s1.gen.ctrl);
    (CountTier(s1, t), ScanOf(s1.gen, t, request))
  }

  ghost function CallHandsOver(s: State, request: nat, it: Iteration): seq<Folio>
    requires s.gen.Shaped() && |s.lists| == MAX_NR_GENS
  {
    var (start, sc) := CallStart(s, request);
    HandedOver(start, sc, it.visits1, it.visits2)
  }

  /** The folios a call can choose in its first pass. */
  ghost function CallChoosable(s: State, request: nat, pinned: set<Folio>): set<Folio>
    requires s.gen.Shaped() && |s.lists| == MAX_NR_GENS
  {
    var (start, sc) := CallStart(s, request);
    Choosable(start, sc, pinned)
  }

  /** Each pass of the call shows every node of the oldest list once, those in the given sets as
      pinned, and reports success. */
  ghost predicate ShowsAll(s: State, request: nat, it: Iteration, pinned1: set<Folio>, pinned2: set<Folio>)
  {
    && s.gen.Shaped() && |s.lists| == MAX_NR_GENS && it.ok1 && it.ok2
    && exists order1, order2 :: ShowsIn(s, request, it, order1, pinned1, order2, pinned2)
  }

  ghost predicate ShowsIn(s: State, request: nat, it: Iteration, order1: seq<Folio>, pinned1: set<Folio>,
                          order2: seq<Folio>, pinned2: set<Folio>)
    requires s.gen.Shaped() && |s.lists| == MAX_NR_GENS
  {
    var (start, sc) := CallStart(s, request);
    && it.visits1 == Shown(order1, pinned1) && it.visits2 == Shown(order2, pinned2)
    && Covers(order1, s.lists[sc.curr])
    && Covers(order2, Pass(Progress(start, []), it.visits1, sc).s.lists[sc.curr])
  }

  /** The call hands over verdicts as stated and counts each of them as a success. */
  ghost predicate VerdictsCounted(s: State, request: nat, it: Iteration, pinned1: set<Folio>, pinned2: set<Folio>)
    requires s.gen.Shaped() && |s.lists| == MAX_NR_GENS
  {
    var r := CallHandsOver(s, request, it);
    && EvictFolios(s, request, it).stats.success == s.stats.success + |r|
    && HandsOver(r, CallChoosable(s, request, pinned1), request, pinned2)
  }

  /** In every run, whatever went before: an eviction call adds to the success counter the number
      of verdicts, not of folios, handed over. */
  lemma EvictionsHandOver(es: seq<Event>, s: State, request: nat, it: Iteration,
                          pinned1: set<Folio>, pinned2: set<Folio>)
    requires Reaches(es, s)
    ensures ShowsAll(s, request, it, pinned1, pinned2) ==> VerdictsCounted(s, request, it, pinned1, pinned2)
  {
    if ShowsAll(s, request, it, pinned1, pinned2) {
      hide VerdictsCounted, ShowsIn, Reaches, Always;
      RunsKeepAlways(es, s);
      var order1, order2 :| ShowsIn(s, request, it, order1, pinned1, order2, pinned2);
      CallCounts(s, request, it, order1, pinned1, order2, pinned2);
    }
  }

  lemma CallCounts(s: State, request: nat, it: Iteration, order1: seq<Folio>, pinned1: set<Folio>,
                   order2: seq<Folio>, pinned2: set<Folio>)
    requires Always(s) && s.gen.Shaped() && |s.lists| == MAX_NR_GENS && it.ok1 && it.ok2
    requires ShowsIn(s, request, it, order1, pinned1, order2, pinned2)
    ensures VerdictsCounted(s, request, it, pinned1, pinned2)
  {
    hide Always, AlwaysCore, EvictFolios, HandsOver, Pass, CallStart;
    var (start, sc) := CallStart(s, request);
    StartOk(s, request);
    HandsOverExactly(start, sc, order1, pinned1, order2, pinned2);
    SuccessGrows(s, request, it);
  }

  lemma StartOk(s: State, request: nat)
    requires Always(s) && s.gen.Shaped() && |s.lists| == MAX_NR_GENS
    ensures var (start, sc) := CallStart(s, request);
            AlwaysCore(start) && ScanOk(sc)
  {
    RotateWindow(s.gen);
    ScanOfOk(Rotate(s.gen), TierThreshold(Rotate(s.gen).ctrl), request);
    hide Rotate, TierThreshold, TrueCounts, ListsOk, ListedResident, GensOk, ScanOf, ScanOk, WindowOk;
  }

  lemma SuccessGrows(s: State, request: nat, it: Iteration)
    requires s.gen.Shaped() && |s.lists| == MAX_NR_GENS && it.ok1 && it.ok2
    ensures EvictFolios(s, request, it).stats.success == s.stats.success + |CallHandsOver(s, request, it)|
  {
    hide Pass, Rotate, TierThreshold;
    var (start, sc) := CallStart(s, request);
    PassKeepsTotals(Progress(start, []), it.visits1, sc);
    PassKeepsTotals(Pass(Progress(start, []), it.visits1, sc), it.visits2, sc);
  }

  // ---------------------------------------------------------------- the failing input as a run

  const PLAIN: Flags := Flags(false, false, false, false)

  /** The state after an inode is opened and one of its pages is added. */
  ghost function OnePage(p: Page): State {
    var start := Init();
    start.(watch := map[p.ino := 1], meta := map[1 := FolioMeta(1, 1)], lists := [[], [1], [], []],
           resident := map[1 := p], gen := start.gen.(nrPages := [0, 1, 0, 0]))
  }

  lemma OnePageReached(p: Page)
    requires p.ino > 0
    ensures Reaches([Open(p.ino, 1, true, true), FolioAdded(1, p, PLAIN, true, true)], OnePage(p))
  {
    TwoEventsIn(p, PLAIN);
    OnePageAdded(p);
    hide Added, Reaches;
  }

  lemma OnePageAdded(p: Page)
    requires p.ino > 0
    ensures Added(Init().(watch := map[p.ino := 1]), 1, p, PLAIN, true, true) == OnePage(p)
  {
    var s := Init().(watch := map[p.ino := 1]);
    assert Clobber(s, 1) == s && AddSeq(s.gen, FolioActive(s.meta, 1), PLAIN) % MAX_NR_GENS == 1;
    var s1 := AddPages(s.(meta := s.meta[1 := FolioMeta(1, 1)]), 1, 1);
    assert Refault(s1, KeyOf(p)) == s1;
    assert s1.gen.nrPages == [0, 1, 0, 0];
    assert [1] + s1.lists[1] == [1] && s1.lists[1 := [1]] == [[], [1], [], []];
    hide Clobber, AddSeq, FolioActive, AddPages, Refault;
  }

  /** The call that is handed one folio twice. */
  ghost predicate FilledTwice(s: State, it: Iteration) {
    && ShowsAll(s, 2, it, {}, {})
    && CallHandsOver(s, 2, it) == [1, 1]
    && EvictFolios(s, 2, it).stats.success == 2
  }

  /** After two events there is one folio, and a call for two is handed it twice: that counts as
      two successes. */
  lemma RequestFilledTwice(p: Page)
    requires p.ino > 0
    ensures Reaches([Open(p.ino, 1, true, true), FolioAdded(1, p, PLAIN, true, true)], OnePage(p))
    ensures exists it :: FilledTwice(OnePage(p), it)
  {
    var es, s := [Open(p.ino, 1, true, true), FolioAdded(1, p, PLAIN, true, true)], OnePage(p);
    hide OnePage, EvictFolios, Reaches, ShowsAll, CallHandsOver, CallChoosable, HandsOver, Choosable, HandedOver;
    OnePageReached(p);
    OnePageStart(p);
    var it := FullCall(es, s, 2);
    EvictionsHandOver(es, s, 2, it, {}, {});
    TwiceOne(CallHandsOver(s, 2, it));
    assert FilledTwice(s, it);
  }

  /** What a call may be shown. */
  lemma FullCall(es: seq<Event>, s: State, request: nat) returns (it: Iteration)
    requires Reaches(es, s)
    ensures ShowsAll(s, request, it, {}, {})
  {
    RunsKeepAlways(es, s);
    CountersExactly(es, s);
    StartOk(s, request);
    hide CallStart, Pass, Always, Reaches;
    var (start, sc) := CallStart(s, request);
    var all := s.lists[sc.curr];
    ListIsShown(start, sc, []);
    var visits1 := Shown(all, {});
    ListIsShown(start, sc, visits1);
    hide AlwaysCore, ScanOk, Covers;
    var left := Pass(Progress(start, []), visits1, sc).s.lists[sc.curr];
    it := Iteration(visits1, true, Shown(left, {}), true);
    EmptyPass(Progress(start, []), sc);
    assert ShowsIn(s, request, it, all, {}, left, {});
  }

  lemma EmptyPass(pr: Progress, sc: Scan)
    requires sc.curr < |pr.s.lists| && sc.next < |pr.s.lists|
    ensures Pass(pr, [], sc) == pr
  {
  }

  lemma ListIsShown(s: State, sc: Scan, visits: seq<Visit>)
    requires AlwaysCore(s) && ScanOk(sc) && |s.lists| == MAX_NR_GENS
    ensures var left := Pass(Progress(s, []), visits, sc).s.lists[sc.curr];
            Covers(left, left)
  {
    PassAlways(Progress(s, []), visits, sc);
    hide Pass;
  }

  lemma TwiceOne(r: seq<Folio>)
    requires HandsOver(r, {1}, 2, {})
    ensures r == [1, 1]
  {
    assert {1} - {} == {1};
    assert |r| == 2 && r[0] in Elems(r) && r[1] in Elems(r);
  }

  lemma OnePageStart(p: Page)
    ensures OnePage(p).gen.Shaped() && |OnePage(p).lists| == MAX_NR_GENS && OnePage(p).stats.success == 0
    ensures CallChoosable(OnePage(p), 2, {}) == {1}
  {
    var s := OnePage(p);
    assert Rotate(s.gen) == IncMin(s.gen).1;
  }
}
