/** The dispatcher over whole runs, and the hooks in place. */
module VulcanRuns {
  import opened VulcanListeners
  import opened VulcanDispatch
  import DirWatcher
  import Lists

  // ---------------------------------------------------------------- invariants

  /** Opens report the tag of one of the two configured watch roots, or none. */
  predicate EventsOk(tag1: nat, tag2: nat, events: seq<Event>) {
    forall i :: 0 <= i < |events| && events[i].VfsOpen? ==> events[i].tag in {0, tag1, tag2}
  }

  ghost predicate TagsOk(s: State, tag1: nat, tag2: nat) {
    && (forall ino :: ino in s.watchlist ==> s.watchlist[ino] in {tag1, tag2} && s.watchlist[ino] != 0)
    && (forall folio :: folio in s.metadata ==> s.metadata[folio] in {tag1, tag2} && s.metadata[folio] != 0)
  }

  lemma StepKeepsTags(cs: Configs, s: State, e: Event, tag1: nat, tag2: nat)
    requires TagsOk(s, tag1, tag2) && EventsOk(tag1, tag2, [e])
    ensures TagsOk(Step(cs, s, e), tag1, tag2)
  {
    assert [e][0] == e;
  }

  /** Every watched inode and every entered folio carries the tag of a configured root. */
  lemma {:induction false} RunsKeepTags(cs: Configs, tag1: nat, tag2: nat, events: seq<Event>)
    requires EventsOk(tag1, tag2, events)
    ensures TagsOk(Run(cs, events), tag1, tag2)
    decreases |events|
  {
    if events == [] {
    } else {
      var m := |events| - 1;
      RunsKeepTags(cs, tag1, tag2, events[..m]);
      StepKeepsTags(cs, Run(cs, events[..m]), events[m], tag1, tag2);
    }
  }

  /** The tag f was entered with when it last was, none if it is not entered: an add on a list or
      an access to a folio not entered enters it, when its inode is watched and there is room, and
      an eviction while its inode is watched ends it. */
  function EnteredTag(cs: Configs, events: seq<Event>, f: nat): seq<nat>
    decreases |events|
  {
    if events == [] then []
    else
      var earlier, e := events[..|events| - 1], events[|events| - 1];
      var was, watched := EnteredTag(cs, earlier, f), Run(cs, earlier).watchlist;
      match e
      case FolioAdded(g, ino, listOk, mapOk) =>
        if g == f && DirWatcher.InWatchlist(watched, ino) && listOk && mapOk
        then [DirWatcher.ClientTag(watched, ino)] else was
      case FolioAccessed(g, ino, mapOk) =>
        if g == f && DirWatcher.InWatchlist(watched, ino) && was == [] && mapOk
        then [DirWatcher.ClientTag(watched, ino)] else was
      case FolioEvicted(g, ino) => if g == f && DirWatcher.InWatchlist(watched, ino) then [] else was
      case _ => was
  }

  /** In every run the metadata holds exactly the folios entered, with the tags they were entered
      with. */
  lemma {:induction false} MetadataExactly(cs: Configs, events: seq<Event>, f: nat)
    ensures var m := Run(cs, events).metadata;
            EnteredTag(cs, events, f) == if f in m then [m[f]] else []
    decreases |events|
  {
    hide UpdateFeature, Dispatch;
    if events != [] {
      MetadataExactly(cs, events[..|events| - 1], f);
    }
  }

  ghost predicate ClockOk(s: State, arrivals: seq<nat>) {
    && s.recvCount == |arrivals|
    && s.lastPacketTs == (if arrivals == [] then 0 else arrivals[|arrivals| - 1])
    && s.prevPacketTs == (if |arrivals| < 2 then 0 else arrivals[|arrivals| - 2])
  }

  /** The packet clock counts the arrivals on all monitored ports and holds the last two. */
  lemma {:induction false} RunsKeepClock(cs: Configs, events: seq<Event>)
    ensures ClockOk(Run(cs, events), Arrivals(cs, events))
    decreases |events|
  {
    if events == [] {
    } else {
      RunsKeepClock(cs, events[..|events| - 1]);
    }
  }

  // ---------------------------------------------------------------- one event

  function ConfigOf(cs: Configs, feature: nat): Config {
    if feature < NUM_FEATURES then cs[feature] else OFF
  }

  function PushedAll(cfg: Config, entry: Entry, vs: seq<int>): Entry
    requires |vs| <= 1
  {
    if vs == [] then entry else Pushed(cfg, entry, vs[0])
  }

  lemma RecvRoutes(cs: Configs, s: State, arrivals: seq<nat>, e: Event, keys: set<Key>, key: Key)
    requires e.RecvMsg? && ClockOk(s, arrivals)
    requires KeysOk(s.maps, keys) && |keys| < MAX_ENTRIES
    requires FeatureKeys(1, GF_CLIENT_TAG) + FeatureKeys(2, GF_CLIENT_TAG) <= keys
    ensures var maps' := Step(cs, s, e).maps;
            && KeysOk(maps', keys)
            && EntryOf(maps', key) == PushedAll(ConfigOf(cs, key.feature), EntryOf(s.maps, key),
                                                RoutedBy(cs, arrivals, s.watchlist, s.metadata, e, key))
  {
    var tag := PortTag(e.sport);
    if Monitored(e.sport) && AnyEnabled(cs) {
      var raw := RawValues(e.sample, s.lastPacketTs, e.now, s.recvCount + 1);
      DispatchFits(cs, s.maps, tag, raw, |raw|, keys, key);
      if key.feature < GF_CLIENT_TAG {
        assert raw[key.feature] == NetValue(arrivals, e.now, e.sample, key.feature);
      }
    } else if key.feature < NUM_FEATURES {
      assert !Monitored(e.sport) || !Enabled(cs[key.feature]);
    }
  }

  lemma HookRoutes(cs: Configs, s: State, arrivals: seq<nat>, e: Event, tag1: nat, tag2: nat, keys: set<Key>, key: Key)
    requires !e.RecvMsg? && TagsOk(s, tag1, tag2)
    requires KeysOk(s.maps, keys) && |keys| < MAX_ENTRIES
    requires {Key(tag1, GF_CLIENT_TAG), Key(tag2, GF_CLIENT_TAG)} <= keys
    ensures var maps' := Step(cs, s, e).maps;
            && KeysOk(maps', keys)
            && EntryOf(maps', key) == PushedAll(ConfigOf(cs, key.feature), EntryOf(s.maps, key),
                                                RoutedBy(cs, arrivals, s.watchlist, s.metadata, e, key))
  {
    var tag := HookTag(s.watchlist, s.metadata, e);
    if tag != 0 {
      assert tag in {tag1, tag2};
      UpdateFits(s.maps, cs[GF_CLIENT_TAG], tag, GF_CLIENT_TAG, tag, keys, key);
      assert Step(cs, s, e).maps == UpdateFeature(s.maps, cs[GF_CLIENT_TAG], tag, GF_CLIENT_TAG, tag);
    } else {
      assert Step(cs, s, e).maps == s.maps;
    }
  }

  // ---------------------------------------------------------------- whole runs

  /** For every interleaving of opens, receives and folio hooks: no map ever leaves the 34
      usable keys, and every entry is the fold over exactly the values routed to it. */
  lemma {:induction false} RunsFold(cs: Configs, tag1: nat, tag2: nat, events: seq<Event>, key: Key)
    requires EventsOk(tag1, tag2, events)
    ensures var maps := Run(cs, events).maps;
            && KeysOk(maps, UsableKeys(tag1, tag2))
            && EntryOf(maps, key) == Folded(ConfigOf(cs, key.feature), Routed(cs, events, key))
    decreases |events|
  {
    if events == [] {
    } else {
      var m, keys := |events| - 1, UsableKeys(tag1, tag2);
      var before, e := events[..m], events[m];
      var s, arrivals := Run(cs, before), Arrivals(cs, before);
      RunsFold(cs, tag1, tag2, before, key);
      RunsKeepTags(cs, tag1, tag2, before);
      RunsKeepClock(cs, before);
      UsableKeysSize(tag1, tag2);
      if e.RecvMsg? {
        RecvRoutes(cs, s, arrivals, e, keys, key);
      } else {
        HookRoutes(cs, s, arrivals, e, tag1, tag2, keys, key);
      }
      FoldedRouted(ConfigOf(cs, key.feature), Routed(cs, before, key),
                   RoutedBy(cs, arrivals, s.watchlist, s.metadata, e, key));
    }
  }

  lemma FoldedRouted(cfg: Config, vs: seq<int>, more: seq<int>)
    requires |more| <= 1
    ensures Folded(cfg, vs + more) == PushedAll(cfg, Folded(cfg, vs), more)
  {
    if more == [] {
      assert vs + more == vs;
    } else {
      assert more == [more[0]];
      FoldedPushed(cfg, vs, more[0]);
    }
  }

  /** No listener map comes near its capacity, whatever the two client tags are. */
  lemma MapsNeverFill(cs: Configs, tag1: nat, tag2: nat, events: seq<Event>)
    requires EventsOk(tag1, tag2, events)
    ensures var maps := Run(cs, events).maps;
            |maps.minmax| <= 34 && |maps.ewma| <= 34 && |maps.average| <= 34 && |maps.window| <= 34
    ensures 34 < MAX_ENTRIES
  {
    var maps, keys := Run(cs, events).maps, UsableKeys(tag1, tag2);
    RunsFold(cs, tag1, tag2, events, Key(0, 0));
    UsableKeysSize(tag1, tag2);
    Lists.SubsetSize(maps.minmax.Keys, keys);
    Lists.SubsetSize(maps.ewma.Keys, keys);
    Lists.SubsetSize(maps.average.Keys, keys);
    Lists.SubsetSize(maps.window.Keys, keys);
  }

  /** What the scalar accessors answer after any run: the listener's value over exactly the
      values routed to the tag and feature; 0 for tag 0, for an unknown feature, and for a
      listener that is off. */
  lemma RunsAnswer(cs: Configs, tag1: nat, tag2: nat, events: seq<Event>, tag: nat, feature: nat)
    requires EventsOk(tag1, tag2, events)
    ensures var maps, vs, cfg := Run(cs, events).maps, Routed(cs, events, Key(tag, feature)), ConfigOf(cs, feature);
            var known := Answers(tag, feature);
            && TagMin(maps, tag, feature) == (if known && cfg.minmax then GetMin(MinMaxOf(vs)) else 0)
            && TagMax(maps, tag, feature) == (if known && cfg.minmax then GetMax(MinMaxOf(vs)) else 0)
            && TagEwma(maps, tag, feature) == (if known && cfg.ewma then GetEwma(EwmaOf(vs, cfg.alpha)) else 0)
            && TagAverage(maps, tag, feature) == (if known && cfg.average then GetAverage(AverageOf(vs)) else 0)
  {
    RunsFold(cs, tag1, tag2, events, Key(tag, feature));
  }

  /** The windowed accessors: the k-th most recent value routed, for k below the window. */
  lemma RunsRecall(cs: Configs, tag1: nat, tag2: nat, events: seq<Event>, tag: nat, feature: nat, k: nat)
    requires EventsOk(tag1, tag2, events)
    ensures var maps, vs, cfg := Run(cs, events).maps, Routed(cs, events, Key(tag, feature)), ConfigOf(cs, feature);
            var n := if Answers(tag, feature) && cfg.window then Min(|vs|, Min(cfg.windowSize, MAX_WINDOW)) else 0;
            && TagWindowCount(maps, tag, feature) == n
            && TagKthRecent(maps, tag, feature, k) == (if k < n then vs[|vs| - 1 - k] else 0)
            && TagLatest(maps, tag, feature) == (if n > 0 then vs[|vs| - 1] else 0)
            && TagWindowAverage(maps, tag, feature) == (if n > 0 then Sdiv(RecentTotal(vs), n) else 0)
  {
    hide WindowOf, GetKthRecent, GetLatest, GetWindowAverage, RecentTotal, Run, Routed, UsableKeys, EventsOk;
    hide EmptyWindow;
    var cfg, vs := ConfigOf(cs, feature), Routed(cs, events, Key(tag, feature));
    RunsFold(cs, tag1, tag2, events, Key(tag, feature));
    WindowAnswers(vs, cfg.windowSize, k);
  }

  lemma WindowAnswers(vs: seq<int>, windowSize: nat, k: nat)
    ensures var rw, n := WindowOf(vs, windowSize), Min(|vs|, Min(windowSize, MAX_WINDOW));
            && rw.count == n
            && GetKthRecent(rw, k) == (if k < n then vs[|vs| - 1 - k] else 0)
            && GetLatest(rw) == (if n > 0 then vs[|vs| - 1] else 0)
            && GetWindowAverage(rw) == (if n > 0 then Sdiv(RecentTotal(vs), n) else 0)
    ensures EmptyWindow().count == 0 && GetKthRecent(EmptyWindow(), k) == 0
    ensures GetLatest(EmptyWindow()) == 0 && GetWindowAverage(EmptyWindow()) == 0
  {
    WindowRecalls(vs, windowSize, k);
    if windowSize > 0 && vs != [] {
      WindowAverageIs(vs, windowSize);
    }
  }

  /** For every tag and feature fed fewer than 2^32 values, both averages lie between the
      minimum and the maximum. */
  lemma AveragesBetween(cs: Configs, tag1: nat, tag2: nat, events: seq<Event>, tag: nat, feature: nat)
    requires EventsOk(tag1, tag2, events) && Answers(tag, feature)
    requires cs[feature].minmax && 0 < |Routed(cs, events, Key(tag, feature))| < U32
    ensures var maps := Run(cs, events).maps;
            && (cs[feature].ewma && cs[feature].alpha <= FP_SCALE ==>
                  TagMin(maps, tag, feature) <= TagEwma(maps, tag, feature) <= TagMax(maps, tag, feature))
            && (cs[feature].average ==>
                  TagMin(maps, tag, feature) <= TagAverage(maps, tag, feature) <= TagMax(maps, tag, feature))
  {
    var vs := Routed(cs, events, Key(tag, feature));
    RunsAnswer(cs, tag1, tag2, events, tag, feature);
    MinMaxOfShortStream(vs);
    AverageBetween(vs);
    if cs[feature].alpha <= FP_SCALE {
      EwmaWithin(vs, cs[feature].alpha, GetMin(MinMaxOf(vs)), GetMax(MinMaxOf(vs)));
    }
  }

  // ---------------------------------------------------------------- the client-tag feature

  lemma {:induction false} ClientTagStream(cs: Configs, events: seq<Event>, tag: nat)
    ensures AllEqual(Routed(cs, events, Key(tag, GF_CLIENT_TAG)), tag)
    decreases |events|
  {
    if events == [] {
    } else {
      ClientTagStream(cs, events[..|events| - 1], tag);
    }
  }

  /** Once fed, every listener of the client-tag feature that is on reports the tag itself,
      except that minimum and maximum read 0 at a counter wrap and that an out-of-range alpha
      spoils the weighted average: on the second value at the latest, as far as its arithmetic
      fits s64, which that of the second value does for tags below about 2^31. */
  lemma ClientTagSettles(cs: Configs, tag1: nat, tag2: nat, events: seq<Event>, tag: nat)
    requires EventsOk(tag1, tag2, events) && tag != 0 && cs[GF_CLIENT_TAG].alpha < U32
    requires Routed(cs, events, Key(tag, GF_CLIENT_TAG)) != []
    ensures var maps, vs, cfg := Run(cs, events).maps, Routed(cs, events, Key(tag, GF_CLIENT_TAG)), cs[GF_CLIENT_TAG];
            && (cfg.minmax ==> (TagMin(maps, tag, GF_CLIENT_TAG) == tag <==> |vs| % U32 != 0))
            && (cfg.minmax ==> (TagMax(maps, tag, GF_CLIENT_TAG) == tag <==> |vs| % U32 != 0))
            && (cfg.ewma && (cfg.alpha <= FP_SCALE || |vs| == 1) ==> TagEwma(maps, tag, GF_CLIENT_TAG) == tag)
            && (cfg.ewma && BlendsFit(vs, cfg.alpha) ==>
                  (TagEwma(maps, tag, GF_CLIENT_TAG) == tag <==> cfg.alpha <= FP_SCALE || |vs| == 1))
            && (|vs| == 2 && tag * (U32 + FP_SCALE) < S64_LIMIT ==> BlendsFit(vs, cfg.alpha))
            && (cfg.average ==> TagAverage(maps, tag, GF_CLIENT_TAG) == tag)
  {
    var vs, cfg := Routed(cs, events, Key(tag, GF_CLIENT_TAG)), cs[GF_CLIENT_TAG];
    hide Run, Routed, EventsOk;
    RunsAnswer(cs, tag1, tag2, events, tag, GF_CLIENT_TAG);
    ClientTagStream(cs, events, tag);
    hide TagMin, TagMax, TagEwma, TagAverage, BlendsFit, EwmaOf, AverageOf, MinMaxOf;
    MinMaxExact(vs);
    EwmaOfConstant(vs, cfg.alpha, tag);
    if |vs| == 2 && tag * (U32 + FP_SCALE) < S64_LIMIT {
      SecondPushFits(vs, cfg.alpha, tag);
    }
    AverageExact(vs);
    TotalWithin(vs, tag, tag);
    SdivBetween(Total(vs), |vs|, tag, tag);
  }

  // ---------------------------------------------------------------- the packet clock

  lemma TotalAppend(vs: seq<int>, v: int)
    ensures Total(vs + [v]) == Total(vs) + v
  {
    assert (vs + [v])[..|vs|] == vs;
  }

  lemma TotalRouted(vs: seq<int>, more: seq<int>)
    requires |more| <= 1
    ensures Total(vs + more) == Total(vs) + Total(more)
  {
    if more == [] {
      assert vs + more == vs;
    } else {
      assert more == [more[0]] && more[..0] == [];
      TotalAppend(vs, more[0]);
    }
  }

  function Elapsed(arrivals: seq<nat>): int {
    if arrivals == [] then 0 else arrivals[|arrivals| - 1] as int - arrivals[0]
  }

  /** What one event adds to the inter-arrival times of both tags. */
  lemma GapAdded(cs: Configs, arrivals: seq<nat>, s: State, e: Event)
    requires AnyEnabled(cs) && forall t :: t in arrivals ==> t > 0
    ensures Total(RoutedBy(cs, arrivals, s.watchlist, s.metadata, e, Key(1, GF_INTER_ARRIVAL)))
          + Total(RoutedBy(cs, arrivals, s.watchlist, s.metadata, e, Key(2, GF_INTER_ARRIVAL)))
         == if e.RecvMsg? && Monitored(e.sport) then Elapsed(arrivals + [e.now]) - Elapsed(arrivals) else 0
  {
    if e.RecvMsg? && Monitored(e.sport) {
      var gap := NetValue(arrivals, e.now, e.sample, GF_INTER_ARRIVAL);
      TotalAppend([], gap);
      assert [] + [gap] == [gap];
      if arrivals != [] {
        assert arrivals[|arrivals| - 1] in arrivals;
        assert (arrivals + [e.now])[0] == arrivals[0];
      }
    }
  }

  /** The inter-arrival times of the two tags share one clock: together they add up to the time
      between the first and the last arrival on any port. */
  lemma {:induction false} InterArrivalsAddUp(cs: Configs, events: seq<Event>)
    requires AnyEnabled(cs) && forall t :: t in Arrivals(cs, events) ==> t > 0
    ensures Total(Routed(cs, events, Key(1, GF_INTER_ARRIVAL))) + Total(Routed(cs, events, Key(2, GF_INTER_ARRIVAL)))
         == Elapsed(Arrivals(cs, events))
    decreases |events|
  {
    if events == [] {
    } else {
      var m := |events| - 1;
      var before, e := events[..m], events[m];
      var s, earlier := Run(cs, before), Arrivals(cs, before);
      assert forall t :: t in earlier ==> t in Arrivals(cs, events);
      InterArrivalsAddUp(cs, before);
      GapAdded(cs, earlier, s, e);
      hide RoutedBy, Elapsed, Run, Total;
      TotalRouted(Routed(cs, before, Key(1, GF_INTER_ARRIVAL)),
                  RoutedBy(cs, earlier, s.watchlist, s.metadata, e, Key(1, GF_INTER_ARRIVAL)));
      TotalRouted(Routed(cs, before, Key(2, GF_INTER_ARRIVAL)),
                  RoutedBy(cs, earlier, s.watchlist, s.metadata, e, Key(2, GF_INTER_ARRIVAL)));
    }
  }

  /** A receive at which the probe does its work. */
  predicate Arrives(cs: Configs, e: Event) {
    e.RecvMsg? && Monitored(e.sport) && AnyEnabled(cs)
  }

  predicate ArrivesFor(cs: Configs, e: Event, tag: nat) {
    Arrives(cs, e) && PortTag(e.sport) == tag
  }

  /** The arrival times of one client. */
  function OwnArrivals(cs: Configs, events: seq<Event>, tag: nat): seq<nat> {
    if events == [] then []
    else
      var earlier, e := OwnArrivals(cs, events[..|events| - 1], tag), events[|events| - 1];
      if ArrivesFor(cs, e, tag) then earlier + [e.now] else earlier
  }

  /** The differences of successive times, with 0 for the first. */
  function Gaps(times: seq<nat>): seq<int> {
    if times == [] then []
    else
      var n := |times| - 1;
      Gaps(times[..n]) + [if n == 0 then 0 else times[n] as int - times[n - 1]]
  }

  predicate Increasing(times: seq<nat>) {
    && (forall i :: 0 <= i < |times| ==> times[i] > 0)
    && (forall i, j :: 0 <= i < j < |times| ==> times[i] < times[j])
  }

  /** No arrival of another client precedes an arrival of this one. */
  predicate Undisturbed(cs: Configs, events: seq<Event>, tag: nat) {
    forall i, j :: 0 <= i < j < |events| && Arrives(cs, events[i]) && ArrivesFor(cs, events[j], tag) ==>
      ArrivesFor(cs, events[i], tag)
  }

  lemma {:induction false} OwnAmongAll(cs: Configs, events: seq<Event>, tag: nat)
    ensures var own, arrivals := OwnArrivals(cs, events, tag), Arrivals(cs, events);
            && |own| <= |arrivals|
            && (|own| == |arrivals| <==>
                  forall i :: 0 <= i < |events| && Arrives(cs, events[i]) ==> ArrivesFor(cs, events[i], tag))
            && (|own| == |arrivals| ==> own == arrivals)
    decreases |events|
  {
    if events == [] {
    } else {
      OwnAmongAll(cs, events[..|events| - 1], tag);
    }
  }

  /** The arrivals of an undisturbed client are the first ones. */
  lemma {:induction false} OwnComeFirst(cs: Configs, events: seq<Event>, tag: nat)
    requires Undisturbed(cs, events, tag)
    ensures OwnArrivals(cs, events, tag) <= Arrivals(cs, events)
    decreases |events|
  {
    if events == [] {
    } else {
      var m := |events| - 1;
      UndisturbedStep(cs, events, tag);
      OwnComeFirst(cs, events[..m], tag);
      OwnAmongAll(cs, events[..m], tag);
    }
  }

  lemma UndisturbedStep(cs: Configs, events: seq<Event>, tag: nat)
    requires events != []
    ensures var before, e := events[..|events| - 1], events[|events| - 1];
            Undisturbed(cs, events, tag) <==>
              && Undisturbed(cs, before, tag)
              && (ArrivesFor(cs, e, tag) ==> |OwnArrivals(cs, before, tag)| == |Arrivals(cs, before)|)
  {
    var m := |events| - 1;
    var before := events[..m];
    OwnAmongAll(cs, before, tag);
    assert forall i :: 0 <= i < m ==> before[i] == events[i];
    if Undisturbed(cs, events, tag) && ArrivesFor(cs, events[m], tag) {
      forall i | 0 <= i < m && Arrives(cs, before[i]) ensures ArrivesFor(cs, before[i], tag) {
        assert events[i] == before[i];
      }
    }
  }

  function Since(arrivals: seq<nat>, now: nat): int {
    if arrivals == [] then 0 else now as int - arrivals[|arrivals| - 1]
  }

  lemma GapsMore(times: seq<nat>, now: nat)
    ensures Gaps(times + [now]) == Gaps(times) + [Since(times, now)]
  {
    assert (times + [now])[..|times|] == times;
  }

  lemma ValueRouted(cs: Configs, arrivals: seq<nat>, s: State, e: Event, tag: nat)
    requires tag in {1, 2} && Increasing(arrivals)
    ensures RoutedBy(cs, arrivals, s.watchlist, s.metadata, e, Key(tag, GF_INTER_ARRIVAL))
         == if ArrivesFor(cs, e, tag) then [Since(arrivals, e.now)] else []
  {
  }

  lemma RoutedMore(cs: Configs, before: seq<Event>, e: Event, tag: nat)
    requires tag in {1, 2} && Increasing(Arrivals(cs, before))
    ensures Routed(cs, before + [e], Key(tag, GF_INTER_ARRIVAL))
         == Routed(cs, before, Key(tag, GF_INTER_ARRIVAL))
          + (if ArrivesFor(cs, e, tag) then [Since(Arrivals(cs, before), e.now)] else [])
  {
    var all, s := before + [e], Run(cs, before);
    assert all[..|all| - 1] == before && all[|all| - 1] == e;
    ValueRouted(cs, Arrivals(cs, before), s, e, tag);
    hide Run, RoutedBy, Increasing, Since, ArrivesFor, Arrivals;
  }

  lemma ArrivalsMore(cs: Configs, before: seq<Event>, e: Event, tag: nat)
    ensures Arrivals(cs, before + [e]) == Arrivals(cs, before) + (if Arrives(cs, e) then [e.now] else [])
    ensures OwnArrivals(cs, before + [e], tag)
         == OwnArrivals(cs, before, tag) + (if ArrivesFor(cs, e, tag) then [e.now] else [])
  {
    var all := before + [e];
    assert all[..|all| - 1] == before && all[|all| - 1] == e;
  }

  /** One more event: what is routed to the client, and what its own gap is. */
  lemma OneMoreEvent(cs: Configs, before: seq<Event>, e: Event, tag: nat)
    requires tag in {1, 2} && Increasing(Arrivals(cs, before))
    ensures var key, own := Key(tag, GF_INTER_ARRIVAL), OwnArrivals(cs, before, tag);
            && (ArrivesFor(cs, e, tag) ==>
                  && Routed(cs, before + [e], key) == Routed(cs, before, key) + [Since(Arrivals(cs, before), e.now)]
                  && OwnArrivals(cs, before + [e], tag) == own + [e.now]
                  && Gaps(own + [e.now]) == Gaps(own) + [Since(own, e.now)])
            && (!ArrivesFor(cs, e, tag) ==>
                  && Routed(cs, before + [e], key) == Routed(cs, before, key)
                  && OwnArrivals(cs, before + [e], tag) == own)
            && Arrivals(cs, before + [e]) == Arrivals(cs, before) + (if Arrives(cs, e) then [e.now] else [])
  {
    hide Run, RoutedBy, Routed, Gaps, Increasing, Since, PortTag, AnyEnabled, Arrivals, OwnArrivals;
    RoutedMore(cs, before, e, tag);
    ArrivalsMore(cs, before, e, tag);
    if ArrivesFor(cs, e, tag) {
      GapsMore(OwnArrivals(cs, before, tag), e.now);
    }
  }

  /** Two gaps at the same time agree exactly when they reach back to the same arrival. */
  lemma SameGap(own: seq<nat>, arrivals: seq<nat>, now: nat)
    requires own <= arrivals && Increasing(arrivals) && (arrivals != [] ==> arrivals[|arrivals| - 1] < now)
    ensures Since(own, now) == Since(arrivals, now) <==> |own| == |arrivals|
  {
    if 0 < |own| < |arrivals| {
      assert own[|own| - 1] == arrivals[|own| - 1] < arrivals[|arrivals| - 1];
    }
  }

  lemma AppendSame(a: seq<int>, b: seq<int>, x: int, y: int)
    requires |a| == |b|
    ensures a + [x] == b + [y] <==> a == b && x == y
  {
    assert (a + [x])[..|a|] == a && (b + [y])[..|b|] == b;
    assert (a + [x])[|a|] == x && (b + [y])[|b|] == y;
  }

  lemma IncreasingPrefix(times: seq<nat>, longer: seq<nat>)
    requires times <= longer && Increasing(longer)
    ensures Increasing(times)
    ensures |times| < |longer| && times != [] ==> times[|times| - 1] < longer[|times|]
  {
  }

  ghost predicate GapsAreOwn(cs: Configs, events: seq<Event>, tag: nat) {
    Routed(cs, events, Key(tag, GF_INTER_ARRIVAL)) == Gaps(OwnArrivals(cs, events, tag))
  }

  lemma OwnGapsStep(cs: Configs, before: seq<Event>, e: Event, tag: nat)
    requires tag in {1, 2} && ArrivesFor(cs, e, tag) && Increasing(Arrivals(cs, before) + [e.now])
    requires |Routed(cs, before, Key(tag, GF_INTER_ARRIVAL))| == |Gaps(OwnArrivals(cs, before, tag))|
    requires GapsAreOwn(cs, before, tag) <==> Undisturbed(cs, before, tag)
    ensures GapsAreOwn(cs, before + [e], tag) <==> Undisturbed(cs, before + [e], tag)
  {
    var own, arrivals := OwnArrivals(cs, before, tag), Arrivals(cs, before);
    var now := e.now;
    hide Routed, Gaps, OwnArrivals, Arrivals, Undisturbed, Increasing, Since, ArrivesFor;
    IncreasingPrefix(arrivals, arrivals + [now]);
    OneMoreEvent(cs, before, e, tag);
    UndisturbedMore(cs, before, e, tag);
    AppendSame(Routed(cs, before, Key(tag, GF_INTER_ARRIVAL)), Gaps(own), Since(arrivals, now), Since(own, now));
    if Undisturbed(cs, before, tag) {
      OwnComeFirst(cs, before, tag);
      SameGap(own, arrivals, now);
    }
  }

  lemma UndisturbedMore(cs: Configs, before: seq<Event>, e: Event, tag: nat)
    ensures Undisturbed(cs, before + [e], tag) <==>
              && Undisturbed(cs, before, tag)
              && (ArrivesFor(cs, e, tag) ==> |OwnArrivals(cs, before, tag)| == |Arrivals(cs, before)|)
  {
    var all := before + [e];
    assert all[..|all| - 1] == before && all[|all| - 1] == e;
    UndisturbedStep(cs, all, tag);
  }

  /** The inter-arrival values routed to a client are the gaps between its own arrivals exactly
      when no arrival of the other client precedes one of its own. */
  lemma {:induction false} OwnGapsExactly(cs: Configs, events: seq<Event>, tag: nat)
    requires tag in {1, 2} && Increasing(Arrivals(cs, events))
    ensures Routed(cs, events, Key(tag, GF_INTER_ARRIVAL)) == Gaps(OwnArrivals(cs, events, tag)) <==>
            Undisturbed(cs, events, tag)
    ensures |Routed(cs, events, Key(tag, GF_INTER_ARRIVAL))| == |Gaps(OwnArrivals(cs, events, tag))|
    decreases |events|
  {
    if events == [] {
    } else {
      var m := |events| - 1;
      var before, e := events[..m], events[m];
      hide Routed, Gaps, OwnArrivals, Arrivals, Undisturbed, Increasing, Since, AnyEnabled;
      assert events == before + [e];
      PrefixArrivals(cs, before, e);
      IncreasingPrefix(Arrivals(cs, before), Arrivals(cs, events));
      OneMoreEvent(cs, before, e, tag);
      OwnGapsExactly(cs, before, tag);
      UndisturbedMore(cs, before, e, tag);
      if ArrivesFor(cs, e, tag) {
        OwnGapsStep(cs, before, e, tag);
      }
    }
  }

  lemma PrefixArrivals(cs: Configs, before: seq<Event>, e: Event)
    ensures Arrivals(cs, before) <= Arrivals(cs, before + [e])
  {
    assert (before + [e])[..|before|] == before;
  }

  /** After any run: a packet of another client, then one of this client. What is routed is the
      time since the other client's packet, and that is not the client's own gap. */
  lemma InterleavedGaps(cs: Configs, before: seq<Event>, other: Event, e: Event, tag: nat)
    requires tag in {1, 2} && Arrives(cs, other) && !ArrivesFor(cs, other, tag) && ArrivesFor(cs, e, tag)
    requires Increasing(Arrivals(cs, before) + [other.now] + [e.now])
    ensures var key, own := Key(tag, GF_INTER_ARRIVAL), OwnArrivals(cs, before, tag);
            && Routed(cs, before + [other] + [e], key) == Routed(cs, before, key) + [e.now - other.now]
            && Gaps(OwnArrivals(cs, before + [other] + [e], tag)) == Gaps(own) + [Since(own, e.now)]
            && Since(own, e.now) != e.now - other.now
  {
    var arrivals := Arrivals(cs, before);
    hide Routed, Gaps, OwnArrivals, Arrivals, Increasing, AnyEnabled, PortTag, Monitored;
    OwnBeforeNow(cs, before, other, e, tag);
    IncreasingPrefix(arrivals + [other.now], arrivals + [other.now] + [e.now]);
    IncreasingPrefix(arrivals, arrivals + [other.now]);
    OneMoreEvent(cs, before, other, tag);
    OneMoreEvent(cs, before + [other], e, tag);
  }

  lemma {:induction false} OwnAreArrivals(cs: Configs, events: seq<Event>, tag: nat)
    ensures forall t :: t in OwnArrivals(cs, events, tag) ==> t in Arrivals(cs, events)
    decreases |events|
  {
    if events == [] {
    } else {
      OwnAreArrivals(cs, events[..|events| - 1], tag);
    }
  }

  lemma OwnBeforeNow(cs: Configs, before: seq<Event>, other: Event, e: Event, tag: nat)
    requires Arrives(cs, other) && Arrives(cs, e)
    requires Increasing(Arrivals(cs, before) + [other.now] + [e.now])
    ensures Since(OwnArrivals(cs, before, tag), e.now) != e.now - other.now
  {
    var own, all := OwnArrivals(cs, before, tag), Arrivals(cs, before) + [other.now] + [e.now];
    assert all[|all| - 1] == e.now && all[|all| - 2] == other.now;
    OwnAreArrivals(cs, before, tag);
    if own != [] {
      var t := own[|own| - 1];
      assert t in Arrivals(cs, before);
      var i :| 0 <= i < |Arrivals(cs, before)| && Arrivals(cs, before)[i] == t;
      assert all[i] == t;
    }
  }

  // ---------------------------------------------------------------- the hooks in place

  class Policy {
    const configs: Configs
    const watcher: DirWatcher.Watcher
    var metadata: map<nat, nat>
    var prevPacketTs: nat
    var lastPacketTs: nat
    var recvCount: nat
    var minmax: map<Key, MinMax>
    var ewma: map<Key, Ewma>
    var average: map<Key, Average>
    var window: map<Key, Buffer>

    constructor (configs: Configs, watcher: DirWatcher.Watcher)
      ensures this.configs == configs && this.watcher == watcher
      ensures View() == Init().(watchlist := watcher.watchlist)
    {
      this.configs, this.watcher := configs, watcher;
      metadata, prevPacketTs, lastPacketTs, recvCount := map[], 0, 0, 0;
      minmax, ewma, average, window := map[], map[], map[], map[];
    }

    function Listeners(): Maps
      reads this
    {
      Maps(minmax, ewma, average, window)
    }

    function View(): State
      reads this, watcher
    {
      State(watcher.watchlist, metadata, prevPacketTs, lastPacketTs, recvCount, Listeners())
    }

    method UpdateMinMax(key: Key, raw: int)
      modifies `minmax
      ensures minmax == Put(old(minmax), key, MinMaxUpdate(Look(old(minmax), key, MinMaxOf([])), raw))
    {
      if key !in minmax && |minmax| < MAX_ENTRIES {
        minmax := minmax[key := MinMax(0, 0, 0)];
      }
      if key in minmax {
        minmax := minmax[key := MinMaxUpdate(minmax[key], raw)];
      }
    }

    method UpdateEwma(key: Key, raw: int, alpha: nat)
      modifies `ewma
      ensures ewma == Put(old(ewma), key, EwmaUpdate(Look(old(ewma), key, EwmaOf([], alpha)), raw, alpha))
    {
      if key !in ewma && |ewma| < MAX_ENTRIES {
        ewma := ewma[key := Ewma(0, false)];
      }
      if key in ewma {
        ewma := ewma[key := EwmaUpdate(ewma[key], raw, alpha)];
      }
    }

    method UpdateAverage(key: Key, raw: int)
      modifies `average
      ensures average == Put(old(average), key, AverageUpdate(Look(old(average), key, AverageOf([])), raw))
    {
      if key !in average && |average| < MAX_ENTRIES {
        average := average[key := Average(0, 0)];
      }
      if key in average {
        average := average[key := AverageUpdate(average[key], raw)];
      }
    }

    method UpdateWindow(key: Key, raw: int, windowSize: nat)
      modifies `window
      ensures window == Put(old(window), key, WindowUpdate(Look(old(window), key, EmptyWindow()), raw, windowSize))
    {
      if key !in window && |window| < MAX_ENTRIES {
        window := window[key := EmptyWindow()];
      }
      if key in window {
        window := window[key := WindowUpdate(window[key], raw, windowSize)];
      }
    }

    method UpdateListeners(tag: nat, feature: nat, raw: int, cfg: Config)
      modifies `minmax, `ewma, `average, `window
      ensures Listeners() == UpdateFeature(old(Listeners()), cfg, tag, feature, raw)
    {
      if tag == 0 || !Enabled(cfg) {
        return;
      }
      if feature >= NUM_FEATURES {
        return;
      }
      var key := Key(tag, feature);
      if cfg.minmax {
        UpdateMinMax(key, raw);
      }
      if cfg.ewma {
        UpdateEwma(key, raw, cfg.alpha);
      }
      if cfg.average {
        UpdateAverage(key, raw);
      }
      if cfg.window {
        UpdateWindow(key, raw, cfg.windowSize);
      }
    }

    /** kprobe/tcp_recvmsg. */
    method TraceTcpRecvmsg(sport: nat, now: nat, sample: Sample)
      modifies this
      ensures View() == Step(configs, old(View()), RecvMsg(sport, now, sample))
    {
      hide Dispatch;
      if sport != 9100 && sport != 9101 && sport != 9001 && sport != 9002 {
        return;
      }
      var tag := PortTag(sport);
      var anyEnabled := false;
      for i := 0 to NUM_FEATURES
        invariant anyEnabled <==> exists f :: 0 <= f < i && Enabled(configs[f])
      {
        anyEnabled := anyEnabled || Enabled(configs[i]);
      }
      if !anyEnabled {
        return;
      }
      prevPacketTs := lastPacketTs;
      lastPacketTs := now;
      recvCount := recvCount + 1;
      var interArrival := 0;
      if prevPacketTs > 0 {
        interArrival := lastPacketTs - prevPacketTs;
      }
      var raw: seq<int> := sample + [interArrival, recvCount, 0];
      DispatchAll(tag, raw);
    }

    /** Per tag only; the client-tag feature is fed by the folio hooks. */
    method DispatchAll(tag: nat, raw: seq<int>)
      requires |raw| == NUM_FEATURES
      modifies `minmax, `ewma, `average, `window
      ensures Listeners() == Dispatch(configs, old(Listeners()), tag, raw, |raw|)
    {
      hide UpdateFeature;
      for i := 0 to |raw|
        invariant Listeners() == Dispatch(configs, old(Listeners()), tag, raw, i)
      {
        if i == GF_CLIENT_TAG {
          continue;
        }
        if Enabled(configs[i]) {
          UpdateListeners(tag, i, raw[i], configs[i]);
        }
      }
    }

    method FolioAdded(folio: nat, ino: nat, listOk: bool, mapOk: bool)
      modifies this
      ensures View() == Step(configs, old(View()), VulcanDispatch.FolioAdded(folio, ino, listOk, mapOk))
    {
      if !DirWatcher.InWatchlist(watcher.watchlist, ino) {
        return;
      }
      if !listOk {
        return;
      }
      var tag := DirWatcher.ClientTag(watcher.watchlist, ino);
      if mapOk {
        metadata := metadata[folio := tag];
      }
      UpdateListeners(tag, GF_CLIENT_TAG, tag, configs[GF_CLIENT_TAG]);
    }

    method FolioAccessed(folio: nat, ino: nat, mapOk: bool)
      modifies this
      ensures View() == Step(configs, old(View()), VulcanDispatch.FolioAccessed(folio, ino, mapOk))
    {
      if !DirWatcher.InWatchlist(watcher.watchlist, ino) {
        return;
      }
      if folio !in metadata {
        var tag := DirWatcher.ClientTag(watcher.watchlist, ino);
        if mapOk {
          metadata := metadata[folio := tag];
        }
        UpdateListeners(tag, GF_CLIENT_TAG, tag, configs[GF_CLIENT_TAG]);
        return;
      }
      var tag := metadata[folio];
      UpdateListeners(tag, GF_CLIENT_TAG, tag, configs[GF_CLIENT_TAG]);
    }

    method FolioEvicted(folio: nat, ino: nat)
      modifies this
      ensures View() == Step(configs, old(View()), VulcanDispatch.FolioEvicted(folio, ino))
    {
      if DirWatcher.InWatchlist(watcher.watchlist, ino) {
        metadata := metadata - {folio};
      }
    }
  }
}
