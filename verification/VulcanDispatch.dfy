/** The per-tag dispatch: socket reads and folio hooks push raw values into listeners kept in
    four hash maps, one entry per (client tag, feature). Over every interleaving of events each
    entry is the fold over exactly the values routed to it. */
module VulcanDispatch {
  import opened VulcanListeners
  import DirWatcher
  import Lists

  const NUM_FEATURES: nat := 17
  const GF_INTER_ARRIVAL: nat := 14
  const GF_RECV_COUNT: nat := 15
  const GF_CLIENT_TAG: nat := 16
  /** max_entries of each listener map. */
  const MAX_ENTRIES: nat := 128

  /** One row of gf_configs: the four listener bits of listener_mask, whether it has any other
      bit, and the listeners' parameters. */
  datatype Config = Config(minmax: bool, ewma: bool, average: bool, window: bool, other: bool,
                           alpha: nat, windowSize: nat)

  const OFF: Config := Config(false, false, false, false, false, 0, 0)

  /** A non-zero listener_mask. */
  predicate Enabled(cfg: Config) {
    cfg.minmax || cfg.ewma || cfg.average || cfg.window || cfg.other
  }

  type Configs = cs: seq<Config> | |cs| == NUM_FEATURES
    witness seq(NUM_FEATURES, _ => OFF)

  predicate AnyEnabled(cs: Configs) {
    exists f :: 0 <= f < NUM_FEATURES && Enabled(cs[f])
  }

  datatype Key = Key(tag: nat, feature: nat)

  type Buffer = rw: Window | WindowOk(rw) witness EmptyWindow()

  datatype Maps = Maps(minmax: map<Key, MinMax>, ewma: map<Key, Ewma>,
                       average: map<Key, Average>, window: map<Key, Buffer>)

  // ---------------------------------------------------------------- one value into one entry

  /** A lookup that sees a fresh listener where there is no entry. */
  function Look<V>(m: map<Key, V>, key: Key, fresh': V): V {
    if key in m then m[key] else fresh'
  }

  /** An insertion of a new key fails when the map is full; an entry is updated in place. */
  function Put<V>(m: map<Key, V>, key: Key, v: V): map<Key, V> {
    if key in m || |m| < MAX_ENTRIES then m[key := v] else m
  }

  function UpdateFeature(maps: Maps, cfg: Config, tag: nat, feature: nat, raw: int): Maps {
    if tag == 0 || !Enabled(cfg) || feature >= NUM_FEATURES then maps
    else
      var key := Key(tag, feature);
      Maps(
        if cfg.minmax then Put(maps.minmax, key, MinMaxUpdate(Look(maps.minmax, key, MinMaxOf([])), raw))
        else maps.minmax,
        if cfg.ewma then Put(maps.ewma, key, EwmaUpdate(Look(maps.ewma, key, EwmaOf([], cfg.alpha)), raw, cfg.alpha))
        else maps.ewma,
        if cfg.average then Put(maps.average, key, AverageUpdate(Look(maps.average, key, AverageOf([])), raw))
        else maps.average,
        if cfg.window
        then Put(maps.window, key, WindowUpdate(Look(maps.window, key, EmptyWindow()), raw, cfg.windowSize))
        else maps.window)
  }

  // ---------------------------------------------------------------- the accessors

  predicate Answers(tag: nat, feature: nat) {
    tag != 0 && feature < NUM_FEATURES
  }

  function TagMin(maps: Maps, tag: nat, feature: nat): int {
    if Answers(tag, feature) && Key(tag, feature) in maps.minmax then GetMin(maps.minmax[Key(tag, feature)]) else 0
  }

  function TagMax(maps: Maps, tag: nat, feature: nat): int {
    if Answers(tag, feature) && Key(tag, feature) in maps.minmax then GetMax(maps.minmax[Key(tag, feature)]) else 0
  }

  function TagEwma(maps: Maps, tag: nat, feature: nat): int {
    if Answers(tag, feature) && Key(tag, feature) in maps.ewma then GetEwma(maps.ewma[Key(tag, feature)]) else 0
  }

  function TagAverage(maps: Maps, tag: nat, feature: nat): int {
    if Answers(tag, feature) && Key(tag, feature) in maps.average then GetAverage(maps.average[Key(tag, feature)])
    else 0
  }

  function TagKthRecent(maps: Maps, tag: nat, feature: nat, k: nat): int {
    if Answers(tag, feature) && Key(tag, feature) in maps.window
    then GetKthRecent(maps.window[Key(tag, feature)], k) else 0
  }

  function TagLatest(maps: Maps, tag: nat, feature: nat): int {
    if Answers(tag, feature) && Key(tag, feature) in maps.window then GetLatest(maps.window[Key(tag, feature)]) else 0
  }

  function TagWindowAverage(maps: Maps, tag: nat, feature: nat): int {
    if Answers(tag, feature) && Key(tag, feature) in maps.window
    then GetWindowAverage(maps.window[Key(tag, feature)]) else 0
  }

  function TagWindowCount(maps: Maps, tag: nat, feature: nat): nat {
    if Answers(tag, feature) && Key(tag, feature) in maps.window then maps.window[Key(tag, feature)].count else 0
  }

  // ---------------------------------------------------------------- events

  /** The server port of a monitored socket says whose traffic it is. */
  function PortTag(sport: nat): nat {
    if sport == 9100 || sport == 9001 then 1
    else if sport == 9101 || sport == 9002 then 2
    else 0
  }

  predicate Monitored(sport: nat) {
    sport in {9100, 9101, 9001, 9002}
  }

  /** Client 1 is served on ports 9100 and 9001, client 2 on 9101 and 9002, and nobody elsewhere. */
  lemma PortsExactly(sport: nat)
    ensures PortTag(sport) == 1 <==> sport == 9100 || sport == 9001
    ensures PortTag(sport) == 2 <==> sport == 9101 || sport == 9002
    ensures PortTag(sport) == 0 <==> !Monitored(sport)
  {
  }

  /** The 14 counters read from the socket, in feature order. */
  type Sample = s: seq<int> | |s| == GF_INTER_ARRIVAL witness seq(GF_INTER_ARRIVAL, _ => 0)

  datatype Event =
    | VfsOpen(ino: nat, tag: nat, deleteOk: bool, updateOk: bool)
    | RecvMsg(sport: nat, now: nat, sample: Sample)
    | FolioAdded(folio: nat, ino: nat, listOk: bool, mapOk: bool)
    | FolioAccessed(folio: nat, ino: nat, mapOk: bool)
    | FolioEvicted(folio: nat, ino: nat)

  /** metadata keeps, of a folio's metadata, the client tag it was given when it was entered. */
  datatype State = State(watchlist: DirWatcher.Watchlist, metadata: map<nat, nat>,
                         prevPacketTs: nat, lastPacketTs: nat, recvCount: nat, maps: Maps)

  function Init(): State {
    State(map[], map[], 0, 0, 0, Maps(map[], map[], map[], map[]))
  }

  /** The array dispatched after a receive at time now that was preceded by one at time prev. */
  function RawValues(sample: Sample, prev: nat, now: nat, recvCount: nat): (raw: seq<int>)
    ensures |raw| == NUM_FEATURES
  {
    sample + [if prev > 0 then now - prev else 0, recvCount, 0]
  }

  function Dispatch(cs: Configs, maps: Maps, tag: nat, raw: seq<int>, n: nat): Maps
    requires |raw| == NUM_FEATURES && n <= NUM_FEATURES
  {
    if n == 0 then maps
    else
      var before := Dispatch(cs, maps, tag, raw, n - 1);
      if n - 1 == GF_CLIENT_TAG || !Enabled(cs[n - 1]) then before
      else UpdateFeature(before, cs[n - 1], tag, n - 1, raw[n - 1])
  }

  function RecvStep(cs: Configs, s: State, sport: nat, now: nat, sample: Sample): State {
    if !Monitored(sport) || !AnyEnabled(cs) then s
    else
      var raw := RawValues(sample, s.lastPacketTs, now, s.recvCount + 1);
      s.(prevPacketTs := s.lastPacketTs, lastPacketTs := now, recvCount := s.recvCount + 1,
         maps := Dispatch(cs, s.maps, PortTag(sport), raw, |raw|))
  }

  function FeedTag(cs: Configs, s: State, tag: nat): State {
    s.(maps := UpdateFeature(s.maps, cs[GF_CLIENT_TAG], tag, GF_CLIENT_TAG, tag))
  }

  /** A folio that has no metadata yet is entered with its inode's tag. */
  function Enter(cs: Configs, s: State, folio: nat, ino: nat, mapOk: bool): State {
    var tag := DirWatcher.ClientTag(s.watchlist, ino);
    FeedTag(cs, if mapOk then s.(metadata := s.metadata[folio := tag]) else s, tag)
  }

  function Step(cs: Configs, s: State, e: Event): State {
    match e
    case VfsOpen(ino, tag, deleteOk, updateOk) =>
      s.(watchlist := DirWatcher.OpenInode(s.watchlist, ino, tag, deleteOk, updateOk))
    case RecvMsg(sport, now, sample) => RecvStep(cs, s, sport, now, sample)
    case FolioAdded(folio, ino, listOk, mapOk) =>
      if !DirWatcher.InWatchlist(s.watchlist, ino) || !listOk then s
      else Enter(cs, s, folio, ino, mapOk)
    case FolioAccessed(folio, ino, mapOk) =>
      if !DirWatcher.InWatchlist(s.watchlist, ino) then s
      else if folio in s.metadata then FeedTag(cs, s, s.metadata[folio])
      else Enter(cs, s, folio, ino, mapOk)
    case FolioEvicted(folio, ino) =>
      if !DirWatcher.InWatchlist(s.watchlist, ino) then s
      else s.(metadata := s.metadata - {folio})
  }

  function Run(cs: Configs, events: seq<Event>): State {
    if events == [] then Init() else Step(cs, Run(cs, events[..|events| - 1]), events[|events| - 1])
  }

  // ---------------------------------------------------------------- what is routed where

  /** The times at which the probe did its work: receives on a monitored port while some
      listener is on. */
  function Arrivals(cs: Configs, events: seq<Event>): seq<nat> {
    if events == [] then []
    else
      var earlier, e := Arrivals(cs, events[..|events| - 1]), events[|events| - 1];
      if e.RecvMsg? && Monitored(e.sport) && AnyEnabled(cs) then earlier + [e.now] else earlier
  }

  /** The value of a network feature at a receive: a counter of the socket, the time since the
      previous arrival on any port, or the number of arrivals so far. */
  function NetValue(arrivals: seq<nat>, now: nat, sample: Sample, feature: nat): int
    requires feature < GF_CLIENT_TAG
  {
    if feature < GF_INTER_ARRIVAL then sample[feature]
    else if feature == GF_RECV_COUNT then |arrivals| + 1
    else if arrivals == [] || arrivals[|arrivals| - 1] == 0 then 0
    else now - arrivals[|arrivals| - 1]
  }

  /** The tag a folio hook reports: the one in the folio's metadata, or the inode's for a folio
      that is entered; 0 when the hook does nothing. */
  function HookTag(watchlist: DirWatcher.Watchlist, metadata: map<nat, nat>, e: Event): nat {
    match e
    case FolioAdded(folio, ino, listOk, mapOk) => if listOk then DirWatcher.ClientTag(watchlist, ino) else 0
    case FolioAccessed(folio, ino, mapOk) =>
      var tag := DirWatcher.ClientTag(watchlist, ino);
      if tag != 0 && folio in metadata then metadata[folio] else tag
    case _ => 0
  }

  /** The values, none or one, that an event routes to a key. The probe routes nothing while
      every listener is off. */
  function RoutedBy(cs: Configs, arrivals: seq<nat>, watchlist: DirWatcher.Watchlist, metadata: map<nat, nat>,
                    e: Event, key: Key)
    : seq<int>
  {
    if key.tag == 0 then []
    else if key.feature == GF_CLIENT_TAG then
      if HookTag(watchlist, metadata, e) == key.tag then [key.tag] else []
    else if key.feature < GF_CLIENT_TAG && AnyEnabled(cs) && e.RecvMsg? && PortTag(e.sport) == key.tag then
      [NetValue(arrivals, e.now, e.sample, key.feature)]
    else []
  }

  /** The stream of raw values routed to a key. */
  function Routed(cs: Configs, events: seq<Event>, key: Key): seq<int> {
    if events == [] then []
    else
      var earlier := events[..|events| - 1];
      var s := Run(cs, earlier);
      Routed(cs, earlier, key)
      + RoutedBy(cs, Arrivals(cs, earlier), s.watchlist, s.metadata, events[|events| - 1], key)
  }

  // ---------------------------------------------------------------- capacity

  ghost function FeatureKeys(tag: nat, n: nat): set<Key> {
    set f: nat | f < n :: Key(tag, f)
  }

  /** All keys that can ever be used: two port tags with 16 network features each, and the
      two configured client tags. */
  ghost function UsableKeys(tag1: nat, tag2: nat): set<Key> {
    FeatureKeys(1, GF_CLIENT_TAG) + FeatureKeys(2, GF_CLIENT_TAG)
    + {Key(tag1, GF_CLIENT_TAG), Key(tag2, GF_CLIENT_TAG)}
  }

  lemma {:induction false} FeatureKeysSize(tag: nat, n: nat)
    ensures |FeatureKeys(tag, n)| == n
  {
    if n == 0 {
      assert FeatureKeys(tag, n) == {};
    } else {
      FeatureKeysSize(tag, n - 1);
      assert FeatureKeys(tag, n) == FeatureKeys(tag, n - 1) + {Key(tag, n - 1)};
    }
  }

  lemma UsableKeysSize(tag1: nat, tag2: nat)
    ensures |UsableKeys(tag1, tag2)| <= 34
  {
    FeatureKeysSize(1, GF_CLIENT_TAG);
    FeatureKeysSize(2, GF_CLIENT_TAG);
  }

  ghost predicate KeysOk(maps: Maps, keys: set<Key>) {
    && maps.minmax.Keys <= keys && maps.ewma.Keys <= keys
    && maps.average.Keys <= keys && maps.window.Keys <= keys
  }

  // ---------------------------------------------------------------- entries

  /** The four listeners of a key, fresh where there is no entry. */
  datatype Entry = Entry(minmax: MinMax, ewma: Ewma, average: Average, window: Buffer)

  function EntryOf(maps: Maps, key: Key): Entry {
    Entry(Look(maps.minmax, key, MinMaxOf([])), Look(maps.ewma, key, EwmaOf([], 0)),
          Look(maps.average, key, AverageOf([])), Look(maps.window, key, EmptyWindow()))
  }

  /** A listener that is off stays fresh. */
  function Folded(cfg: Config, vs: seq<int>): Entry {
    Entry(if cfg.minmax then MinMaxOf(vs) else MinMaxOf([]),
          if cfg.ewma then EwmaOf(vs, cfg.alpha) else EwmaOf([], 0),
          if cfg.average then AverageOf(vs) else AverageOf([]),
          if cfg.window then WindowOf(vs, cfg.windowSize) else EmptyWindow())
  }

  function Pushed(cfg: Config, entry: Entry, v: int): Entry {
    Entry(if cfg.minmax then MinMaxUpdate(entry.minmax, v) else entry.minmax,
          if cfg.ewma then EwmaUpdate(entry.ewma, v, cfg.alpha) else entry.ewma,
          if cfg.average then AverageUpdate(entry.average, v) else entry.average,
          if cfg.window then WindowUpdate(entry.window, v, cfg.windowSize) else entry.window)
  }

  lemma FoldedPushed(cfg: Config, vs: seq<int>, v: int)
    ensures Folded(cfg, vs + [v]) == Pushed(cfg, Folded(cfg, vs), v)
  {
    assert (vs + [v])[..|vs|] == vs;
  }

  lemma PushedOff(cfg: Config, entry: Entry, v: int)
    ensures !Enabled(cfg) ==> Pushed(cfg, entry, v) == entry
  {
  }

  /** Whatever the maps hold, a call moves the listeners of its own key that are on and have, or
      can get, an entry; it moves nothing else, and nothing at all for tag 0. */
  lemma UpdateFeatureExact(maps: Maps, cfg: Config, tag: nat, feature: nat, raw: int, other: Key)
    ensures var key, maps' := Key(tag, feature), UpdateFeature(maps, cfg, tag, feature, raw);
            var was, now := EntryOf(maps, other), EntryOf(maps', other);
            if other != key || !Answers(tag, feature) then now == was
            else
              var moved := Pushed(cfg, was, raw);
              && now.minmax == (if key in maps.minmax || |maps.minmax| < MAX_ENTRIES then moved.minmax else was.minmax)
              && now.ewma == (if key in maps.ewma || |maps.ewma| < MAX_ENTRIES then moved.ewma else was.ewma)
              && now.average
                 == (if key in maps.average || |maps.average| < MAX_ENTRIES then moved.average else was.average)
              && now.window == (if key in maps.window || |maps.window| < MAX_ENTRIES then moved.window else was.window)
  {
  }

  /** Among usable keys there is always room. */
  lemma UpdateFits(maps: Maps, cfg: Config, tag: nat, feature: nat, raw: int, keys: set<Key>, other: Key)
    requires KeysOk(maps, keys) && |keys| < MAX_ENTRIES
    requires Answers(tag, feature) ==> Key(tag, feature) in keys
    ensures var maps' := UpdateFeature(maps, cfg, tag, feature, raw);
            && KeysOk(maps', keys)
            && EntryOf(maps', other) == (if Answers(tag, feature) && other == Key(tag, feature)
                                         then Pushed(cfg, EntryOf(maps, other), raw) else EntryOf(maps, other))
  {
    var key := Key(tag, feature);
    UpdateFeatureExact(maps, cfg, tag, feature, raw, other);
    if Answers(tag, feature) {
      Lists.SubsetSize(maps.minmax.Keys, keys);
      Lists.SubsetSize(maps.ewma.Keys, keys);
      Lists.SubsetSize(maps.average.Keys, keys);
      Lists.SubsetSize(maps.window.Keys, keys);
    }
  }

  /** One receive pushes each enabled network feature once, in the entry of its tag. */
  lemma {:induction false} DispatchFits(cs: Configs, maps: Maps, tag: nat, raw: seq<int>, n: nat,
                                        keys: set<Key>, other: Key)
    requires |raw| == NUM_FEATURES && n <= NUM_FEATURES
    requires KeysOk(maps, keys) && |keys| < MAX_ENTRIES
    requires tag != 0 ==> forall f :: 0 <= f < GF_CLIENT_TAG ==> Key(tag, f) in keys
    ensures var maps' := Dispatch(cs, maps, tag, raw, n);
            && KeysOk(maps', keys)
            && EntryOf(maps', other)
               == (if tag != 0 && other.tag == tag && other.feature < n && other.feature < GF_CLIENT_TAG
                   then Pushed(cs[other.feature], EntryOf(maps, other), raw[other.feature]) else EntryOf(maps, other))
  {
    hide UpdateFeature, Pushed, EntryOf;
    if n > 0 {
      DispatchFits(cs, maps, tag, raw, n - 1, keys, other);
      if n - 1 != GF_CLIENT_TAG && Enabled(cs[n - 1]) {
        UpdateFits(Dispatch(cs, maps, tag, raw, n - 1), cs[n - 1], tag, n - 1, raw[n - 1], keys, other);
      } else {
        PushedOff(cs[n - 1], EntryOf(maps, other), raw[n - 1]);
      }
    }
  }
}
