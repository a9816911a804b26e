/** The threshold aggregator: a pruned, deduplicated sliding window over a durable queue. */
module Aggregator {
  import opened Prelude
  import opened Queue

  /** Microseconds since 0001-01-01T00:00:00Z; the largest is the last of the year 9999. */
  const MAX_INSTANT: int := 315537897599999999
  type Instant = t: int | 0 <= t <= MAX_INSTANT

  /** A stored record; a field that is absent, of another type or unparseable reads as None. The
      apply-once key is the id, and None stands for the lookup that would fail. */
  datatype Rec = Rec(id: Option<string>, bucket: Option<string>, at: Option<Instant>)

  type RecCodec = Codec<Rec, Option<string>>

  ghost predicate Keyed(c: RecCodec) {
    Sound(c) && forall r :: c.keyOf(r) == r.id
  }

  datatype Config = Config(threshold: int, window: int)

  predicate Allowed(cfg: Config) {
    cfg.threshold >= 1 && cfg.window > 0
  }

  /** One call: the event's id and bucket, what the clock reads, and whether the process was
      restarted just before it. */
  datatype Reading = Reading(id: string, bucket: Option<string>, now: Instant, restart: bool)

  datatype ThresholdState = ThresholdState(key: Option<string>, count: nat, breached: bool, occurrences: seq<Rec>)

  function Shift(reference: Instant, delta: int): Instant {
    var t := reference + delta;
    if t < 0 then 0 else if t > MAX_INSTANT then MAX_INSTANT else t
  }

  predicate Retained(r: Rec, horizon: Instant, ceiling: Instant) {
    r.id.Some? && r.bucket.Some? && r.at.Some? && horizon <= r.at.value <= ceiling
  }

  predicate Countable(r: Rec, horizon: Instant, reference: Instant) {
    r.at.Some? && horizon <= r.at.value <= reference
  }

  function Kept(rs: seq<Rec>, horizon: Instant, ceiling: Instant): seq<Rec> {
    if rs == [] then []
    else
      var last := rs[|rs| - 1];
      Kept(rs[..|rs| - 1], horizon, ceiling) + if Retained(last, horizon, ceiling) then [last] else []
  }

  function Counted(rs: seq<Rec>, bucket: Option<string>, horizon: Instant, reference: Instant): seq<Rec> {
    if rs == [] then []
    else
      var last := rs[|rs| - 1];
      Counted(rs[..|rs| - 1], bucket, horizon, reference)
      + if last.bucket == bucket && Countable(last, horizon, reference) then [last] else []
  }

  function RecordOf(e: Reading): Rec {
    Rec(Some(e.id), e.bucket, Some(e.now))
  }

  function Prune(c: RecCodec, cfg: Config, q: Store<Option<string>>, now: Instant): Store<Option<string>> {
    var records := Contents(c, q);
    var kept := Kept(records, Shift(now, -cfg.window), Shift(now, cfg.window));
    if |kept| != |records| then Rewritten(c, kept) else q
  }

  const NO_STATE := ThresholdState(None, 0, false, [])

  /** What is returned for an event in a bucket. */
  function Counting(cfg: Config, list: seq<Rec>, e: Reading): ThresholdState {
    var occurrences := Counted(list, e.bucket, Shift(e.now, -cfg.window), e.now);
    ThresholdState(e.bucket, |occurrences|, |occurrences| >= cfg.threshold, occurrences)
  }

  /** The store after the call, what was returned, and whether the event was recorded. */
  datatype Snap = Snap(store: Store<Option<string>>, state: ThresholdState, wrote: bool)

  function Snapshot(c: RecCodec, cfg: Config, q: Store<Option<string>>, e: Reading): Snap {
    AddEvent(c, cfg, Prune(c, cfg, q, e.now),
             Kept(Contents(c, q), Shift(e.now, -cfg.window), Shift(e.now, cfg.window)), e)
  }

  /** The rest of a call, once the store is pruned to `kept`. */
  function AddEvent(c: RecCodec, cfg: Config, pruned: Store<Option<string>>, kept: seq<Rec>, e: Reading): Snap {
    if e.bucket.None? then Snap(pruned, NO_STATE, false)
    else
      var (q', wrote) := Append(c, pruned, RecordOf(e));
      Snap(q', Counting(cfg, if wrote then kept + [RecordOf(e)] else kept, e), wrote)
  }

  // ---- as the class it is ----

  class ThresholdAggregator {
    const store: DurableQueue<Rec, Option<string>>
    const cfg: Config

    constructor (store: DurableQueue<Rec, Option<string>>, cfg: Config)
      requires Allowed(cfg)
      ensures this.store == store && this.cfg == cfg
    {
      this.store, this.cfg := store, cfg;
    }

    method TakeSnapshot(e: Reading) returns (state: ThresholdState)
      requires !e.restart
      modifies store
      ensures var s := Snapshot(store.codec, cfg, old(store.State()), e);
        store.State() == s.store && state == s.state
    {
      var horizon, ceiling := Shift(e.now, -cfg.window), Shift(e.now, cfg.window);
      var records := store.ReadLines();
      var kept := Kept(records, horizon, ceiling);
      if |kept| != |records| {
        store.Replace(kept);
      }
      if e.bucket.None? {
        return ThresholdState(None, 0, false, []);
      }
      var wrote := store.Enqueue(RecordOf(e));
      var counted := if wrote then kept + [RecordOf(e)] else kept;
      var occurrences := Counted(counted, e.bucket, horizon, e.now);
      return ThresholdState(e.bucket, |occurrences|, |occurrences| >= cfg.threshold, occurrences);
    }
  }

  // ---- one call, on the plain list ----

  lemma KeptAfter(rs: seq<Rec>, r: Rec, horizon: Instant, ceiling: Instant)
    ensures Kept(rs + [r], horizon, ceiling)
         == Kept(rs, horizon, ceiling) + if Retained(r, horizon, ceiling) then [r] else []
  {
    assert (rs + [r])[..|rs|] == rs;
  }

  lemma CountedAfter(rs: seq<Rec>, r: Rec, bucket: Option<string>, horizon: Instant, reference: Instant)
    ensures Counted(rs + [r], bucket, horizon, reference)
         == Counted(rs, bucket, horizon, reference)
            + if r.bucket == bucket && Countable(r, horizon, reference) then [r] else []
  {
    assert (rs + [r])[..|rs|] == rs;
  }

  lemma {:induction false} KeptFacts(rs: seq<Rec>, horizon: Instant, ceiling: Instant)
    ensures |Kept(rs, horizon, ceiling)| <= |rs|
    ensures |Kept(rs, horizon, ceiling)| == |rs| ==> Kept(rs, horizon, ceiling) == rs
    ensures forall r :: r in Kept(rs, horizon, ceiling) <==> r in rs && Retained(r, horizon, ceiling)
  {
    if rs != [] {
      var most, last := rs[..|rs| - 1], rs[|rs| - 1];
      KeptFacts(most, horizon, ceiling);
      assert rs == most + [last];
      assert forall r :: r in rs <==> r in most || r == last;
    }
  }

  lemma {:induction false} CountedFacts(rs: seq<Rec>, bucket: Option<string>, horizon: Instant, reference: Instant)
    ensures forall r :: r in Counted(rs, bucket, horizon, reference) <==>
      r in rs && r.bucket == bucket && Countable(r, horizon, reference)
  {
    if rs != [] {
      var most, last := rs[..|rs| - 1], rs[|rs| - 1];
      CountedFacts(most, bucket, horizon, reference);
      assert forall r :: r in rs <==> r in most || r == last by { assert rs == most + [last]; }
    }
  }

  /** Whatever was in the file, torn lines and foreign records included, once it is pruned every
      record has a key, so the index built before the enqueue never meets one without. */
  lemma PruneScrubs(c: RecCodec, cfg: Config, q: Store<Option<string>>, now: Instant)
    requires Keyed(c)
    ensures var pruned := Prune(c, cfg, q, now);
      && Contents(c, pruned) == Kept(Contents(c, q), Shift(now, -cfg.window), Shift(now, cfg.window))
      && (forall r :: r in Contents(c, pruned) ==> r.id.Some?)
      && (Inv(c, q) ==> Inv(c, pruned))
  {
    var records := Contents(c, q);
    var kept := Kept(records, Shift(now, -cfg.window), Shift(now, cfg.window));
    KeptFacts(records, Shift(now, -cfg.window), Shift(now, cfg.window));
    PrunedTo(c, q, kept, Prune(c, cfg, q, now));
    assert forall r :: r in kept ==> r.id.Some?;
  }

  lemma PrunedTo(c: RecCodec, q: Store<Option<string>>, kept: seq<Rec>, pruned: Store<Option<string>>)
    requires Sound(c) && (|kept| == |Contents(c, q)| ==> kept == Contents(c, q))
    requires pruned == if |kept| != |Contents(c, q)| then Rewritten(c, kept) else q
    ensures Contents(c, pruned) == kept && (Inv(c, q) ==> Inv(c, pruned))
  {
    RewriteHolds(c, kept);
  }

  predicate Present(rs: seq<Rec>, id: string) {
    exists r | r in rs :: r.id == Some(id)
  }

  /** One call on a plain list: prune it, add the event unless its id is still there, and count
      the event's bucket in what is left. */
  datatype ListSnap = ListSnap(list: seq<Rec>, state: ThresholdState, wrote: bool)

  function SnapshotList(cfg: Config, list: seq<Rec>, e: Reading): ListSnap {
    AddToList(cfg, Kept(list, Shift(e.now, -cfg.window), Shift(e.now, cfg.window)), e)
  }

  function AddToList(cfg: Config, kept: seq<Rec>, e: Reading): ListSnap {
    var wrote := e.bucket.Some? && !Present(kept, e.id);
    var after := if wrote then kept + [RecordOf(e)] else kept;
    ListSnap(after, if e.bucket.None? then NO_STATE else Counting(cfg, after, e), wrote)
  }

  lemma SnapshotListIs(cfg: Config, list: seq<Rec>, e: Reading)
    ensures var s := SnapshotList(cfg, list, e);
      var kept := Kept(list, Shift(e.now, -cfg.window), Shift(e.now, cfg.window));
      && s.wrote == (e.bucket.Some? && !Present(kept, e.id))
      && s.list == if s.wrote then kept + [RecordOf(e)] else kept
  {
  }

  lemma SnapshotOnList(c: RecCodec, cfg: Config, q: Store<Option<string>>, e: Reading)
    requires Keyed(c) && Inv(c, q)
    ensures var s := Snapshot(c, cfg, q, e);
      Inv(c, s.store) && ListSnap(Contents(c, s.store), s.state, s.wrote) == SnapshotList(cfg, Contents(c, q), e)
  {
    PruneScrubs(c, cfg, q, e.now);
    AddOnList(c, cfg, Prune(c, cfg, q, e.now),
              Kept(Contents(c, q), Shift(e.now, -cfg.window), Shift(e.now, cfg.window)), e);
  }

  lemma AddOnList(c: RecCodec, cfg: Config, pruned: Store<Option<string>>, kept: seq<Rec>, e: Reading)
    requires Keyed(c) && Inv(c, pruned) && Contents(c, pruned) == kept
    ensures var s := AddEvent(c, cfg, pruned, kept, e);
      Inv(c, s.store) && ListSnap(Contents(c, s.store), s.state, s.wrote) == AddToList(cfg, kept, e)
  {
    AppendOnList(c, pruned, e);
  }

  lemma AppendOnList(c: RecCodec, q: Store<Option<string>>, e: Reading)
    requires Keyed(c) && Inv(c, q)
    ensures var (q', wrote) := Append(c, q, RecordOf(e));
      && Inv(c, q')
      && wrote == !Present(Contents(c, q), e.id)
      && Contents(c, q') == if wrote then Contents(c, q) + [RecordOf(e)] else Contents(c, q)
  {
    AppendAddsRecord(c, q, RecordOf(e));
    KeyPresent(c, Contents(c, q), e.id);
  }

  lemma KeyPresent(c: RecCodec, rs: seq<Rec>, id: string)
    requires Keyed(c)
    ensures Some(id) in KeysOf(c, rs) <==> Present(rs, id)
  {
    if Some(id) in KeysOf(c, rs) {
      var i :| 0 <= i < |rs| && c.keyOf(rs[i]) == Some(id);
      assert rs[i] in rs;
    }
    forall r | r in rs && r.id == Some(id) ensures Some(id) in KeysOf(c, rs) {
      var i :| 0 <= i < |rs| && rs[i] == r;
      assert c.keyOf(rs[i]) in KeysOf(c, rs);
    }
  }

  /** Well-shaped, and stamped at most one window before or after `now`. */
  predicate InBand(r: Rec, now: Instant, window: int) {
    r.id.Some? && r.bucket.Some? && r.at.Some? && now - window <= r.at.value <= now + window
  }

  /** What the store holds after a call, whatever was in it: the records that were in the band, and the
      event if it was written, which it is exactly when it has a bucket and no record in the band has
      its id. So a replay of an id stored beyond the band is recorded again. */
  lemma StoreIsBand(c: RecCodec, cfg: Config, q: Store<Option<string>>, e: Reading)
    requires Keyed(c) && Inv(c, q) && Allowed(cfg)
    ensures var s := Snapshot(c, cfg, q, e);
      && (s.wrote <==> && e.bucket.Some?
                       && forall r :: r in Contents(c, q) && InBand(r, e.now, cfg.window) ==> r.id != Some(e.id))
      && (forall r :: r in Contents(c, s.store) <==>
            || (r in Contents(c, q) && InBand(r, e.now, cfg.window))
            || (s.wrote && r == Rec(Some(e.id), e.bucket, Some(e.now))))
      && forall r :: r in Contents(c, s.store) ==> InBand(r, e.now, cfg.window)
  {
    SnapshotOnList(c, cfg, q, e);
    ListIsBand(cfg, Contents(c, q), e);
  }

  lemma ListIsBand(cfg: Config, list: seq<Rec>, e: Reading)
    requires Allowed(cfg)
    ensures var s := SnapshotList(cfg, list, e);
      && (s.wrote <==> && e.bucket.Some?
                       && forall r :: r in list && InBand(r, e.now, cfg.window) ==> r.id != Some(e.id))
      && (forall r :: r in s.list <==> (r in list && InBand(r, e.now, cfg.window)) || (s.wrote && r == RecordOf(e)))
      && forall r :: r in s.list ==> InBand(r, e.now, cfg.window)
  {
    var kept := Kept(list, Shift(e.now, -cfg.window), Shift(e.now, cfg.window));
    KeptFacts(list, Shift(e.now, -cfg.window), Shift(e.now, cfg.window));
    SnapshotListIs(cfg, list, e);
    assert forall r :: r in kept <==> r in list && InBand(r, e.now, cfg.window);
    assert forall r :: r in kept + [RecordOf(e)] <==> r in kept || r == RecordOf(e);
  }

  // ---- whole runs ----

  /** A run: the calls made so far, latest outermost. */
  datatype Calls = Begin | Call(before: Calls, e: Reading)

  /** The store, every record ever appended to it (oldest first), and what the last call returned. */
  datatype Life = Life(store: Store<Option<string>>, recorded: seq<Rec>, last: ThresholdState)

  function Wake(l: Life, e: Reading): Store<Option<string>> {
    if e.restart then Restarted(l.store) else l.store
  }

  function Next(c: RecCodec, cfg: Config, l: Life, e: Reading): Life {
    var s := Snapshot(c, cfg, Wake(l, e), e);
    Life(s.store, if s.wrote then l.recorded + [RecordOf(e)] else l.recorded, s.state)
  }

  /** A run from an empty dedicated store. */
  function Live(c: RecCodec, cfg: Config, calls: Calls): Life {
    match calls
    case Begin => Life(Store(None, None), [], NO_STATE)
    case Call(before, e) => Next(c, cfg, Live(c, cfg, before), e)
  }

  /** The same run on a plain list, without files, indexes or restarts. */
  datatype ListLife = ListLife(list: seq<Rec>, recorded: seq<Rec>, last: ThresholdState)

  function LiveList(cfg: Config, calls: Calls): ListLife {
    match calls
    case Begin => ListLife([], [], NO_STATE)
    case Call(before, e) => NextList(cfg, LiveList(cfg, before), e)
  }

  function NextList(cfg: Config, l: ListLife, e: Reading): ListLife {
    var s := SnapshotList(cfg, l.list, e);
    ListLife(s.list, if s.wrote then l.recorded + [RecordOf(e)] else l.recorded, s.state)
  }

  lemma NextOnList(c: RecCodec, cfg: Config, l: Life, e: Reading)
    requires Keyed(c) && Inv(c, l.store)
    ensures var l' := Next(c, cfg, l, e);
      && Inv(c, l'.store)
      && ListLife(Contents(c, l'.store), l'.recorded, l'.last)
           == NextList(cfg, ListLife(Contents(c, l.store), l.recorded, l.last), e)
  {
    SnapshotOnList(c, cfg, Wake(l, e), e);
  }

  /** The durable run is the run on a list: nothing depends on the file, the index or a restart. */
  lemma {:induction false} LiveIsLiveList(c: RecCodec, cfg: Config, calls: Calls)
    requires Keyed(c)
    ensures var l := Live(c, cfg, calls);
      Inv(c, l.store) && ListLife(Contents(c, l.store), l.recorded, l.last) == LiveList(cfg, calls)
  {
    match calls
    case Begin => assert KeysOf(c, []) == {};
    case Call(before, e) =>
      LiveIsLiveList(c, cfg, before);
      NextOnList(c, cfg, Live(c, cfg, before), e);
  }

  predicate WellShaped(r: Rec) {
    r.id.Some? && r.bucket.Some? && r.at.Some?
  }

  predicate HistoryBy(history: seq<Rec>, now: Instant) {
    forall r | r in history :: WellShaped(r) && r.at.value <= now
  }

  /** The largest clock reading of a run. */
  function Latest(calls: Calls): Instant {
    match calls
    case Begin => 0
    case Call(before, e) => if Latest(before) <= e.now then e.now else Latest(before)
  }

  lemma {:induction false} RecordedBy(cfg: Config, calls: Calls)
    ensures HistoryBy(LiveList(cfg, calls).recorded, Latest(calls))
  {
    if calls.Call? {
      RecordedBy(cfg, calls.before);
    }
  }

  // ---- the clock never goes back: the window is the whole history ----

  predicate Monotone(calls: Calls) {
    match calls
    case Begin => true
    case Call(before, e) => Monotone(before) && Latest(before) <= e.now
  }

  /** Of the records of a history, those stamped at or after `from`. */
  function Since(history: seq<Rec>, from: int): seq<Rec> {
    if history == [] then []
    else
      var last := history[|history| - 1];
      Since(history[..|history| - 1], from) + if last.at.Some? && last.at.value >= from then [last] else []
  }

  /** Of those, the ones in `bucket`. */
  function SinceIn(history: seq<Rec>, bucket: Option<string>, from: int): seq<Rec> {
    if history == [] then []
    else
      var last := history[|history| - 1];
      SinceIn(history[..|history| - 1], bucket, from)
      + if last.bucket == bucket && last.at.Some? && last.at.value >= from then [last] else []
  }

  predicate Accepts(window: int, history: seq<Rec>, e: Reading) {
    && e.bucket.Some?
    && forall r | r in history :: !(r.id == Some(e.id) && r.at.Some? && r.at.value >= e.now - window)
  }

  /** The accepted events of a history, by its own rule and without any store: an event is accepted
      if it has a bucket and no accepted event with its id is still in the window. */
  function Accepted(window: int, calls: Calls): seq<Rec> {
    match calls
    case Begin => []
    case Call(before, e) => AcceptedNext(window, Accepted(window, before), e)
  }

  function AcceptedNext(window: int, history: seq<Rec>, e: Reading): seq<Rec> {
    if Accepts(window, history, e) then history + [Rec(Some(e.id), e.bucket, Some(e.now))] else history
  }

  lemma {:induction false} SinceMember(history: seq<Rec>, from: int)
    ensures forall r :: r in Since(history, from) <==> r in history && r.at.Some? && r.at.value >= from
  {
    if history != [] {
      var most, last := history[..|history| - 1], history[|history| - 1];
      SinceMember(most, from);
      assert forall r :: r in history <==> r in most || r == last by { assert history == most + [last]; }
    }
  }

  /** Pruning what an earlier, larger window kept is keeping the smaller window of the history. */
  lemma {:induction false} PruneSince(history: seq<Rec>, from: int, now: Instant, window: int)
    requires window > 0 && from <= now - window && HistoryBy(history, now)
    ensures Kept(Since(history, from), Shift(now, -window), Shift(now, window)) == Since(history, now - window)
  {
    if history != [] {
      var most, last := history[..|history| - 1], history[|history| - 1];
      assert forall r :: r in most ==> r in history;
      PruneSince(most, from, now, window);
      KeptAfter(Since(most, from), last, Shift(now, -window), Shift(now, window));
      assert Since(most, from) + [] == Since(most, from);
    }
  }

  lemma {:induction false} CountSince(history: seq<Rec>, bucket: Option<string>, now: Instant, window: int)
    requires window > 0 && HistoryBy(history, now)
    ensures Counted(Since(history, now - window), bucket, Shift(now, -window), now)
         == SinceIn(history, bucket, now - window)
  {
    if history != [] {
      var most, last := history[..|history| - 1], history[|history| - 1];
      assert forall r :: r in most ==> r in history;
      CountSince(most, bucket, now, window);
      CountedAfter(Since(most, now - window), last, bucket, Shift(now, -window), now);
      assert Since(most, now - window) + [] == Since(most, now - window);
    }
  }

  lemma SinceAfter(history: seq<Rec>, r: Rec, from: int)
    ensures Since(history + [r], from)
         == Since(history, from) + if r.at.Some? && r.at.value >= from then [r] else []
  {
    assert (history + [r])[..|history|] == history;
  }

  lemma AcceptsIffNotInWindow(window: int, history: seq<Rec>, e: Reading)
    ensures Accepts(window, history, e)
        <==> e.bucket.Some? && !Present(Since(history, e.now - window), e.id)
  {
    SinceMember(history, e.now - window);
  }

  /** At `now`, the store holds the records of the history that are in the window, in order and
      nothing else; all of the history is recorded, and none of it is stamped later. */
  ghost predicate InWindow(l: ListLife, history: seq<Rec>, now: Instant, window: int) {
    l.recorded == history && l.list == Since(history, now - window) && HistoryBy(history, now)
  }

  /** The same history, read at a later instant, once the store is pruned to `kept`. */
  lemma WindowAdds(window: int, history: seq<Rec>, kept: seq<Rec>, l: ListLife, e: Reading)
    requires window > 0 && HistoryBy(history, e.now) && kept == Since(history, e.now - window)
    requires var wrote := e.bucket.Some? && !Present(kept, e.id);
      && l.list == (if wrote then kept + [RecordOf(e)] else kept)
      && l.recorded == if wrote then history + [RecordOf(e)] else history
    ensures InWindow(l, AcceptedNext(window, history, e), e.now, window)
  {
    KeptAdds(window, history, e);
    HistoryNext(window, history, e);
  }

  lemma KeptAdds(window: int, history: seq<Rec>, e: Reading)
    requires window > 0
    ensures var kept := Since(history, e.now - window);
      var next := AcceptedNext(window, history, e);
      if e.bucket.Some? && !Present(kept, e.id)
      then next == history + [RecordOf(e)] && Since(next, e.now - window) == kept + [RecordOf(e)]
      else next == history
  {
    AcceptsIffNotInWindow(window, history, e);
    SinceAfter(history, RecordOf(e), e.now - window);
  }

  lemma HistoryLater(history: seq<Rec>, now: Instant, later: Instant)
    requires now <= later && HistoryBy(history, now)
    ensures HistoryBy(history, later)
  {
  }

  lemma HistoryNext(window: int, history: seq<Rec>, e: Reading)
    requires HistoryBy(history, e.now)
    ensures HistoryBy(AcceptedNext(window, history, e), e.now)
  {
  }

  lemma NextListIs(cfg: Config, l: ListLife, e: Reading, kept: seq<Rec>)
    requires kept == Kept(l.list, Shift(e.now, -cfg.window), Shift(e.now, cfg.window))
    ensures var wrote := e.bucket.Some? && !Present(kept, e.id);
      var l' := NextList(cfg, l, e);
      && l'.list == (if wrote then kept + [RecordOf(e)] else kept)
      && l'.recorded == if wrote then l.recorded + [RecordOf(e)] else l.recorded
  {
    SnapshotListIs(cfg, l.list, e);
  }

  lemma WindowNext(cfg: Config, l: ListLife, history: seq<Rec>, now: Instant, e: Reading)
    requires Allowed(cfg) && now <= e.now && InWindow(l, history, now, cfg.window)
    ensures InWindow(NextList(cfg, l, e), AcceptedNext(cfg.window, history, e), e.now, cfg.window)
  {
    HistoryLater(history, now, e.now);
    KeptSince(cfg, l, history, now, e);
    WindowGoesOn(cfg, l, history, Since(history, e.now - cfg.window), e);
  }

  lemma WindowGoesOn(cfg: Config, l: ListLife, history: seq<Rec>, kept: seq<Rec>, e: Reading)
    requires Allowed(cfg) && l.recorded == history && HistoryBy(history, e.now)
    requires kept == Since(history, e.now - cfg.window)
    requires kept == Kept(l.list, Shift(e.now, -cfg.window), Shift(e.now, cfg.window))
    ensures InWindow(NextList(cfg, l, e), AcceptedNext(cfg.window, history, e), e.now, cfg.window)
  {
    NextListIs(cfg, l, e, kept);
    WindowAdds(cfg.window, history, kept, NextList(cfg, l, e), e);
  }

  lemma KeptSince(cfg: Config, l: ListLife, history: seq<Rec>, now: Instant, e: Reading)
    requires Allowed(cfg) && now <= e.now && InWindow(l, history, now, cfg.window) && HistoryBy(history, e.now)
    ensures Kept(l.list, Shift(e.now, -cfg.window), Shift(e.now, cfg.window)) == Since(history, e.now - cfg.window)
  {
    PruneSince(history, now - cfg.window, e.now, cfg.window);
  }

  /** From an empty store and with a clock that never goes back, after every call the store holds
      the accepted events of the whole history that are in the window, in order and nothing else. */
  lemma {:induction false} ListIsWindow(cfg: Config, calls: Calls)
    requires Allowed(cfg) && Monotone(calls)
    ensures InWindow(LiveList(cfg, calls), Accepted(cfg.window, calls), Latest(calls), cfg.window)
  {
    if calls.Call? {
      ListIsWindow(cfg, calls.before);
      WindowNext(cfg, LiveList(cfg, calls.before), Accepted(cfg.window, calls.before), Latest(calls.before), calls.e);
    }
  }

  lemma LastCounts(cfg: Config, calls: Calls)
    requires calls.Call?
    ensures var e := calls.e;
      var l := LiveList(cfg, calls);
      && l.last.key == e.bucket
      && l.last.occurrences == (if e.bucket.None? then []
                                else Counted(l.list, e.bucket, Shift(e.now, -cfg.window), e.now))
      && l.last.count == |l.last.occurrences|
      && (l.last.breached <==> e.bucket.Some? && l.last.count >= cfg.threshold)
  {
  }

  /** Each count is the number of accepted events in the whole history that have the current bucket
      and are stamped at or after now minus window, so pruning never loses anything and `breached`
      is exact; restarts anywhere in the run change nothing. */
  lemma WindowIsHistory(c: RecCodec, cfg: Config, calls: Calls)
    requires Keyed(c) && Allowed(cfg) && Monotone(calls) && calls.Call?
    ensures var e := calls.e;
      var state := Live(c, cfg, calls).last;
      && state.key == e.bucket
      && state.occurrences == (if e.bucket.None? then []
                               else SinceIn(Accepted(cfg.window, calls), e.bucket, e.now - cfg.window))
      && state.count == |state.occurrences|
      && (state.breached <==> state.count >= cfg.threshold)
  {
    LiveIsLiveList(c, cfg, calls);
    LastCounts(cfg, calls);
    LastIsWindow(cfg, calls);
  }

  lemma LastIsWindow(cfg: Config, calls: Calls)
    requires Allowed(cfg) && Monotone(calls) && calls.Call?
    ensures var e := calls.e;
      Counted(LiveList(cfg, calls).list, e.bucket, Shift(e.now, -cfg.window), e.now)
        == SinceIn(Accepted(cfg.window, calls), e.bucket, e.now - cfg.window)
  {
    ListIsWindow(cfg, calls);
    CountWindow(LiveList(cfg, calls), Accepted(cfg.window, calls), calls.e, cfg.window);
  }

  lemma CountWindow(l: ListLife, history: seq<Rec>, e: Reading, window: int)
    requires window > 0 && InWindow(l, history, e.now, window)
    ensures Counted(l.list, e.bucket, Shift(e.now, -window), e.now) == SinceIn(history, e.bucket, e.now - window)
  {
    CountSince(history, e.bucket, e.now, window);
  }

  // ---- the clock may step back ----

  /** No reading is more than one window behind an earlier one. */
  predicate SmallSteps(window: int, calls: Calls) {
    match calls
    case Begin => true
    case Call(before, e) => SmallSteps(window, before) && Latest(before) - window <= e.now
  }

  /** If the clock never steps back by more than a window, every recorded occurrence no older than a
      window against the largest reading so far is still stored. */
  lemma {:induction false} SmallStepsKeep(cfg: Config, calls: Calls, r: Rec)
    requires Allowed(cfg) && SmallSteps(cfg.window, calls)
    requires r in LiveList(cfg, calls).recorded && r.at.Some? && r.at.value >= Latest(calls) - cfg.window
    ensures r in LiveList(cfg, calls).list
  {
    var l := LiveList(cfg, calls.before);
    StepKeeps(cfg, l.list, calls.e, r);
    if r in l.recorded {
      RecordedBy(cfg, calls.before);
      SmallStepsKeep(cfg, calls.before, r);
    }
  }

  lemma StepKeeps(cfg: Config, list: seq<Rec>, e: Reading, r: Rec)
    requires Allowed(cfg)
    ensures var s := SnapshotList(cfg, list, e);
      && (r in list && WellShaped(r) && e.now - cfg.window <= r.at.value <= e.now + cfg.window ==> r in s.list)
      && (s.wrote ==> RecordOf(e) in s.list)
  {
    var kept := Kept(list, Shift(e.now, -cfg.window), Shift(e.now, cfg.window));
    KeptFacts(list, Shift(e.now, -cfg.window), Shift(e.now, cfg.window));
    var s := SnapshotList(cfg, list, e);
    if s.wrote {
      assert s.list[|kept|] == RecordOf(e);
    }
    if r in kept {
      var i :| 0 <= i < |kept| && kept[i] == r;
      assert s.list[i] == r;
    }
  }

  /** It is still stored, and it counts in its bucket whenever the clock has reached its stamp. */
  lemma SmallStepsCount(c: RecCodec, cfg: Config, calls: Calls, r: Rec)
    requires Keyed(c) && Allowed(cfg) && SmallSteps(cfg.window, calls) && calls.Call?
    requires r in Live(c, cfg, calls).recorded && r.at.Some? && r.at.value >= Latest(calls) - cfg.window
    ensures r in Contents(c, Live(c, cfg, calls).store)
    ensures r.bucket == calls.e.bucket && r.at.value <= calls.e.now ==> r in Live(c, cfg, calls).last.occurrences
  {
    LiveIsLiveList(c, cfg, calls);
    SmallStepsKeep(cfg, calls, r);
    RecordedBy(cfg, calls);
    LastCounts(cfg, calls);
    CountedFacts(LiveList(cfg, calls).list, calls.e.bucket, Shift(calls.e.now, -cfg.window), calls.e.now);
  }

  /** How many records of a bucket are stamped within [from, to]. */
  function CountIn(rs: seq<Rec>, bucket: Option<string>, from: int, to: int): nat {
    if rs == [] then 0
    else
      var last := rs[|rs| - 1];
      CountIn(rs[..|rs| - 1], bucket, from, to)
      + if last.bucket == bucket && last.at.Some? && from <= last.at.value <= to then 1 else 0
  }

  lemma CountInAfter(rs: seq<Rec>, r: Rec, bucket: Option<string>, from: int, to: int)
    ensures CountIn(rs + [r], bucket, from, to) == CountIn(rs, bucket, from, to) + CountIn([r], bucket, from, to)
  {
    assert (rs + [r])[..|rs|] == rs && [r][..0] == [];
  }

  lemma {:induction false} KeptCountsNoMore(rs: seq<Rec>, horizon: Instant, ceiling: Instant,
                                            bucket: Option<string>, from: int, to: int)
    ensures CountIn(Kept(rs, horizon, ceiling), bucket, from, to) <= CountIn(rs, bucket, from, to)
  {
    if rs != [] {
      var most, last := rs[..|rs| - 1], rs[|rs| - 1];
      KeptCountsNoMore(most, horizon, ceiling, bucket, from, to);
      CountInPerhaps(Kept(most, horizon, ceiling), last, Retained(last, horizon, ceiling), bucket, from, to);
      CountInAfter(most, last, bucket, from, to);
      assert rs == most + [last];
    }
  }

  lemma CountInPerhaps(rs: seq<Rec>, r: Rec, added: bool, bucket: Option<string>, from: int, to: int)
    ensures CountIn(rs + if added then [r] else [], bucket, from, to)
         <= CountIn(rs, bucket, from, to) + CountIn([r], bucket, from, to)
  {
    if added {
      CountInAfter(rs, r, bucket, from, to);
    } else {
      assert rs + [] == rs;
    }
  }

  lemma {:induction false} CountedIs(rs: seq<Rec>, bucket: Option<string>, now: Instant, window: int)
    requires window > 0
    ensures |Counted(rs, bucket, Shift(now, -window), now)| == CountIn(rs, bucket, now - window, now)
  {
    if rs != [] {
      CountedIs(rs[..|rs| - 1], bucket, now, window);
    }
  }

  lemma {:induction false} StoredCountsNoMore(cfg: Config, calls: Calls, bucket: Option<string>, from: int, to: int)
    ensures var l := LiveList(cfg, calls);
      CountIn(l.list, bucket, from, to) <= CountIn(l.recorded, bucket, from, to)
  {
    if calls.Call? {
      var l := LiveList(cfg, calls.before);
      StoredCountsNoMore(cfg, calls.before, bucket, from, to);
      StepCountsNoMore(cfg, l.list, calls.e, bucket, from, to);
      CountInAfter(l.recorded, RecordOf(calls.e), bucket, from, to);
    }
  }

  lemma StepCountsNoMore(cfg: Config, list: seq<Rec>, e: Reading, bucket: Option<string>, from: int, to: int)
    ensures var s := SnapshotList(cfg, list, e);
      CountIn(s.list, bucket, from, to)
        <= CountIn(list, bucket, from, to) + if s.wrote then CountIn([RecordOf(e)], bucket, from, to) else 0
  {
    var horizon, ceiling := Shift(e.now, -cfg.window), Shift(e.now, cfg.window);
    KeptCountsNoMore(list, horizon, ceiling, bucket, from, to);
    SnapshotListIs(cfg, list, e);
    AddedCountsNoMore(Kept(list, horizon, ceiling), SnapshotList(cfg, list, e), RecordOf(e), bucket, from, to);
  }

  lemma AddedCountsNoMore(kept: seq<Rec>, s: ListSnap, r: Rec, bucket: Option<string>, from: int, to: int)
    requires s.list == if s.wrote then kept + [r] else kept
    ensures CountIn(s.list, bucket, from, to)
         == CountIn(kept, bucket, from, to) + if s.wrote then CountIn([r], bucket, from, to) else 0
  {
    CountInAfter(kept, r, bucket, from, to);
  }

  /** Under any clock at all, a count never exceeds the number of recorded events of the bucket that
      are stamped in [now minus window, now]. */
  lemma NeverOvercounts(c: RecCodec, cfg: Config, calls: Calls)
    requires Keyed(c) && Allowed(cfg) && calls.Call?
    ensures var l := Live(c, cfg, calls);
      l.last.count <= CountIn(l.recorded, calls.e.bucket, calls.e.now - cfg.window, calls.e.now)
  {
    LiveIsLiveList(c, cfg, calls);
    ListNeverOvercounts(cfg, calls);
  }

  lemma ListNeverOvercounts(cfg: Config, calls: Calls)
    requires Allowed(cfg) && calls.Call?
    ensures var l := LiveList(cfg, calls);
      l.last.count <= CountIn(l.recorded, calls.e.bucket, calls.e.now - cfg.window, calls.e.now)
  {
    LastCounts(cfg, calls);
    StoredCountsNoMore(cfg, calls, calls.e.bucket, calls.e.now - cfg.window, calls.e.now);
    CountedIs(LiveList(cfg, calls).list, calls.e.bucket, calls.e.now, cfg.window);
  }
}
