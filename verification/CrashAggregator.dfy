/** The threshold aggregator in a process that dies in the middle of recording events, any number of
    times. */
module CrashAggregator {
  import opened Prelude
  import opened Queue
  import opened Aggregator
  import Crash

  type RecDisk = Crash.Disk<Rec, Option<string>>

  /** `Dies` is a call whose append dies after at most `at` characters, the store already pruned. */
  datatype Calls = Begin | Call(before: Calls, e: Reading) | Dies(before: Calls, e: Reading, at: nat)

  /** What a call that dies leaves. An event whose append was started counts as recorded. */
  function Died(c: RecCodec, cfg: Config, l: Life, e: Reading, at: nat): Life {
    var pruned := Prune(c, cfg, Wake(l, e), e.now);
    if e.bucket.None? then l.(store := Restarted(pruned))
    else
      var begun := c.keyOf(RecordOf(e)) !in Index(c, pruned);
      Life(Crash.TornPut(c, pruned, RecordOf(e), at), if begun then l.recorded + [RecordOf(e)] else l.recorded, l.last)
  }

  function Live(c: RecCodec, cfg: Config, calls: Calls): Life {
    match calls
    case Begin => Life(Store(None, None), [], NO_STATE)
    case Call(before, e) => Next(c, cfg, Live(c, cfg, before), e)
    case Dies(before, e, at) => Died(c, cfg, Live(c, cfg, before), e, at)
  }

  function Tears(calls: Calls): nat {
    match calls
    case Begin => 0
    case Call(before, _) => Tears(before)
    case Dies(before, _, _) => Tears(before) + 1
  }

  function Latest(calls: Calls): Instant {
    if calls.Begin? then 0
    else if Latest(calls.before) <= calls.e.now then calls.e.now else Latest(calls.before)
  }

  predicate Monotone(calls: Calls) {
    calls.Begin? || (Monotone(calls.before) && Latest(calls.before) <= calls.e.now)
  }

  // ---- the same on plain lists with a tail ----

  function KeptOf(cfg: Config, d: RecDisk, now: Instant): seq<Rec> {
    Kept(Crash.Visible(d), Shift(now, -cfg.window), Shift(now, cfg.window))
  }

  function PruneDisk(c: RecCodec, cfg: Config, d: RecDisk, now: Instant): RecDisk {
    var kept := KeptOf(cfg, d, now);
    if |kept| != |Crash.Visible(d)| then Crash.Disk(kept, Crash.Whole, Some(KeysOf(c, kept)), kept) else d
  }

  datatype DiskLife = DiskLife(disk: RecDisk, recorded: seq<Rec>, last: ThresholdState)

  function Woken(l: DiskLife, e: Reading): RecDisk {
    if e.restart then l.disk.(index := None) else l.disk
  }

  function NextDisk(c: RecCodec, cfg: Config, l: DiskLife, e: Reading): DiskLife {
    var kept := KeptOf(cfg, Woken(l, e), e.now);
    var pruned := PruneDisk(c, cfg, Woken(l, e), e.now);
    if e.bucket.None? then DiskLife(pruned, l.recorded, NO_STATE)
    else
      var (disk, wrote) := Crash.Put(c, pruned, RecordOf(e));
      DiskLife(disk, if wrote then l.recorded + [RecordOf(e)] else l.recorded,
               Counting(cfg, if wrote then kept + [RecordOf(e)] else kept, e))
  }

  function DiedDisk(c: RecCodec, cfg: Config, l: DiskLife, e: Reading, at: nat): DiskLife {
    var pruned := PruneDisk(c, cfg, Woken(l, e), e.now);
    if e.bucket.None? then l.(disk := pruned.(index := None))
    else
      var begun := c.keyOf(RecordOf(e)) !in Crash.Known(c, pruned);
      DiskLife(Crash.Tear(c, pruned, RecordOf(e), at), if begun then l.recorded + [RecordOf(e)] else l.recorded, l.last)
  }

  function LiveDisk(c: RecCodec, cfg: Config, calls: Calls): DiskLife {
    match calls
    case Begin => DiskLife(Crash.Disk([], Crash.Whole, None, []), [], NO_STATE)
    case Call(before, e) => NextDisk(c, cfg, LiveDisk(c, cfg, before), e)
    case Dies(before, e, at) => DiedDisk(c, cfg, LiveDisk(c, cfg, before), e, at)
  }

  /** The durable run behind a run on lists. */
  ghost predicate Shows(c: RecCodec, l: Life, d: DiskLife, text: string, parts: seq<string>) {
    Crash.Holds(c, l.store, d.disk, text, parts) && l.recorded == d.recorded && l.last == d.last
  }

  lemma {:induction false} PruneHolds(c: RecCodec, cfg: Config, q: Store<Option<string>>, d: RecDisk, now: Instant,
                                      text: string, parts: seq<string>)
    returns (text': string, parts': seq<string>)
    requires Sound(c) && Crash.CrashSafe(c) && Crash.Holds(c, q, d, text, parts)
    ensures Contents(c, q) == Crash.Visible(d)
    ensures Crash.Holds(c, Prune(c, cfg, q, now), PruneDisk(c, cfg, d, now), text', parts')
  {
    Crash.ContentsAre(c, q, d, text, parts);
    text', parts' := text, parts;
    if |KeptOf(cfg, d, now)| != |Crash.Visible(d)| {
      text', parts' := Crash.ReplaceHolds(c, KeptOf(cfg, d, now));
    }
  }

  lemma {:induction false} WokenHolds(c: RecCodec, l: Life, d: DiskLife, e: Reading, text: string, parts: seq<string>)
    requires Shows(c, l, d, text, parts)
    ensures Crash.Holds(c, Wake(l, e), Woken(d, e), text, parts)
  {
    Crash.IndexHolds(c, l.store, d.disk, text, parts, None);
  }

  lemma {:induction false} NextShows(c: RecCodec, cfg: Config, l: Life, d: DiskLife, e: Reading, text: string,
                                     parts: seq<string>)
    returns (text': string, parts': seq<string>)
    requires Sound(c) && Crash.CrashSafe(c) && Shows(c, l, d, text, parts)
    ensures Shows(c, Next(c, cfg, l, e), NextDisk(c, cfg, d, e), text', parts')
  {
    WokenHolds(c, l, d, e, text, parts);
    text', parts' := PruneHolds(c, cfg, Wake(l, e), Woken(d, e), e.now, text, parts);
    if e.bucket.Some? {
      var q, pruned := Prune(c, cfg, Wake(l, e), e.now), PruneDisk(c, cfg, Woken(d, e), e.now);
      text', parts' := Crash.PutHolds(c, q, pruned, text', parts', RecordOf(e));
    }
  }

  lemma {:induction false} DiedShows(c: RecCodec, cfg: Config, l: Life, d: DiskLife, e: Reading, at: nat, text: string,
                                     parts: seq<string>)
    returns (text': string, parts': seq<string>)
    requires Sound(c) && Crash.CrashSafe(c) && Shows(c, l, d, text, parts)
    ensures Shows(c, Died(c, cfg, l, e, at), DiedDisk(c, cfg, d, e, at), text', parts')
  {
    WokenHolds(c, l, d, e, text, parts);
    text', parts' := PruneHolds(c, cfg, Wake(l, e), Woken(d, e), e.now, text, parts);
    var q, pruned := Prune(c, cfg, Wake(l, e), e.now), PruneDisk(c, cfg, Woken(d, e), e.now);
    if e.bucket.None? {
      Crash.IndexHolds(c, q, pruned, text', parts', None);
    } else {
      Crash.ContentsAre(c, q, pruned, text', parts');
      text', parts' := Crash.TearHolds(c, q, pruned, text', parts', RecordOf(e), at);
    }
  }

  /** The durable run is the run on lists. */
  lemma {:induction false} LiveShows(c: RecCodec, cfg: Config, calls: Calls) returns (text: string, parts: seq<string>)
    requires Sound(c) && Crash.CrashSafe(c)
    ensures Shows(c, Live(c, cfg, calls), LiveDisk(c, cfg, calls), text, parts)
  {
    match calls
    case Begin =>
      text, parts := "", [];
      ParseOne(c, "");
    case Call(before, e) =>
      text, parts := LiveShows(c, cfg, before);
      text, parts := NextShows(c, cfg, Live(c, cfg, before), LiveDisk(c, cfg, before), e, text, parts);
    case Dies(before, e, at) =>
      text, parts := LiveShows(c, cfg, before);
      text, parts := DiedShows(c, cfg, Live(c, cfg, before), LiveDisk(c, cfg, before), e, at, text, parts);
  }

  // ---- how far a count can be off ----

  /** Which records are counted: those of a bucket stamped within [from, to]. */
  datatype Band = Band(bucket: Option<string>, from: int, to: int)

  function Size(rs: seq<Rec>, b: Band): nat {
    CountIn(rs, b.bucket, b.from, b.to)
  }

  function Seen(d: RecDisk, b: Band): nat {
    Size(Crash.Visible(d), b)
  }

  lemma {:induction false} SizeOfOne(r: Rec, b: Band)
    ensures Size([r], b) <= 1
  {
    assert [r][..0] == [] && Size([], b) == 0;
    assert Size([r], b) <= CountIn([], b.bucket, b.from, b.to) + 1;
  }

  lemma {:induction false} SeenIs(d: RecDisk, b: Band)
    ensures Seen(d, b) == Size(d.list, b) + if d.tail.Dangling? then Size([d.tail.r], b) else 0
  {
    if d.tail.Dangling? {
      CountInAfter(d.list, d.tail.r, b.bucket, b.from, b.to);
    } else {
      assert Crash.Visible(d) == d.list;
    }
  }

  /** A put shows at most its own record more, and what it hides was at risk. */
  lemma {:induction false} PutSeen(c: RecCodec, d: RecDisk, r: Rec, b: Band)
    ensures var (d', wrote) := Crash.Put(c, d, r);
      var added := if wrote then Size([r], b) else 0;
      && Seen(d', b) <= Seen(d, b) + added
      && Seen(d, b) + added + Crash.AtRisk(d'.tail) <= Seen(d', b) + Crash.AtRisk(d.tail)
  {
    var d' := Crash.Put(c, d, r).0;
    SeenIs(d, b);
    SeenIs(d', b);
    SizeOfOne(r, b);
    CountInAfter(d.list, r, b.bucket, b.from, b.to);
    if d.tail.Dangling? {
      SizeOfOne(d.tail.r, b);
    }
  }

  lemma {:induction false} IndexSeen(d: RecDisk, index: Option<set<Option<string>>>, b: Band)
    ensures Seen(d.(index := index), b) == Seen(d, b)
  {
    assert Crash.Visible(d.(index := index)) == Crash.Visible(d);
  }

  lemma {:induction false} TearSeen(c: RecCodec, d: RecDisk, r: Rec, at: nat, b: Band)
    ensures var d' := Crash.Tear(c, d, r, at);
      var added := if c.keyOf(r) !in Crash.Known(c, d) then Size([r], b) else 0;
      && Seen(d', b) <= Seen(d, b) + added
      && Seen(d, b) + added + Crash.AtRisk(d'.tail) <= Seen(d', b) + Crash.AtRisk(d.tail) + 2
  {
    if c.keyOf(r) in Crash.Known(c, d) {
      IndexSeen(d, None, b);
    } else if at > |c.encode(r)| {
      PutSeen(c, d, r, b);
      IndexSeen(Crash.Put(c, d, r).0, None, b);
    } else {
      SeenIs(d, b);
      SeenIs(Crash.Tear(c, d, r, at), b);
      SizeOfOne(r, b);
      if d.tail.Dangling? {
        SizeOfOne(d.tail.r, b);
      }
    }
  }

  lemma {:induction false} PruneSees(c: RecCodec, cfg: Config, d: RecDisk, now: Instant)
    ensures Crash.Visible(PruneDisk(c, cfg, d, now)) == KeptOf(cfg, d, now)
    ensures Crash.AtRisk(PruneDisk(c, cfg, d, now).tail) <= Crash.AtRisk(d.tail)
  {
    KeptFacts(Crash.Visible(d), Shift(now, -cfg.window), Shift(now, cfg.window));
    if |KeptOf(cfg, d, now)| != |Crash.Visible(d)| {
      WholeSees(c, KeptOf(cfg, d, now));
    }
  }

  lemma {:induction false} WholeSees(c: RecCodec, rs: seq<Rec>)
    ensures var d := Crash.Disk(rs, Crash.Whole, Some(KeysOf(c, rs)), rs);
      Crash.Visible(d) == rs && Crash.AtRisk(d.tail) == 0
  {
    assert rs + [] == rs;
  }

  /** Pruning takes nothing out of a band inside the window. */
  lemma {:induction false} KeptSame(rs: seq<Rec>, window: int, now: Instant, b: Band)
    requires window > 0 && b.from >= now - window && HistoryBy(rs, now)
    ensures Size(Kept(rs, Shift(now, -window), Shift(now, window)), b) == Size(rs, b)
  {
    if rs != [] {
      var most, last := rs[..|rs| - 1], rs[|rs| - 1];
      assert last in rs && forall r :: r in most ==> r in rs;
      KeptSame(most, window, now, b);
      assert rs == most + [last];
      SizeAfter(most, last, true, b);
      SizeAfter(Kept(most, Shift(now, -window), Shift(now, window)), last,
                Retained(last, Shift(now, -window), Shift(now, window)), b);
      RetainedInBand(last, window, now, b);
    }
  }

  lemma {:induction false} SizeAfter(rs: seq<Rec>, r: Rec, added: bool, b: Band)
    ensures Size(rs + if added then [r] else [], b) == Size(rs, b) + if added then Size([r], b) else 0
  {
    if added {
      CountInAfter(rs, r, b.bucket, b.from, b.to);
    } else {
      assert rs + [] == rs;
    }
  }

  lemma {:induction false} RetainedInBand(r: Rec, window: int, now: Instant, b: Band)
    requires window > 0 && b.from >= now - window && WellShaped(r) && r.at.value <= now
    ensures Retained(r, Shift(now, -window), Shift(now, window)) || Size([r], b) == 0
  {
    CountInAfter([], r, b.bucket, b.from, b.to);
    assert [] + [r] == [r];
  }

  lemma {:induction false} PutMembers(c: RecCodec, d: RecDisk, r: Rec)
    ensures forall x :: x in Crash.Visible(Crash.Put(c, d, r).0) ==> x in Crash.Visible(d) || x == r
  {
  }

  lemma {:induction false} TearMembers(c: RecCodec, d: RecDisk, r: Rec, at: nat)
    ensures forall x :: x in Crash.Visible(Crash.Tear(c, d, r, at)) ==> x in Crash.Visible(d) || x == r
  {
    PutMembers(c, d, r);
  }

  lemma {:induction false} PrunedBy(c: RecCodec, cfg: Config, l: DiskLife, e: Reading, now: Instant)
    requires HistoryBy(Crash.Visible(l.disk), now)
    ensures HistoryBy(Crash.Visible(PruneDisk(c, cfg, Woken(l, e), e.now)), now)
  {
    PruneSees(c, cfg, Woken(l, e), e.now);
    assert Crash.Visible(Woken(l, e)) == Crash.Visible(l.disk);
    KeptFacts(Crash.Visible(l.disk), Shift(e.now, -cfg.window), Shift(e.now, cfg.window));
  }

  lemma {:induction false} AddedBy(before: seq<Rec>, after: seq<Rec>, r: Rec, now: Instant)
    requires HistoryBy(before, now) && WellShaped(r) && r.at.value <= now
    requires forall x :: x in after ==> x in before || x == r
    ensures HistoryBy(after, now)
  {
  }

  /** Nothing in the store was stamped after the largest reading. */
  lemma {:induction false} SeenBy(c: RecCodec, cfg: Config, calls: Calls)
    ensures HistoryBy(Crash.Visible(LiveDisk(c, cfg, calls).disk), Latest(calls))
  {
    if !calls.Begin? {
      var l, e, now := LiveDisk(c, cfg, calls.before), calls.e, Latest(calls);
      SeenBy(c, cfg, calls.before);
      HistoryLater(Crash.Visible(l.disk), Latest(calls.before), now);
      PrunedBy(c, cfg, l, e, now);
      var pruned := PruneDisk(c, cfg, Woken(l, e), e.now);
      if e.bucket.None? {
        assert Crash.Visible(pruned.(index := None)) == Crash.Visible(pruned);
      } else if calls.Call? {
        PutMembers(c, pruned, RecordOf(e));
        AddedBy(Crash.Visible(pruned), Crash.Visible(Crash.Put(c, pruned, RecordOf(e)).0), RecordOf(e), now);
      } else {
        TearMembers(c, pruned, RecordOf(e), calls.at);
        AddedBy(Crash.Visible(pruned), Crash.Visible(Crash.Tear(c, pruned, RecordOf(e), calls.at)), RecordOf(e), now);
      }
    }
  }

  /** The store never shows more of a band than was recorded of it. */
  lemma {:induction false} NeverMore(c: RecCodec, cfg: Config, calls: Calls, b: Band)
    ensures var l := LiveDisk(c, cfg, calls); Seen(l.disk, b) <= Size(l.recorded, b)
  {
    if !calls.Begin? {
      var l, e := LiveDisk(c, cfg, calls.before), calls.e;
      NeverMore(c, cfg, calls.before, b);
      var pruned := PruneDisk(c, cfg, Woken(l, e), e.now);
      PrunedNoMore(c, cfg, l, e, b);
      if e.bucket.None? {
        IndexSeen(pruned, None, b);
      } else if calls.Call? {
        PutSeen(c, pruned, RecordOf(e), b);
        RecordedSize(l.recorded, RecordOf(e), Crash.Put(c, pruned, RecordOf(e)).1, b);
      } else {
        TearSeen(c, pruned, RecordOf(e), calls.at, b);
        RecordedSize(l.recorded, RecordOf(e), c.keyOf(RecordOf(e)) !in Crash.Known(c, pruned), b);
      }
    }
  }

  lemma {:induction false} PrunedNoMore(c: RecCodec, cfg: Config, l: DiskLife, e: Reading, b: Band)
    ensures Seen(PruneDisk(c, cfg, Woken(l, e), e.now), b) <= Seen(l.disk, b)
  {
    PruneSees(c, cfg, Woken(l, e), e.now);
    IndexSeen(l.disk, None, b);
    KeptCountsNoMore(Crash.Visible(Woken(l, e)), Shift(e.now, -cfg.window), Shift(e.now, cfg.window),
                     b.bucket, b.from, b.to);
  }

  lemma {:induction false} PrunedSame(c: RecCodec, cfg: Config, l: DiskLife, e: Reading, b: Band)
    requires Allowed(cfg) && b.from >= e.now - cfg.window && HistoryBy(Crash.Visible(l.disk), e.now)
    ensures Seen(PruneDisk(c, cfg, Woken(l, e), e.now), b) == Seen(l.disk, b)
    ensures Seen(l.disk, b) == Size(KeptOf(cfg, Woken(l, e), e.now), b)
    ensures Crash.AtRisk(PruneDisk(c, cfg, Woken(l, e), e.now).tail) <= Crash.AtRisk(l.disk.tail)
  {
    PruneSees(c, cfg, Woken(l, e), e.now);
    assert Crash.Visible(Woken(l, e)) == Crash.Visible(l.disk);
    KeptSame(Crash.Visible(l.disk), cfg.window, e.now, b);
  }

  /** With a clock that never goes back, the store shows of a band inside the window all that was
      recorded of it, less at most two records for each tear, counting what is at risk. */
  lemma {:induction false} NotMuchLess(c: RecCodec, cfg: Config, calls: Calls, b: Band)
    requires Allowed(cfg) && Monotone(calls) && b.from >= Latest(calls) - cfg.window
    ensures var l := LiveDisk(c, cfg, calls);
      Size(l.recorded, b) + Crash.AtRisk(l.disk.tail) <= Seen(l.disk, b) + 2 * Tears(calls)
  {
    if !calls.Begin? {
      var l, e := LiveDisk(c, cfg, calls.before), calls.e;
      NotMuchLess(c, cfg, calls.before, b);
      SeenBy(c, cfg, calls.before);
      HistoryLater(Crash.Visible(l.disk), Latest(calls.before), e.now);
      PrunedSame(c, cfg, l, e, b);
      var pruned := PruneDisk(c, cfg, Woken(l, e), e.now);
      if e.bucket.None? {
        IndexSeen(pruned, None, b);
      } else if calls.Call? {
        PutSeen(c, pruned, RecordOf(e), b);
        RecordedSize(l.recorded, RecordOf(e), Crash.Put(c, pruned, RecordOf(e)).1, b);
      } else {
        TearSeen(c, pruned, RecordOf(e), calls.at, b);
        RecordedSize(l.recorded, RecordOf(e), c.keyOf(RecordOf(e)) !in Crash.Known(c, pruned), b);
      }
    }
  }

  lemma {:induction false} RecordedSize(recorded: seq<Rec>, r: Rec, added: bool, b: Band)
    ensures Size(if added then recorded + [r] else recorded, b) == Size(recorded, b) + if added then Size([r], b) else 0
  {
    CountInAfter(recorded, r, b.bucket, b.from, b.to);
  }

  lemma {:induction false} CountIs(c: RecCodec, cfg: Config, l: DiskLife, e: Reading)
    requires Allowed(cfg) && e.bucket.Some?
    ensures var b := Band(e.bucket, e.now - cfg.window, e.now);
      var l' := NextDisk(c, cfg, l, e);
      var kept := Size(KeptOf(cfg, Woken(l, e), e.now), b);
      && l'.last.count <= kept + 1
      && l'.last.count + Size(l.recorded, b) == kept + Size(l'.recorded, b)
  {
    var b := Band(e.bucket, e.now - cfg.window, e.now);
    var kept := KeptOf(cfg, Woken(l, e), e.now);
    CountInAfter(kept, RecordOf(e), b.bucket, b.from, b.to);
    CountInAfter(l.recorded, RecordOf(e), b.bucket, b.from, b.to);
    SizeOfOne(RecordOf(e), b);
    CountedIs(kept, e.bucket, e.now, cfg.window);
    CountedIs(kept + [RecordOf(e)], e.bucket, e.now, cfg.window);
  }

  lemma {:induction false} DiskCounts(c: RecCodec, cfg: Config, calls: Calls)
    requires Allowed(cfg) && calls.Call? && calls.e.bucket.Some?
    ensures var l := LiveDisk(c, cfg, calls);
      var recorded := CountIn(l.recorded, calls.e.bucket, calls.e.now - cfg.window, calls.e.now);
      && l.last.count <= recorded
      && (Monotone(calls) ==> recorded <= l.last.count + 2 * Tears(calls))
  {
    CountAfter(c, cfg, calls.before, LiveDisk(c, cfg, calls.before), calls.e,
               Band(calls.e.bucket, calls.e.now - cfg.window, calls.e.now));
  }

  /** The call `e` after `before`, whose store and record are `l`. */
  lemma {:induction false} CountAfter(c: RecCodec, cfg: Config, before: Calls, l: DiskLife, e: Reading, b: Band)
    requires Allowed(cfg) && e.bucket.Some? && b == Band(e.bucket, e.now - cfg.window, e.now)
    requires l == LiveDisk(c, cfg, before)
    ensures var l' := NextDisk(c, cfg, l, e);
      && l'.last.count <= Size(l'.recorded, b)
      && (Monotone(before) && Latest(before) <= e.now ==> Size(l'.recorded, b) <= l'.last.count + 2 * Tears(before))
  {
    CountIs(c, cfg, l, e);
    SeenNoMore(c, cfg, before, e, b);
    if Monotone(before) && Latest(before) <= e.now {
      SeenEnough(c, cfg, before, e, b);
    }
  }

  lemma {:induction false} SeenEnough(c: RecCodec, cfg: Config, before: Calls, e: Reading, b: Band)
    requires Allowed(cfg) && Monotone(before) && Latest(before) <= e.now && b.from >= e.now - cfg.window
    ensures var l := LiveDisk(c, cfg, before);
      Size(l.recorded, b) <= Size(KeptOf(cfg, Woken(l, e), e.now), b) + 2 * Tears(before)
  {
    var l := LiveDisk(c, cfg, before);
    NotMuchLess(c, cfg, before, b);
    SeenBy(c, cfg, before);
    HistoryLater(Crash.Visible(l.disk), Latest(before), e.now);
    PrunedSame(c, cfg, l, e, b);
  }

  lemma {:induction false} SeenNoMore(c: RecCodec, cfg: Config, before: Calls, e: Reading, b: Band)
    ensures var l := LiveDisk(c, cfg, before); Size(KeptOf(cfg, Woken(l, e), e.now), b) <= Size(l.recorded, b)
  {
    var l := LiveDisk(c, cfg, before);
    NeverMore(c, cfg, before, b);
    PrunedNoMore(c, cfg, l, e, b);
    PruneSees(c, cfg, Woken(l, e), e.now);
  }

  /** With appends that die anywhere, any number of times: under any clock, a count never exceeds the
      recorded events of its bucket in the window (those whose append was started included); and with
      a clock that never goes back it falls short of them by at most two for each tear. */
  lemma TornCounts(c: RecCodec, cfg: Config, calls: Calls)
    requires Keyed(c) && Crash.CrashSafe(c) && Allowed(cfg) && calls.Call? && calls.e.bucket.Some?
    ensures var l := Live(c, cfg, calls);
      var recorded := CountIn(l.recorded, calls.e.bucket, calls.e.now - cfg.window, calls.e.now);
      && l.last.count <= recorded
      && (Monotone(calls) ==> recorded <= l.last.count + 2 * Tears(calls))
  {
    var _, _ := LiveShows(c, cfg, calls);
    DiskCounts(c, cfg, calls);
  }
}
