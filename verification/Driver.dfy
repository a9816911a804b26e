/** The event loop: one record per event, and an abort when one failure keeps repeating. */
module Driver {
  import opened Prelude
  import Retry

  // ---- the guard ----

  datatype Guard = Guard(last: Option<string>, count: nat)

  const FRESH := Guard(None, 0)

  function Noted(g: Guard, signature: string): Guard {
    if g.last == Some(signature) then Guard(g.last, g.count + 1) else Guard(Some(signature), 1)
  }

  class CycleGuard {
    const maxConsecutive: nat
    var last: Option<string>
    var count: nat

    function State(): Guard
      reads this
    {
      Guard(last, count)
    }

    constructor (maxConsecutive: nat)
      requires maxConsecutive >= 1
      ensures this.maxConsecutive == maxConsecutive && State() == FRESH
    {
      this.maxConsecutive, last, count := maxConsecutive, None, 0;
    }

    method Record(signature: string) returns (stuck: bool)
      modifies this
      ensures State() == Noted(old(State()), signature) && stuck == (State().count >= maxConsecutive)
    {
      if last == Some(signature) {
        count := count + 1;
      } else {
        last, count := Some(signature), 1;
      }
      return count >= maxConsecutive;
    }

    method Reset()
      modifies this
      ensures State() == FRESH
    {
      last, count := None, 0;
    }
  }

  // ---- one event ----

  datatype Status = Processed(result: string) | Buffered | Failed(kind: string)
  datatype EventRecord = EventRecord(eventId: string, status: Status)

  /** The handler may answer differently after every record and on every attempt. */
  datatype Setup = Setup(
    schedule: Retry.Schedule,
    handler: (seq<EventRecord>, string, nat) -> Try<string>,
    retryable: string -> bool,
    offline: string -> bool,
    maxEvents: Option<int>)

  function Process(s: Setup, records: seq<EventRecord>, event: string): EventRecord {
    var w := Retry.Work((k: nat) => s.handler(records, event, k), s.retryable);
    EventRecord(event,
      match Retry.RetryFrom(s.schedule, w, 1).result
      case Return(v) => Processed(v)
      case Raise(kind) => if s.offline(kind) then Buffered else Failed(kind))
  }

  /** An event's record is that of the last attempt on it: the handler is called again after each
      retryable exception, as long as the budget lasts, and not after anything else. */
  lemma ProcessExact(s: Setup, records: seq<EventRecord>, event: string)
    requires s.schedule.maxAttempts >= 1
    ensures exists n :: RecordedAfter(s, records, event, n)
  {
    var w := Retry.Work((k: nat) => s.handler(records, event, k), s.retryable);
    Retry.RetryExact(s.schedule, w, 1);
    var n := Retry.RetryFrom(s.schedule, w, 1).calls;
    forall k | 1 <= k < n ensures Again(s, s.handler(records, event, k)) {
      assert Retry.Retryable(w, w.attempt(k));
    }
    assert RecordedAfter(s, records, event, n);
  }

  predicate Again(s: Setup, o: Try<string>) {
    o.Raise? && s.retryable(o.fault)
  }

  ghost predicate RecordedAfter(s: Setup, records: seq<EventRecord>, event: string, n: nat) {
    var last := s.handler(records, event, n);
    && 1 <= n <= s.schedule.maxAttempts
    && (forall k :: 1 <= k < n ==> Again(s, s.handler(records, event, k)))
    && (n == s.schedule.maxAttempts || !Again(s, last))
    && Process(s, records, event).eventId == event
    && match Process(s, records, event).status
       case Processed(result) => last == Return(result)
       case Buffered => last.Raise? && s.offline(last.fault)
       case Failed(kind) => last == Raise(kind) && !s.offline(kind)
  }

  // ---- the loop ----

  /** `pulled` counts the events taken from the stream. */
  datatype DriveReport = DriveReport(records: seq<EventRecord>, aborted: bool, pulled: nat, guard: Guard)

  /** What the guard remembers after one more record. */
  function GuardNext(g: Guard, r: EventRecord): Guard {
    if r.status.Failed? then Noted(g, r.status.kind) else FRESH
  }

  function Drive(s: Setup, stuckAt: nat, guard: Guard, stream: seq<string>, records: seq<EventRecord>): DriveReport
    decreases |stream|
  {
    if stream == [] then DriveReport(records, false, |records|, guard)
    else if s.maxEvents.Some? && |records| >= s.maxEvents.value then
      DriveReport(records, false, |records| + 1, guard)
    else
      var r := Process(s, records, stream[0]);
      var g := GuardNext(guard, r);
      if r.status.Failed? && g.count >= stuckAt then DriveReport(records + [r], true, |records| + 1, g)
      else Drive(s, stuckAt, g, stream[1..], records + [r])
  }

  method ProcessOne(s: Setup, records: seq<EventRecord>, event: string) returns (r: EventRecord)
    ensures r == Process(s, records, event)
  {
    var retried := Retry.RetryLoop(s.schedule, Retry.Work((k: nat) => s.handler(records, event, k), s.retryable));
    match retried.result {
      case Return(v) => r := EventRecord(event, Processed(v));
      case Raise(kind) => r := EventRecord(event, if s.offline(kind) then Buffered else Failed(kind));
    }
  }

  /** Tells the guard of one more record; `stuck` when the run must abort. */
  method NoteRecord(guard: CycleGuard, r: EventRecord) returns (stuck: bool)
    modifies guard
    ensures guard.State() == GuardNext(old(guard.State()), r)
    ensures stuck == (r.status.Failed? && guard.State().count >= guard.maxConsecutive)
  {
    stuck := false;
    if r.status.Failed? {
      stuck := guard.Record(r.status.kind);
    } else {
      guard.Reset();
    }
  }

  method RunDriver(s: Setup, guard: CycleGuard, stream: seq<string>)
    returns (records: seq<EventRecord>, aborted: bool, pulled: nat)
    modifies guard
    ensures DriveReport(records, aborted, pulled, guard.State())
         == Drive(s, guard.maxConsecutive, old(guard.State()), stream, [])
  {
    records, aborted, pulled := [], false, 0;
    assert stream[0..] == stream;
    for i := 0 to |stream|
      invariant |records| == i == pulled && !aborted
      invariant Drive(s, guard.maxConsecutive, old(guard.State()), stream, [])
             == Drive(s, guard.maxConsecutive, guard.State(), stream[i..], records)
    {
      assert stream[i..][1..] == stream[i + 1..];
      pulled := pulled + 1;
      if s.maxEvents.Some? && |records| >= s.maxEvents.value {
        break;
      }
      var r := ProcessOne(s, records, stream[i]);
      records := records + [r];
      aborted := NoteRecord(guard, r);
      if aborted {
        break;
      }
    }
  }

  // ---- when it aborts ----

  /** `m` adjacent failures of one kind, from position `i` on. */
  predicate Stretch(records: seq<EventRecord>, i: nat, m: nat)
    requires i + m <= |records|
  {
    forall j | i <= j < i + m :: records[j].status.Failed? && records[j].status == records[i].status
  }

  /** The length of the final stretch of failures of one kind. */
  function Streak(records: seq<EventRecord>): nat {
    if records == [] || !records[|records| - 1].status.Failed? then 0
    else
      var most := records[..|records| - 1];
      if most != [] && most[|most| - 1].status == records[|records| - 1].status then Streak(most) + 1 else 1
  }

  lemma {:induction false} StreakIsStretch(records: seq<EventRecord>, m: nat)
    requires m >= 1
    ensures Streak(records) <= |records|
    ensures Streak(records) >= m <==> m <= |records| && Stretch(records, |records| - m, m)
  {
    if records != [] && records[|records| - 1].status.Failed? {
      var n := |records| - 1;
      StreakIsStretch(records[..n], if m == 1 then 1 else m - 1);
      if 1 < m <= |records| {
        StretchGrows(records, m);
      }
    }
  }

  /** A final stretch is one failure more than the final stretch before it. */
  lemma StretchGrows(records: seq<EventRecord>, m: nat)
    requires 1 < m <= |records|
    ensures var n := |records| - 1;
      Stretch(records, n + 1 - m, m) <==>
        && records[n].status.Failed? && records[n - 1].status == records[n].status
        && Stretch(records[..n], n + 1 - m, m - 1)
  {
    var n := |records| - 1;
    assert Stretch(records, n + 1 - m, m) ==> records[n - 1].status == records[n].status;
    assert Stretch(records[..n], n + 1 - m, m - 1) ==> records[..n][n - 1].status == records[n + 1 - m].status;
  }

  /** What the guard remembers after `records`. */
  predicate Remembers(g: Guard, records: seq<EventRecord>) {
    && g.count == Streak(records)
    && g.last == if g.count == 0 then None else Some(records[|records| - 1].status.kind)
  }

  function Limit(s: Setup, stream: seq<string>): nat {
    if s.maxEvents.None? || s.maxEvents.value >= |stream| then |stream|
    else if s.maxEvents.value <= 0 then 0 else s.maxEvents.value
  }

  ghost predicate Quiet(records: seq<EventRecord>, m: nat) {
    forall n :: 0 <= n <= |records| ==> Streak(records[..n]) < m
  }

  /** Each record is what processing its own event gave, after the records before it. */
  ghost predicate Matches(s: Setup, records: seq<EventRecord>, stream: seq<string>) {
    && |records| <= |stream|
    && forall i :: 0 <= i < |records| ==> records[i] == Process(s, records[..i], stream[i])
  }

  lemma MatchesNext(s: Setup, records: seq<EventRecord>, stream: seq<string>)
    requires Matches(s, records, stream) && |records| < |stream|
    ensures Matches(s, records + [Process(s, records, stream[|records|])], stream)
  {
    var more := records + [Process(s, records, stream[|records|])];
    forall i | 0 <= i < |more| ensures more[i] == Process(s, more[..i], stream[i]) {
      assert more[..i] == records[..i];
      if i == |records| {
        assert records[..i] == records;
      }
    }
  }

  /** How a run that started with a fresh guard can end. */
  ghost predicate Ended(s: Setup, m: nat, stream: seq<string>, r: DriveReport) {
    var k := |r.records|;
    && k <= Limit(s, stream)
    && Matches(s, r.records, stream)
    && (if r.aborted then k > 0 && Quiet(r.records[..k - 1], m) && Streak(r.records) >= m
        else Quiet(r.records, m) && k == Limit(s, stream))
    && r.pulled == (if r.aborted || k == |stream| then k else k + 1)
  }

  /** The loop before its next event: at its end, or one event further, or aborting. */
  lemma DriveNext(s: Setup, m: nat, g: Guard, stream: seq<string>, done: nat, records: seq<EventRecord>)
    requires done == |records| && done <= Limit(s, stream)
    ensures var r := Drive(s, m, g, stream[done..], records);
      if done == Limit(s, stream) then r == DriveReport(records, false, if done == |stream| then done else done + 1, g)
      else
        var e := Process(s, records, stream[done]);
        var g' := GuardNext(g, e);
        r == if e.status.Failed? && g'.count >= m then DriveReport(records + [e], true, done + 1, g')
             else Drive(s, m, g', stream[done + 1..], records + [e])
  {
    if done < |stream| {
      assert stream[done..][1..] == stream[done + 1..];
    }
  }

  lemma EndedHere(s: Setup, m: nat, stream: seq<string>, r: DriveReport)
    requires |r.records| == Limit(s, stream) && !r.aborted && Quiet(r.records, m)
    requires Matches(s, r.records, stream)
    requires r.pulled == if |r.records| == |stream| then |r.records| else |r.records| + 1
    ensures Ended(s, m, stream, r)
  {
  }

  lemma EndedStuck(s: Setup, m: nat, stream: seq<string>, records: seq<EventRecord>, e: EventRecord, r: DriveReport)
    requires |records| < Limit(s, stream) && Quiet(records, m) && Streak(records + [e]) >= m
    requires Matches(s, records + [e], stream)
    requires r.records == records + [e] && r.aborted && r.pulled == |records| + 1
    ensures Ended(s, m, stream, r)
  {
    assert r.records[..|records|] == records;
  }

  /** What holds before each event of a run that goes on. */
  ghost predicate Running(s: Setup, m: nat, g: Guard, stream: seq<string>, records: seq<EventRecord>) {
    |records| <= Limit(s, stream) && Remembers(g, records) && Quiet(records, m) && Matches(s, records, stream)
  }

  lemma RunningNext(s: Setup, m: nat, g: Guard, stream: seq<string>, records: seq<EventRecord>, e: EventRecord)
    requires Running(s, m, g, stream, records) && |records| < Limit(s, stream)
    requires e == Process(s, records, stream[|records|])
    ensures GuardNext(g, e).count < m ==> Running(s, m, GuardNext(g, e), stream, records + [e])
    ensures GuardNext(g, e).count >= m ==>
      Ended(s, m, stream, DriveReport(records + [e], true, |records| + 1, GuardNext(g, e)))
  {
    RemembersNext(g, records, e, m);
    MatchesNext(s, records, stream);
    if GuardNext(g, e).count >= m {
      EndedStuck(s, m, stream, records, e, DriveReport(records + [e], true, |records| + 1, GuardNext(g, e)));
    }
  }

  /** A run that goes on has ended, or is one event further. */
  lemma DriveOneOn(s: Setup, m: nat, g: Guard, stream: seq<string>, records: seq<EventRecord>, r: DriveReport)
    returns (g': Guard, e: EventRecord)
    requires m >= 1 && Running(s, m, g, stream, records) && r == Drive(s, m, g, stream[|records|..], records)
    ensures Ended(s, m, stream, r)
         || (&& |records| < |stream|
             && Running(s, m, g', stream, records + [e])
             && r == Drive(s, m, g', stream[|records| + 1..], records + [e]))
  {
    DriveNext(s, m, g, stream, |records|, records);
    g', e := g, EventRecord("", Buffered);
    if |records| == Limit(s, stream) {
      EndedHere(s, m, stream, r);
    } else {
      e := Process(s, records, stream[|records|]);
      g' := GuardNext(g, e);
      RunningNext(s, m, g, stream, records, e);
    }
  }

  lemma {:induction false} DriveFrom(s: Setup, m: nat, g: Guard, stream: seq<string>, records: seq<EventRecord>,
                                     r: DriveReport)
    requires m >= 1 && Running(s, m, g, stream, records) && r == Drive(s, m, g, stream[|records|..], records)
    ensures Ended(s, m, stream, r)
    decreases |stream| - |records|
  {
    var g', e := DriveOneOn(s, m, g, stream, records, r);
    if !Ended(s, m, stream, r) {
      DriveFrom(s, m, g', stream, records + [e], r);
    }
  }

  lemma RemembersNext(g: Guard, records: seq<EventRecord>, e: EventRecord, m: nat)
    requires Remembers(g, records) && Quiet(records, m)
    ensures var more := records + [e];
      && Remembers(GuardNext(g, e), more) && more[..|records|] == records
      && (GuardNext(g, e).count < m ==> Quiet(more, m))
  {
    var more := records + [e];
    assert more[..|records|] == records && more[..|more|] == more;
    assert forall n :: 0 <= n <= |records| ==> more[..n] == records[..n];
  }

  /** With a fresh guard: the records match a prefix of the stream one to one; the run aborts exactly
      when they contain `m` adjacent failures of one kind, and that stretch is then the end of
      them; a run that does not abort ended with the stream or at `maxEvents`, in which case one
      more event was pulled and dropped. */
  lemma AbortIsExact(s: Setup, m: nat, stream: seq<string>)
    requires m >= 1
    ensures var r := Drive(s, m, FRESH, stream, []);
      var k := |r.records|;
      && k <= Limit(s, stream)
      && Matches(s, r.records, stream)
      && (r.aborted <==> exists i :: 0 <= i <= k - m && Stretch(r.records, i, m))
      && (forall i :: 0 <= i <= k - m && Stretch(r.records, i, m) ==> i + m == k)
      && (!r.aborted ==> k == Limit(s, stream))
      && r.pulled == (if r.aborted || k == |stream| then k else k + 1)
  {
    assert stream[0..] == stream;
    var r := Drive(s, m, FRESH, stream, []);
    DriveFrom(s, m, FRESH, stream, [], r);
    var k := |r.records|;
    if r.aborted {
      StretchAtEnd(r.records, m);
    } else {
      QuietHasNoStretch(r.records, m);
    }
  }

  lemma StretchAtEnd(records: seq<EventRecord>, m: nat)
    requires m >= 1 && records != [] && Quiet(records[..|records| - 1], m) && Streak(records) >= m
    ensures m <= |records| && Stretch(records, |records| - m, m)
    ensures forall i :: 0 <= i <= |records| - m && Stretch(records, i, m) ==> i + m == |records|
  {
    var front := records[..|records| - 1];
    QuietHasNoStretch(front, m);
    assert forall i :: 0 <= i <= |front| - m ==> Stretch(front, i, m) == Stretch(records, i, m);
    StreakIsStretch(records, m);
  }

  function GuardAfter(records: seq<EventRecord>): Guard {
    if records == [] then FRESH
    else GuardNext(GuardAfter(records[..|records| - 1]), records[|records| - 1])
  }

  /** What a guard that started fresh has counted after `records`: it is stuck at `m` exactly when the
      last `m` of them are failures of one kind. */
  lemma {:induction false} GuardCountsStretch(records: seq<EventRecord>, m: nat)
    requires m >= 1
    ensures Remembers(GuardAfter(records), records)
    ensures GuardAfter(records).count >= m <==> m <= |records| && Stretch(records, |records| - m, m)
  {
    StreakIsStretch(records, m);
    if records != [] {
      var most := records[..|records| - 1];
      GuardCountsStretch(most, m);
      StreakBounds(most);
      RemembersNext(GuardAfter(most), most, records[|records| - 1], |most| + 2);
      assert most + [records[|records| - 1]] == records;
    }
  }

  lemma {:induction false} StreakBounds(records: seq<EventRecord>)
    ensures Quiet(records, |records| + 2)
  {
    forall n | 0 <= n <= |records| ensures Streak(records[..n]) < |records| + 2 {
      StreakIsStretch(records[..n], 1);
    }
  }

  lemma QuietHasNoStretch(records: seq<EventRecord>, m: nat)
    requires m >= 1 && Quiet(records, m)
    ensures forall i :: 0 <= i <= |records| - m ==> !Stretch(records, i, m)
  {
    forall i | 0 <= i <= |records| - m ensures !Stretch(records, i, m) {
      StreakIsStretch(records[..i + m], m);
      assert Stretch(records[..i + m], i, m) == Stretch(records, i, m);
    }
  }
}
