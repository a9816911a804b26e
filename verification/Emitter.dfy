/** The offline-first event emitter over a durable queue. */
module Emitter {
  import opened Prelude
  import opened Queue

  /** How one send ended: delivered, unreachable (any of the emitter's offline exceptions), or
      refused (any other exception). */
  datatype Verdict = Delivered | Offline | Refused

  /** What happened to a record: a send, or a drop because the stored record does not parse. */
  datatype Attempt<R> = Sent(record: R, verdict: Verdict) | Dropped(record: R)

  /** The transport may answer differently after every attempt. */
  datatype Link<!R> = Link(send: (seq<Attempt<R>>, R) -> Verdict, parses: R -> bool)

  datatype Node<R, K> = Node(queue: Store<K>, history: seq<Attempt<R>>)

  datatype EmitReply = SentNow | Buffered | Propagated
  datatype Report = Report(applied: nat, requeued: nat, rejected: nat)

  function EmitOne<R, K>(c: Codec<R, K>, link: Link<R>, n: Node<R, K>, r: R): (Node<R, K>, EmitReply) {
    var verdict := link.send(n.history, r);
    var history := n.history + [Sent(r, verdict)];
    match verdict
    case Delivered => (Node(n.queue, history), SentNow)
    case Offline => (Node(Append(c, n.queue, r).0, history), Buffered)
    case Refused => (Node(n.queue, history), Propagated)
  }

  datatype Pass<R> = Pass(history: seq<Attempt<R>>, survivors: seq<R>, applied: nat, rejected: nat)

  /** A stored record that does not parse is dropped without a send. */
  function TryOne<R>(link: Link<R>, r: R, history: seq<Attempt<R>>): Attempt<R> {
    if link.parses(r) then Sent(r, link.send(history, r)) else Dropped(r)
  }

  predicate Final<R>(a: Attempt<R>) {
    a.Dropped? || !a.verdict.Offline?
  }

  /** The sends of one flush over `records`: it stops at the first offline send. */
  function SendAll<R>(link: Link<R>, records: seq<R>, history: seq<Attempt<R>>): Pass<R> {
    if records == [] then Pass(history, [], 0, 0)
    else
      var a := TryOne(link, records[0], history);
      if !Final(a) then Pass(history + [a], records, 0, 0)
      else
        var p := SendAll(link, records[1..], history + [a]);
        if a.Sent? && a.verdict.Delivered? then p.(applied := p.applied + 1)
        else p.(rejected := p.rejected + 1)
  }

  function FlushOnce<R, K>(c: Codec<R, K>, link: Link<R>, n: Node<R, K>): (Node<R, K>, Report) {
    var p := SendAll(link, Contents(c, n.queue), n.history);
    (Node(Rewritten(c, p.survivors), p.history), Report(p.applied, |p.survivors|, p.rejected))
  }

  /** A flush that dies after handling at most `k` records, before the queue is rewritten. */
  function CutFlush<R, K>(c: Codec<R, K>, link: Link<R>, n: Node<R, K>, k: nat): Node<R, K> {
    var pending := Contents(c, n.queue);
    var p := SendAll(link, if k <= |pending| then pending[..k] else pending, n.history);
    Node(n.queue, p.history)
  }

  // ---- as the class it is ----

  class EventEmitter<R(==), K(==)> {
    const queue: DurableQueue<R, K>
    const link: Link<R>
    var history: seq<Attempt<R>>

    constructor (queue: DurableQueue<R, K>, link: Link<R>)
      ensures this.queue == queue && this.link == link && history == []
    {
      this.queue, this.link, history := queue, link, [];
    }

    function State(): Node<R, K>
      reads this, queue
    {
      Node(queue.State(), history)
    }

    method Emit(record: R) returns (reply: EmitReply)
      modifies this, queue
      ensures (State(), reply) == EmitOne(queue.codec, link, old(State()), record)
    {
      var verdict := link.send(history, record);
      history := history + [Sent(record, verdict)];
      if verdict.Offline? {
        var _ := queue.Enqueue(record);
        return Buffered;
      }
      return if verdict.Delivered? then SentNow else Propagated;
    }

    method Flush() returns (report: Report)
      modifies this, queue
      ensures (State(), report) == FlushOnce(queue.codec, link, old(State()))
    {
      var records := queue.ReadLines();
      var survivors, applied, rejected := Drain(records);
      queue.Replace(survivors);
      return Report(applied, |survivors|, rejected);
    }

    /** A flush that dies after handling at most `k` records: the queue is never rewritten. */
    method FlushDies(k: nat)
      modifies `history
      ensures State() == CutFlush(queue.codec, link, old(State()), k)
    {
      var records := queue.ReadLines();
      var _, _, _ := Drain(if k <= |records| then records[..k] else records);
    }

    method Drain(records: seq<R>) returns (survivors: seq<R>, applied: nat, rejected: nat)
      modifies `history
      ensures Pass(history, survivors, applied, rejected) == SendAll(link, records, old(history))
    {
      applied, rejected := 0, 0;
      assert records[0..] == records;
      for i := 0 to |records|
        invariant var p := SendAll(link, records[i..], history);
          SendAll(link, records, old(history)) == p.(applied := applied + p.applied, rejected := rejected + p.rejected)
      {
        assert records[i..][1..] == records[i + 1..];
        if !link.parses(records[i]) {
          history := history + [Dropped(records[i])];
          rejected := rejected + 1;
          continue;
        }
        var verdict := link.send(history, records[i]);
        history := history + [Sent(records[i], verdict)];
        match verdict {
          case Offline => return records[i..], applied, rejected;
          case Refused => rejected := rejected + 1;
          case Delivered => applied := applied + 1;
        }
      }
      survivors := [];
    }
  }

  /** `SentNow` means delivered; `Buffered` means that the event is now in the queue, once; a refused
      event is not buffered. */
  lemma EmitExact<R(!new), K>(c: Codec<R, K>, link: Link<R>, n: Node<R, K>, r: R)
    requires Sound(c) && Inv(c, n.queue)
    ensures var (n', reply) := EmitOne(c, link, n, r);
      var pending := Contents(c, n.queue);
      && |n'.history| == |n.history| + 1 && n'.history[..|n.history|] == n.history
      && n'.history[|n.history|] == Sent(r, link.send(n.history, r))
      && (reply.SentNow? <==> n'.history[|n.history|] == Sent(r, Delivered))
      && (reply.Buffered? <==> n'.history[|n.history|] == Sent(r, Offline))
      && Contents(c, n'.queue) ==
           pending + (if reply.Buffered? && c.keyOf(r) !in KeysOf(c, pending) then [r] else [])
      && (reply.Buffered? ==> c.keyOf(r) in KeysOf(c, Contents(c, n'.queue)))
  {
    AppendAddsRecord(c, n.queue, r);
    KeysOfSum(c, Contents(c, n.queue), [r]);
    KeysOfOne(c, r);
    assert Contents(c, n.queue) + [] == Contents(c, n.queue);
  }

  // ---- one flush ----

  lemma {:induction false} SurvivorsAreTail<R>(link: Link<R>, records: seq<R>, history: seq<Attempt<R>>)
    ensures var survivors := SendAll(link, records, history).survivors;
      |survivors| <= |records| && survivors == records[|records| - |survivors|..]
    decreases |records|
  {
    if records != [] {
      var a := TryOne(link, records[0], history);
      if Final(a) {
        SurvivorsAreTail(link, records[1..], history + [a]);
        var kept := |SendAll(link, records, history).survivors|;
        assert records[1..][|records| - 1 - kept..] == records[|records| - kept..];
      }
    }
  }

  /** From position `from` on, each record that parses was sent, and the verdict is what the link said at
      that point; each that does not was dropped without a send. */
  ghost predicate AsTheLinkSays<R>(link: Link<R>, history: seq<Attempt<R>>, from: nat) {
    forall j :: from <= j < |history| ==>
      var r := history[j].record;
      history[j] == if link.parses(r) then Sent(r, link.send(history[..j], r)) else Dropped(r)
  }

  lemma {:induction false} FlushAsTheLinkSays<R>(link: Link<R>, records: seq<R>, history: seq<Attempt<R>>)
    ensures var after := SendAll(link, records, history).history;
      && |history| <= |after| && after[..|history|] == history
      && AsTheLinkSays(link, after, |history|)
    decreases |records|
  {
    if records != [] {
      var a := TryOne(link, records[0], history);
      var more := history + [a];
      assert more[..|history|] == history && AsTheLinkSays(link, more, |history|);
      if Final(a) {
        FlushAsTheLinkSays(link, records[1..], more);
        LinkSaysOn(link, history, more, SendAll(link, records, history).history);
      }
    }
  }

  lemma LinkSaysOn<R>(link: Link<R>, start: seq<Attempt<R>>, more: seq<Attempt<R>>, after: seq<Attempt<R>>)
    requires |start| <= |more| <= |after| && after[..|more|] == more && more[..|start|] == start
    requires AsTheLinkSays(link, more, |start|) && AsTheLinkSays(link, after, |more|)
    ensures after[..|start|] == start && AsTheLinkSays(link, after, |start|)
  {
    assert after[..|start|] == after[..|more|][..|start|];
    forall j | |start| <= j < |more|
      ensures var r := after[j].record;
        after[j] == if link.parses(r) then Sent(r, link.send(after[..j], r)) else Dropped(r)
    {
      assert after[j] == after[..|more|][j] && after[..j] == more[..j];
    }
  }

  /** What one pass does: a prefix of `done` records is handled, the record after it (if any) was found
      offline, and the rest is kept as it was; the counts add up. */
  ghost predicate Partitioned<R>(p: Pass<R>, records: seq<R>, history: seq<Attempt<R>>) {
    var done := |records| - |p.survivors|;
    && |p.survivors| <= |records| && p.survivors == records[done..]
    && p.applied + p.rejected == done
    && Handled(p.history, history, records, done)
    && |p.history| == |history| + done + (if p.survivors == [] then 0 else 1)
    && (p.survivors != [] ==> p.history[|history| + done] == Sent(records[done], Offline))
  }

  /** A flush handles the queue from the front, in order: a prefix gets one final attempt each and
      leaves the queue, the record after it (if any) was found offline, and the rest is kept as it
      was. Every record is accounted for in the report. Nothing that parses is dropped unsent, and every
      verdict is the link's. */
  lemma {:induction false} FlushPartitions<R>(link: Link<R>, records: seq<R>, history: seq<Attempt<R>>)
    ensures Partitioned(SendAll(link, records, history), records, history)
    ensures AsTheLinkSays(link, SendAll(link, records, history).history, |history|)
    decreases |records|
  {
    FlushAsTheLinkSays(link, records, history);
    if records != [] {
      var a := TryOne(link, records[0], history);
      if Final(a) {
        FlushPartitions(link, records[1..], history + [a]);
        var rest := SendAll(link, records[1..], history + [a]);
        PartitionedFirst(rest, SendAll(link, records, history), a, records, history);
      }
    }
  }

  lemma PartitionedFirst<R>(rest: Pass<R>, p: Pass<R>, a: Attempt<R>, records: seq<R>, history: seq<Attempt<R>>)
    requires records != [] && Final(a) && a.record == records[0]
    requires Partitioned(rest, records[1..], history + [a])
    requires p.history == rest.history && p.survivors == rest.survivors
    requires p.applied + p.rejected == rest.applied + rest.rejected + 1
    ensures Partitioned(p, records, history)
  {
    var done := |records| - |p.survivors|;
    assert records[1..][done - 1..] == records[done..];
    assert p.survivors != [] ==> records[1..][done - 1] == records[done];
    HandledFirst(p.history, history, a, records, done);
  }

  /** `after` goes on from `before` with one final attempt for each of the first `done` records, in
      order. */
  ghost predicate Handled<R>(after: seq<Attempt<R>>, before: seq<Attempt<R>>, records: seq<R>, done: nat) {
    && done <= |records| && |before| + done <= |after| && after[..|before|] == before
    && forall j :: |before| <= j < |before| + done ==> Final(after[j]) && after[j].record == records[j - |before|]
  }

  lemma HandledFirst<R>(after: seq<Attempt<R>>, before: seq<Attempt<R>>, a: Attempt<R>, records: seq<R>, done: nat)
    requires records != [] && Final(a) && a.record == records[0] && done > 0
    requires Handled(after, before + [a], records[1..], done - 1)
    ensures Handled(after, before, records, done)
  {
    assert after[..|before|] == after[..|before| + 1][..|before|] == before;
    assert after[|before|] == after[..|before| + 1][|before|] == a;
    forall j | |before| < j < |before| + done ensures Final(after[j]) && after[j].record == records[j - |before|] {
      assert records[1..][j - |before| - 1] == records[j - |before|];
    }
  }

  function Deliveries<R>(history: seq<Attempt<R>>): nat {
    if history == [] then 0
    else
      var last := history[|history| - 1];
      Deliveries(history[..|history| - 1]) + if last.Sent? && last.verdict.Delivered? then 1 else 0
  }

  /** What a flush reports as applied is what it delivered; the rest of what left the queue was
      refused or dropped. */
  lemma {:induction false} AppliedIsDelivered<R>(link: Link<R>, records: seq<R>, history: seq<Attempt<R>>)
    ensures var p := SendAll(link, records, history);
      Deliveries(p.history) == Deliveries(history) + p.applied
    decreases |records|
  {
    if records != [] {
      var a := TryOne(link, records[0], history);
      assert (history + [a])[..|history|] == history;
      if Final(a) {
        AppliedIsDelivered(link, records[1..], history + [a]);
      }
    }
  }

  /** What a flush reports and leaves: the deliveries it made, the records it keeps, which are the last of
      those that were pending, and as rejected all the others. If it keeps any, it found the first of them
      offline. A flush that is cut short leaves the queue alone. */
  lemma FlushExact<R(!new), K>(c: Codec<R, K>, link: Link<R>, n: Node<R, K>)
    requires Sound(c)
    ensures var (n', report) := FlushOnce(c, link, n);
      && Reported(n.history, n'.history, Contents(c, n.queue), Contents(c, n'.queue), report)
      && AsTheLinkSays(link, n'.history, |n.history|)
  {
    var before := Contents(c, n.queue);
    var p := SendAll(link, before, n.history);
    FlushPartitions(link, before, n.history);
    AppliedIsDelivered(link, before, n.history);
    RewriteHolds(c, p.survivors);
    PassReported(p, before, n.history);
  }

  ghost predicate Reported<R>(history: seq<Attempt<R>>, history': seq<Attempt<R>>, before: seq<R>, after: seq<R>,
                              report: Report) {
    && Deliveries(history') == Deliveries(history) + report.applied
    && report.requeued == |after| <= |before| && after == before[|before| - |after|..]
    && report.applied + report.rejected == |before| - |after|
    && (after != [] ==> history' != [] && history'[|history'| - 1] == Sent(after[0], Offline))
  }

  lemma PassReported<R>(p: Pass<R>, before: seq<R>, history: seq<Attempt<R>>)
    requires Partitioned(p, before, history) && Deliveries(p.history) == Deliveries(history) + p.applied
    ensures Reported(history, p.history, before, p.survivors, Report(p.applied, |p.survivors|, p.rejected))
  {
  }

  lemma CutExact<R, K>(c: Codec<R, K>, link: Link<R>, n: Node<R, K>, k: nat)
    ensures CutFlush(c, link, n, k).queue == n.queue
    ensures AsTheLinkSays(link, CutFlush(c, link, n, k).history, |n.history|)
  {
    var before := Contents(c, n.queue);
    FlushAsTheLinkSays(link, if k <= |before| then before[..k] else before, n.history);
  }

  // ---- whole runs ----

  datatype Op<R> = Emit(r: R) | Flush | Cut(k: nat) | Restart

  function Step<R, K>(c: Codec<R, K>, link: Link<R>, n: Node<R, K>, op: Op<R>): Node<R, K> {
    match op
    case Emit(r) => EmitOne(c, link, n, r).0
    case Flush => FlushOnce(c, link, n).0
    case Cut(k) => CutFlush(c, link, n, k)
    case Restart => n.(queue := Restarted(n.queue))
  }

  function Run<R, K>(c: Codec<R, K>, link: Link<R>, n: Node<R, K>, ops: seq<Op<R>>): Node<R, K> {
    if ops == [] then n
    else Step(c, link, Run(c, link, n, ops[..|ops| - 1]), ops[|ops| - 1])
  }

  function Emitted<R>(ops: seq<Op<R>>): seq<R> {
    if ops == [] then []
    else
      var last := ops[|ops| - 1];
      Emitted(ops[..|ops| - 1]) + if last.Emit? then [last.r] else []
  }

  function Cuts<R>(ops: seq<Op<R>>): nat {
    if ops == [] then 0
    else Cuts(ops[..|ops| - 1]) + if ops[|ops| - 1].Cut? then 1 else 0
  }

  function Occurrences<R, K(==)>(c: Codec<R, K>, rs: seq<R>, key: K): nat {
    if rs == [] then 0
    else Occurrences(c, rs[..|rs| - 1], key) + if c.keyOf(rs[|rs| - 1]) == key then 1 else 0
  }

  /** How many attempts on the event `key` were not offline: deliveries, refusals and drops. */
  function Attempts<R, K(==)>(c: Codec<R, K>, history: seq<Attempt<R>>, key: K): nat {
    if history == [] then 0
    else
      var last := history[|history| - 1];
      Attempts(c, history[..|history| - 1], key) + if Final(last) && c.keyOf(last.record) == key then 1 else 0
  }

  lemma {:induction false} OccurrencesSum<R, K>(c: Codec<R, K>, a: seq<R>, b: seq<R>, key: K)
    ensures Occurrences(c, a + b, key) == Occurrences(c, a, key) + Occurrences(c, b, key)
    decreases |b|
  {
    if b == [] {
      assert a + b == a;
    } else {
      var ab := a + b;
      assert ab[..|ab| - 1] == a + b[..|b| - 1];
      OccurrencesSum(c, a, b[..|b| - 1], key);
    }
  }

  lemma {:induction false} OccursIffKey<R, K>(c: Codec<R, K>, rs: seq<R>, key: K)
    ensures key in KeysOf(c, rs) <==> Occurrences(c, rs, key) > 0
    decreases |rs|
  {
    if rs != [] {
      var most := rs[..|rs| - 1];
      OccursIffKey(c, most, key);
      KeysOfSum(c, most, [rs[|rs| - 1]]);
      KeysOfOne(c, rs[|rs| - 1]);
      assert rs == most + [rs[|rs| - 1]];
    }
  }

  /** A flush adds one final attempt for each record it takes off the queue, and no other. */
  lemma {:induction false} FlushAttempts<R, K>(c: Codec<R, K>, link: Link<R>, records: seq<R>,
                                               history: seq<Attempt<R>>, key: K)
    ensures var p := SendAll(link, records, history);
      && |p.survivors| <= |records| && p.survivors == records[|records| - |p.survivors|..]
      && Attempts(c, p.history, key) ==
           Attempts(c, history, key) + Occurrences(c, records[..|records| - |p.survivors|], key)
    decreases |records|
  {
    SurvivorsAreTail(link, records, history);
    if records != [] {
      var a := TryOne(link, records[0], history);
      AttemptsAfter(c, history, a, key);
      if Final(a) {
        FlushAttempts(c, link, records[1..], history + [a], key);
        OccursFirst(c, records, |records| - |SendAll(link, records, history).survivors|, key);
      }
    }
  }

  lemma OccursFirst<R, K>(c: Codec<R, K>, records: seq<R>, done: nat, key: K)
    requires 0 < done <= |records|
    ensures Occurrences(c, records[..done], key)
         == (if c.keyOf(records[0]) == key then 1 else 0) + Occurrences(c, records[1..][..done - 1], key)
  {
    assert records[..done] == [records[0]] + records[1..][..done - 1];
    OccurrencesSum(c, [records[0]], records[1..][..done - 1], key);
    OccursOnce(c, records[0], key);
  }

  lemma AttemptsAfter<R, K>(c: Codec<R, K>, history: seq<Attempt<R>>, a: Attempt<R>, key: K)
    ensures Attempts(c, history + [a], key)
         == Attempts(c, history, key) + if Final(a) && c.keyOf(a.record) == key then 1 else 0
  {
    assert (history + [a])[..|history|] == history;
  }

  lemma OccursOnce<R, K>(c: Codec<R, K>, r: R, key: K)
    ensures Occurrences(c, [r], key) == if c.keyOf(r) == key then 1 else 0
  {
    assert [r][..0] == [];
  }

  /** Where the event `key` stands: not emitted and unknown; pending, with at most one final attempt
      for each cut-short flush; or done, with at least one and at most one more than that. */
  ghost predicate Standing<R, K>(c: Codec<R, K>, n: Node<R, K>, emitted: seq<R>, cuts: nat, key: K) {
    var pending := Occurrences(c, Contents(c, n.queue), key);
    var attempts := Attempts(c, n.history, key);
    if Occurrences(c, emitted, key) == 0 then pending == 0 && attempts == 0
    else (pending == 1 && attempts <= cuts) || (pending == 0 && 1 <= attempts <= 1 + cuts)
  }

  lemma StandingStep<R(!new), K>(c: Codec<R, K>, link: Link<R>, n: Node<R, K>, op: Op<R>,
                                 emitted: seq<R>, cuts: nat, key: K)
    requires Sound(c) && Inv(c, n.queue)
    requires Standing(c, n, emitted, cuts, key)
    requires op.Emit? && c.keyOf(op.r) == key ==> Occurrences(c, emitted, key) == 0
    ensures Inv(c, Step(c, link, n, op).queue)
    ensures Standing(c, Step(c, link, n, op), emitted + (if op.Emit? then [op.r] else []),
                     cuts + (if op.Cut? then 1 else 0), key)
  {
    var pending := Contents(c, n.queue);
    match op
    case Emit(r) => StandingEmit(c, link, n, r, emitted, cuts, key);
    case Flush =>
      StandingFlush(c, link, n, emitted, cuts, key);
      assert emitted + [] == emitted;
    case Cut(k) =>
      StandingCut(c, link, n, k, emitted, cuts, key);
      assert emitted + [] == emitted;
    case Restart =>
      assert emitted + [] == emitted;
  }

  lemma StandingEmit<R(!new), K>(c: Codec<R, K>, link: Link<R>, n: Node<R, K>, r: R,
                                 emitted: seq<R>, cuts: nat, key: K)
    requires Sound(c) && Inv(c, n.queue)
    requires Standing(c, n, emitted, cuts, key)
    requires c.keyOf(r) == key ==> Occurrences(c, emitted, key) == 0
    ensures var n' := EmitOne(c, link, n, r).0;
      Inv(c, n'.queue) && Standing(c, n', emitted + [r], cuts, key)
  {
    AddedOccurrences(c, emitted, r, key);
    AppendAddsRecord(c, n.queue, r);
    AttemptsAfter(c, n.history, Sent(r, link.send(n.history, r)), key);
    AddedOccurrences(c, Contents(c, n.queue), r, key);
    OccursIffKey(c, Contents(c, n.queue), c.keyOf(r));
  }

  lemma AddedOccurrences<R, K>(c: Codec<R, K>, rs: seq<R>, r: R, key: K)
    ensures Occurrences(c, rs + [r], key) == Occurrences(c, rs, key) + if c.keyOf(r) == key then 1 else 0
  {
    OccurrencesSum(c, rs, [r], key);
    OccursOnce(c, r, key);
  }

  lemma StandingFlush<R(!new), K>(c: Codec<R, K>, link: Link<R>, n: Node<R, K>, emitted: seq<R>, cuts: nat, key: K)
    requires Sound(c) && Inv(c, n.queue) && Standing(c, n, emitted, cuts, key)
    ensures var n' := FlushOnce(c, link, n).0;
      Inv(c, n'.queue) && Standing(c, n', emitted, cuts, key)
  {
    var pending := Contents(c, n.queue);
    var p := SendAll(link, pending, n.history);
    FlushAttempts(c, link, pending, n.history, key);
    var done := |pending| - |p.survivors|;
    assert pending == pending[..done] + p.survivors;
    OccurrencesSum(c, pending[..done], p.survivors, key);
    RewriteHolds(c, p.survivors);
  }

  lemma StandingCut<R(!new), K>(c: Codec<R, K>, link: Link<R>, n: Node<R, K>, k: nat,
                                emitted: seq<R>, cuts: nat, key: K)
    requires Sound(c) && Inv(c, n.queue) && Standing(c, n, emitted, cuts, key)
    ensures Standing(c, CutFlush(c, link, n, k), emitted, cuts + 1, key)
  {
    CutAttempts(c, link, Contents(c, n.queue), k, n.history, key);
  }

  /** A pass over some of the pending records gives each event at most its occurrences among them. */
  lemma {:induction false} CutAttempts<R, K>(c: Codec<R, K>, link: Link<R>, pending: seq<R>, k: nat,
                                             history: seq<Attempt<R>>, key: K)
    ensures var tried := if k <= |pending| then pending[..k] else pending;
      var after := Attempts(c, SendAll(link, tried, history).history, key);
      Attempts(c, history, key) <= after <= Attempts(c, history, key) + Occurrences(c, pending, key)
  {
    var tried := if k <= |pending| then pending[..k] else pending;
    FlushAttempts(c, link, tried, history, key);
    var done := |tried| - |SendAll(link, tried, history).survivors|;
    assert pending == tried[..done] + pending[done..];
    OccurrencesSum(c, tried[..done], pending[done..], key);
  }

  /** In a whole history a record is dropped only if it does not parse, and every other verdict is what
      the link said at that point. */
  ghost predicate Honest<R>(link: Link<R>, history: seq<Attempt<R>>) {
    forall j :: 0 <= j < |history| ==>
      match history[j]
      case Sent(r, verdict) => verdict == link.send(history[..j], r)
      case Dropped(r) => !link.parses(r)
  }

  lemma HonestSend<R>(link: Link<R>, history: seq<Attempt<R>>, r: R)
    requires Honest(link, history)
    ensures Honest(link, history + [Sent(r, link.send(history, r))])
  {
    var more := history + [Sent(r, link.send(history, r))];
    assert forall j :: 0 <= j <= |history| ==> more[..j] == history[..j];
    assert history[..|history|] == history;
  }

  lemma HonestOn<R>(link: Link<R>, history: seq<Attempt<R>>, after: seq<Attempt<R>>)
    requires Honest(link, history) && |history| <= |after| && after[..|history|] == history
    requires AsTheLinkSays(link, after, |history|)
    ensures Honest(link, after)
  {
    forall j | 0 <= j < |after|
      ensures match after[j]
        case Sent(r, verdict) => verdict == link.send(after[..j], r)
        case Dropped(r) => !link.parses(r)
    {
      if j < |history| {
        assert after[j] == after[..|history|][j] && after[..j] == history[..j];
      }
    }
  }

  lemma HonestStep<R, K>(c: Codec<R, K>, link: Link<R>, n: Node<R, K>, op: Op<R>)
    requires Honest(link, n.history)
    ensures Honest(link, Step(c, link, n, op).history)
  {
    var pending := Contents(c, n.queue);
    match op
    case Emit(r) => HonestSend(link, n.history, r);
    case Flush =>
      FlushAsTheLinkSays(link, pending, n.history);
      HonestOn(link, n.history, SendAll(link, pending, n.history).history);
    case Cut(k) =>
      var tried := if k <= |pending| then pending[..k] else pending;
      FlushAsTheLinkSays(link, tried, n.history);
      HonestOn(link, n.history, SendAll(link, tried, n.history).history);
    case Restart =>
  }

  /** From an empty queue, after any sequence of emits, flushes, flushes cut short and restarts in
      which every event is emitted once: each emitted event has been delivered, refused or
      dropped, or is still pending, and it got at most 1 + (number of cut-short flushes) final
      attempts; without cut-short flushes that is exactly once for all that is not pending. What is
      dropped does not parse, and every delivery and refusal is the link's own. */
  lemma {:induction false} NothingLost<R(!new), K>(c: Codec<R, K>, link: Link<R>, ops: seq<Op<R>>, key: K)
    requires Sound(c)
    requires Occurrences(c, Emitted(ops), key) <= 1
    ensures var n := Run(c, link, Node(Store(None, None), []), ops);
      Inv(c, n.queue) && Standing(c, n, Emitted(ops), Cuts(ops), key) && Honest(link, n.history)
    decreases |ops|
  {
    if ops != [] {
      var most, last := ops[..|ops| - 1], ops[|ops| - 1];
      if last.Emit? {
        OccurrencesSum(c, Emitted(most), [last.r], key);
        OccursOnce(c, last.r, key);
      } else {
        assert Emitted(most) + [] == Emitted(most);
      }
      NothingLost(c, link, most, key);
      StandingStep(c, link, Run(c, link, Node(Store(None, None), []), most), last, Emitted(most), Cuts(most), key);
      HonestStep(c, link, Run(c, link, Node(Store(None, None), []), most), last);
    }
  }
}
