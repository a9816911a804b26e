/** The event loop with an emitter: each event is emitted before it is processed, and the buffer is
    flushed at the end. */
module DriverEmitter {
  import opened Prelude
  import opened Queue
  import opened Emitter
  import Driver

  /** Emits in order; what an emit raises is swallowed. */
  function EmitAll<R, K>(c: Codec<R, K>, link: Link<R>, n: Node<R, K>, rs: seq<R>): Node<R, K> {
    if rs == [] then n
    else EmitOne(c, link, EmitAll(c, link, n, rs[..|rs| - 1]), rs[|rs| - 1]).0
  }

  /** The final flush, or, if it dies after handling `fault` records, what there is of it. */
  function LastFlush<R, K>(c: Codec<R, K>, link: Link<R>, n: Node<R, K>, fault: Option<nat>): Node<R, K> {
    match fault
    case None => FlushOnce(c, link, n).0
    case Some(k) => CutFlush(c, link, n, k)
  }

  function Wires<R>(wire: string -> R, stream: seq<string>): seq<R> {
    seq(|stream|, i requires 0 <= i < |stream| => wire(stream[i]))
  }

  /** The emitter after a run with the given records: every event with a record was emitted first. */
  function EmitterAfter<R, K>(c: Codec<R, K>, link: Link<R>, wire: string -> R, n: Node<R, K>,
                              records: seq<Driver.EventRecord>, fault: Option<nat>): Node<R, K> {
    LastFlush(c, link, EmitAll(c, link, n, Wires(wire, EventsOf(records))), fault)
  }

  function EventsOf(records: seq<Driver.EventRecord>): seq<string> {
    seq(|records|, i requires 0 <= i < |records| => records[i].eventId)
  }

  // ---- as the loop it is ----

  method RunDriver<R, K>(s: Driver.Setup, guard: Driver.CycleGuard, stream: seq<string>, emitter: EventEmitter<R, K>,
                         wire: string -> R, fault: Option<nat>)
    returns (records: seq<Driver.EventRecord>, aborted: bool, pulled: nat, flushed: Option<Report>)
    modifies guard, emitter, emitter.queue
    ensures Driver.DriveReport(records, aborted, pulled, guard.State())
         == Driver.Drive(s, guard.maxConsecutive, old(guard.State()), stream, [])
    ensures emitter.State()
         == EmitterAfter(emitter.queue.codec, emitter.link, wire, old(emitter.State()), records, fault)
    ensures flushed.Some? <==> fault.None?
  {
    records, aborted, pulled := [], false, 0;
    assert stream[0..] == stream;
    for i := 0 to |stream|
      invariant |records| == i == pulled && !aborted
      invariant Driver.Drive(s, guard.maxConsecutive, old(guard.State()), stream, [])
             == Driver.Drive(s, guard.maxConsecutive, guard.State(), stream[i..], records)
      invariant emitter.State()
             == EmitAll(emitter.queue.codec, emitter.link, old(emitter.State()), Wires(wire, EventsOf(records)))
    {
      assert stream[i..][1..] == stream[i + 1..];
      pulled := pulled + 1;
      if s.maxEvents.Some? && |records| >= s.maxEvents.value {
        break;
      }
      var _ := emitter.Emit(wire(stream[i]));
      var r := Driver.ProcessOne(s, records, stream[i]);
      WiresNext(wire, records, r);
      records := records + [r];
      aborted := Driver.NoteRecord(guard, r);
      if aborted {
        break;
      }
    }
    flushed := FinalFlush(emitter, fault);
  }

  /** The guarded flush at the end of a run: a failure is swallowed, and then nothing is reported. */
  method FinalFlush<R, K>(emitter: EventEmitter<R, K>, fault: Option<nat>) returns (flushed: Option<Report>)
    modifies emitter, emitter.queue
    ensures emitter.State() == LastFlush(emitter.queue.codec, emitter.link, old(emitter.State()), fault)
    ensures flushed.Some? <==> fault.None?
  {
    match fault {
      case None =>
        var report := emitter.Flush();
        flushed := Some(report);
      case Some(k) =>
        emitter.FlushDies(k);
        flushed := None;
    }
  }

  lemma WiresNext<R>(wire: string -> R, records: seq<Driver.EventRecord>, r: Driver.EventRecord)
    ensures var more := Wires(wire, EventsOf(records + [r]));
      |more| == |records| + 1 && more[|records|] == wire(r.eventId)
      && more[..|records|] == Wires(wire, EventsOf(records))
  {
  }

  // ---- no event vanishes ----

  /** The event has had a final attempt (a delivery, a refusal or a drop), or it is pending. */
  ghost predicate Accounted<R, K>(c: Codec<R, K>, n: Node<R, K>, key: K) {
    key in KeysOf(c, Contents(c, n.queue)) || Attempts(c, n.history, key) > 0
  }

  /** Once accounted for, an event stays so whatever the emitter does next. */
  lemma {:induction false} StaysAccounted<R(!new), K>(c: Codec<R, K>, link: Link<R>, n: Node<R, K>, op: Emitter.Op<R>,
                                                      key: K)
    requires Sound(c) && Inv(c, n.queue)
    ensures Inv(c, Step(c, link, n, op).queue)
    ensures Accounted(c, n, key) ==> Accounted(c, Step(c, link, n, op), key)
    ensures op.Emit? && c.keyOf(op.r) == key ==> Accounted(c, Step(c, link, n, op), key)
  {
    match op
    case Emit(r) => EmitAccounts(c, link, n, r, key);
    case Flush => FlushAccounts(c, link, n, key);
    case Cut(k) => CutAccounts(c, link, n, k, key);
    case Restart =>
  }

  lemma {:induction false} EmitAccounts<R(!new), K>(c: Codec<R, K>, link: Link<R>, n: Node<R, K>, r: R, key: K)
    requires Sound(c) && Inv(c, n.queue)
    ensures var n' := EmitOne(c, link, n, r).0;
      && Inv(c, n'.queue)
      && (Accounted(c, n, key) || c.keyOf(r) == key ==> Accounted(c, n', key))
  {
    AppendAddsRecord(c, n.queue, r);
    KeysOfSum(c, Contents(c, n.queue), [r]);
    KeysOfOne(c, r);
    AttemptsAfter(c, n.history, Sent(r, link.send(n.history, r)), key);
  }

  lemma {:induction false} FlushAccounts<R(!new), K>(c: Codec<R, K>, link: Link<R>, n: Node<R, K>, key: K)
    requires Sound(c) && Inv(c, n.queue)
    ensures var n' := FlushOnce(c, link, n).0;
      Inv(c, n'.queue) && (Accounted(c, n, key) ==> Accounted(c, n', key))
  {
    var pending := Contents(c, n.queue);
    var survivors := SendAll(link, pending, n.history).survivors;
    RewriteHolds(c, survivors);
    FlushAttempts(c, link, pending, n.history, key);
    var done := |pending| - |survivors|;
    assert pending == pending[..done] + survivors;
    OccurrencesSum(c, pending[..done], survivors, key);
    OccursIffKey(c, pending, key);
    OccursIffKey(c, survivors, key);
  }

  lemma {:induction false} CutAccounts<R(!new), K>(c: Codec<R, K>, link: Link<R>, n: Node<R, K>, k: nat, key: K)
    requires Sound(c) && Inv(c, n.queue)
    ensures var n' := CutFlush(c, link, n, k);
      Inv(c, n'.queue) && (Accounted(c, n, key) ==> Accounted(c, n', key))
  {
    var pending := Contents(c, n.queue);
    FlushAttempts(c, link, if k <= |pending| then pending[..k] else pending, n.history, key);
  }

  lemma {:induction false} EmitAllAccounts<R(!new), K>(c: Codec<R, K>, link: Link<R>, n: Node<R, K>, rs: seq<R>, key: K)
    requires Sound(c) && Inv(c, n.queue)
    ensures var n' := EmitAll(c, link, n, rs);
      && Inv(c, n'.queue)
      && (Accounted(c, n, key) || key in KeysOf(c, rs) ==> Accounted(c, n', key))
    decreases |rs|
  {
    if rs != [] {
      var most, last := rs[..|rs| - 1], rs[|rs| - 1];
      EmitAllAccounts(c, link, n, most, key);
      EmitAccounts(c, link, EmitAll(c, link, n, most), last, key);
      KeysOfSum(c, most, [last]);
      KeysOfOne(c, last);
      assert rs == most + [last];
    }
  }

  /** Each event is sent exactly once before the flush, in order. */
  lemma {:induction false} EmitAllSends<R, K>(c: Codec<R, K>, link: Link<R>, n: Node<R, K>, rs: seq<R>)
    ensures var h := EmitAll(c, link, n, rs).history;
      && |h| == |n.history| + |rs| && h[..|n.history|] == n.history
      && forall j :: |n.history| <= j < |h| ==> h[j].Sent? && h[j].record == rs[j - |n.history|]
    decreases |rs|
  {
    if rs != [] {
      var most, last := rs[..|rs| - 1], rs[|rs| - 1];
      EmitAllSends(c, link, n, most);
      var h := EmitAll(c, link, n, most).history;
      assert EmitAll(c, link, n, rs).history == h + [Sent(last, link.send(h, last))];
      assert (h + [Sent(last, link.send(h, last))])[..|n.history|] == h[..|n.history|];
    }
  }

  lemma {:induction false} EmitAllHonest<R, K>(c: Codec<R, K>, link: Link<R>, n: Node<R, K>, rs: seq<R>)
    requires Honest(link, n.history)
    ensures Honest(link, EmitAll(c, link, n, rs).history)
    decreases |rs|
  {
    if rs != [] {
      EmitAllHonest(c, link, n, rs[..|rs| - 1]);
      HonestSend(link, EmitAll(c, link, n, rs[..|rs| - 1]).history, rs[|rs| - 1]);
    }
  }

  /** Nothing is pending, or the last attempt of all found the first pending record offline. */
  predicate StoppedOffline<R(==)>(pending: seq<R>, history: seq<Attempt<R>>) {
    pending != [] ==> history != [] && history[|history| - 1] == Sent(pending[0], Offline)
  }

  lemma FlushStopsOffline<R(!new), K>(c: Codec<R, K>, link: Link<R>, n: Node<R, K>)
    requires Sound(c)
    ensures var n' := FlushOnce(c, link, n).0; StoppedOffline(Contents(c, n'.queue), n'.history)
  {
    FlushExact(c, link, n);
  }

  /** A run of the driver with an emitter, however it ends and whether or not its final flush does:
      every event pulled and not dropped at `maxEvents`, and everything that was buffered or attempted
      before, has been delivered, refused or dropped, or is pending; unless the flush died, nothing is
      pending but behind an offline send that was the last attempt of all; and what was dropped does not
      parse, and every verdict is the link's own. */
  lemma NoEventVanishes<R(!new), K>(s: Driver.Setup, m: nat, guard: Driver.Guard, stream: seq<string>,
                                    c: Codec<R, K>, link: Link<R>, wire: string -> R, n: Node<R, K>,
                                    fault: Option<nat>, key: K)
    requires Sound(c) && Inv(c, n.queue)
    ensures var r := Driver.Drive(s, m, guard, stream, []);
      var n' := EmitterAfter(c, link, wire, n, r.records, fault);
      && |r.records| <= r.pulled <= |r.records| + 1 && |r.records| <= |stream|
      && (r.pulled > |r.records| ==> s.maxEvents.Some? && |r.records| >= s.maxEvents.value)
      && Inv(c, n'.queue)
      && (Accounted(c, n, key) ==> Accounted(c, n', key))
      && (Honest(link, n.history) ==> Honest(link, n'.history))
      && (forall i :: 0 <= i < |r.records| && c.keyOf(wire(stream[i])) == key ==> Accounted(c, n', key))
      && (fault.None? ==> StoppedOffline(Contents(c, n'.queue), n'.history))
  {
    var r := Driver.Drive(s, m, guard, stream, []);
    DrivePulls(s, m, guard, stream, []);
    var rs := Wires(wire, EventsOf(r.records));
    EmitAllAccounts(c, link, n, rs, key);
    var n1 := EmitAll(c, link, n, rs);
    FlushAccounts(c, link, n1, key);
    if fault.Some? {
      CutAccounts(c, link, n1, fault.value, key);
    }
    if Honest(link, n.history) {
      EmitAllHonest(c, link, n, rs);
      HonestStep(c, link, n1, if fault.Some? then Cut(fault.value) else Flush);
    }
    if fault.None? {
      FlushStopsOffline(c, link, n1);
    }
    forall i | 0 <= i < |r.records| && c.keyOf(wire(stream[i])) == key ensures key in KeysOf(c, rs) {
      assert rs[i] == wire(stream[i]);
    }
  }

  /** From any point of any run: which events were pulled, and which of them have a record. */
  lemma {:induction false} DrivePulls(s: Driver.Setup, m: nat, guard: Driver.Guard, stream: seq<string>,
                                      records: seq<Driver.EventRecord>)
    ensures var r := Driver.Drive(s, m, guard, stream, records);
      var k := |r.records| - |records|;
      && 0 <= k <= |stream| && r.records[..|records|] == records
      && (forall i :: 0 <= i < k ==> r.records[|records| + i].eventId == stream[i])
      && |r.records| <= r.pulled <= |r.records| + 1
      && (r.pulled > |r.records| ==> s.maxEvents.Some? && |r.records| >= s.maxEvents.value)
    decreases |stream|
  {
    if stream != [] && !(s.maxEvents.Some? && |records| >= s.maxEvents.value) {
      var e := Driver.Process(s, records, stream[0]);
      var more, g := records + [e], Driver.GuardNext(guard, e);
      if !(e.status.Failed? && g.count >= m) {
        DrivePulls(s, m, g, stream[1..], more);
        var r := Driver.Drive(s, m, g, stream[1..], more);
        assert r.records[..|records|] == r.records[..|more|][..|records|];
        assert r.records[|records|] == r.records[..|more|][|records|];
        forall i | 0 <= i < |r.records| - |records| ensures r.records[|records| + i].eventId == stream[i] {
          if i > 0 {
            assert r.records[|records| + i] == r.records[|more| + (i - 1)] && stream[1..][i - 1] == stream[i];
          }
        }
      }
    }
  }
}
