/** The emitter in a process that dies in the middle of appends, any number of times. */
module CrashEmitter {
  import opened Prelude
  import opened Queue
  import opened Emitter
  import Crash

  /** `Dies` is an emit whose append, if the send is offline, dies after at most `n` characters. */
  datatype Event<R> = Does(op: Emitter.Op<R>) | Dies(r: R, n: nat)

  function EmitDies<R, K>(c: Codec<R, K>, link: Link<R>, n: Node<R, K>, r: R, at: nat): Node<R, K> {
    var verdict := link.send(n.history, r);
    var history := n.history + [Sent(r, verdict)];
    Node(if verdict.Offline? then Crash.TornPut(c, n.queue, r, at) else Restarted(n.queue), history)
  }

  function Happen<R, K>(c: Codec<R, K>, link: Link<R>, n: Node<R, K>, e: Event<R>): Node<R, K> {
    match e
    case Does(op) => Step(c, link, n, op)
    case Dies(r, at) => EmitDies(c, link, n, r, at)
  }

  function HappenAll<R, K>(c: Codec<R, K>, link: Link<R>, events: seq<Event<R>>): Node<R, K> {
    if events == [] then Node(Store(None, None), [])
    else Happen(c, link, HappenAll(c, link, events[..|events| - 1]), events[|events| - 1])
  }

  function EmittedBy<R>(e: Event<R>): seq<R> {
    match e
    case Does(Emit(r)) => [r]
    case Dies(r, _) => [r]
    case _ => []
  }

  function AllEmitted<R>(events: seq<Event<R>>): seq<R> {
    if events == [] then []
    else AllEmitted(events[..|events| - 1]) + EmittedBy(events[|events| - 1])
  }

  function Once(yes: bool): nat {
    if yes then 1 else 0
  }

  function CutCount<R>(events: seq<Event<R>>): nat {
    if events == [] then 0
    else
      var last := events[|events| - 1];
      CutCount(events[..|events| - 1]) + Once(last.Does? && last.op.Cut?)
  }

  function TearCount<R>(events: seq<Event<R>>): nat {
    if events == [] then 0
    else TearCount(events[..|events| - 1]) + Once(events[|events| - 1].Dies?)
  }

  // ---- the state behind a node, on plain lists ----

  datatype View<R, K> = View(disk: Crash.Disk<R, K>, history: seq<Attempt<R>>)

  function Look<R, K>(c: Codec<R, K>, link: Link<R>, v: View<R, K>, e: Event<R>): View<R, K> {
    match e
    case Does(Emit(r)) =>
      var verdict := link.send(v.history, r);
      View(if verdict.Offline? then Crash.Put(c, v.disk, r).0 else v.disk, v.history + [Sent(r, verdict)])
    case Dies(r, at) =>
      var verdict := link.send(v.history, r);
      View(if verdict.Offline? then Crash.Tear(c, v.disk, r, at) else v.disk.(index := None),
           v.history + [Sent(r, verdict)])
    case Does(Flush) =>
      var p := SendAll(link, Crash.Visible(v.disk), v.history);
      View(Crash.Disk(p.survivors, Crash.Whole, Some(KeysOf(c, p.survivors)), p.survivors), p.history)
    case Does(Cut(k)) =>
      var pending := Crash.Visible(v.disk);
      View(v.disk, SendAll(link, if k <= |pending| then pending[..k] else pending, v.history).history)
    case Does(Restart) => v.(disk := v.disk.(index := None))
  }

  ghost predicate Shows<R(!new), K>(c: Codec<R, K>, n: Node<R, K>, v: View<R, K>, text: string, parts: seq<string>) {
    Crash.Holds(c, n.queue, v.disk, text, parts) && n.history == v.history
  }

  lemma {:induction false} LookShows<R(!new), K>(c: Codec<R, K>, link: Link<R>, n: Node<R, K>, v: View<R, K>,
                                                 text: string, parts: seq<string>, e: Event<R>)
    returns (text': string, parts': seq<string>)
    requires Sound(c) && Crash.CrashSafe(c) && Shows(c, n, v, text, parts)
    ensures Shows(c, Happen(c, link, n, e), Look(c, link, v, e), text', parts')
  {
    Crash.ContentsAre(c, n.queue, v.disk, text, parts);
    text', parts' := text, parts;
    match e {
      case Does(Emit(r)) => text', parts' := EmitShows(c, link, n, v, text, parts, r);
      case Dies(r, at) => text', parts' := DiesShows(c, link, n, v, text, parts, r, at);
      case Does(Flush) =>
        text', parts' := Crash.ReplaceHolds(c, SendAll(link, Crash.Visible(v.disk), v.history).survivors);
      case Does(Cut(k)) =>
      case Does(Restart) => Crash.IndexHolds(c, n.queue, v.disk, text, parts, None);
    }
  }

  lemma {:induction false} EmitShows<R(!new), K>(c: Codec<R, K>, link: Link<R>, n: Node<R, K>, v: View<R, K>,
                                                 text: string, parts: seq<string>, r: R)
    returns (text': string, parts': seq<string>)
    requires Sound(c) && Crash.CrashSafe(c) && Shows(c, n, v, text, parts)
    ensures Shows(c, Happen(c, link, n, Does(Emit(r))), Look(c, link, v, Does(Emit(r))), text', parts')
  {
    text', parts' := text, parts;
    if link.send(v.history, r).Offline? {
      text', parts' := Crash.PutHolds(c, n.queue, v.disk, text, parts, r);
    }
  }

  lemma {:induction false} DiesShows<R(!new), K>(c: Codec<R, K>, link: Link<R>, n: Node<R, K>, v: View<R, K>,
                                                 text: string, parts: seq<string>, r: R, at: nat)
    returns (text': string, parts': seq<string>)
    requires Sound(c) && Crash.CrashSafe(c) && Shows(c, n, v, text, parts)
    ensures Shows(c, EmitDies(c, link, n, r, at), Look(c, link, v, Dies(r, at)), text', parts')
  {
    text', parts' := text, parts;
    if link.send(v.history, r).Offline? {
      text', parts' := Crash.TearHolds(c, n.queue, v.disk, text, parts, r, at);
    } else {
      Crash.IndexHolds(c, n.queue, v.disk, text, parts, None);
    }
  }

  // ---- the ledger of one event ----

  function InQueue<R, K(==)>(c: Codec<R, K>, v: View<R, K>, key: K): nat {
    Occurrences(c, Crash.Visible(v.disk), key)
  }

  function Tried<R, K(==)>(c: Codec<R, K>, v: View<R, K>, key: K): nat {
    Attempts(c, v.history, key)
  }

  /** Of an event that was never emitted there is no trace; any other is pending at most once and got at
      most one final attempt more than there were cut-short flushes, less one while it is pending. */
  ghost predicate Traced<R(!new), K>(c: Codec<R, K>, v: View<R, K>, emitted: seq<R>, cuts: nat, key: K) {
    if Occurrences(c, emitted, key) == 0 then InQueue(c, v, key) == 0 && Tried(c, v, key) == 0
    else InQueue(c, v, key) <= 1 && InQueue(c, v, key) + Tried(c, v, key) <= 1 + cuts
  }

  lemma {:induction false} VisibleOf<R, K>(c: Codec<R, K>, d: Crash.Disk<R, K>, key: K)
    ensures Occurrences(c, Crash.Visible(d), key)
         == Occurrences(c, d.list, key) + if d.tail.Dangling? && c.keyOf(d.tail.r) == key then 1 else 0
  {
    if d.tail.Dangling? {
      AddedOccurrences(c, d.list, d.tail.r, key);
    } else {
      assert Crash.Visible(d) == d.list;
    }
  }

  /** The keys that a put of a fresh record loses: its own and that of a dangling record, if it does not
      start on a new line. */
  function PutStake<R, K>(c: Codec<R, K>, d: Crash.Disk<R, K>, r: R): set<K> {
    match d.tail
    case Whole => {}
    case Dangling(r0) => {c.keyOf(r0), c.keyOf(r)}
    case Broken => {c.keyOf(r)}
  }

  function TearStake<R, K>(c: Codec<R, K>, d: Crash.Disk<R, K>, r: R, at: nat): set<K> {
    if at > |c.encode(r)| then PutStake(c, d, r)
    else if at == 0 then {c.keyOf(r)}
    else if d.tail.Whole? && at == |c.encode(r)| then {}
    else PutStake(c, d, r) + {c.keyOf(r)}
  }

  lemma {:induction false} PutCounts<R, K>(c: Codec<R, K>, d: Crash.Disk<R, K>, r: R, key: K)
    ensures var before, after := Crash.Visible(d), Crash.Visible(Crash.Put(c, d, r).0);
      && Occurrences(c, after, key) <= Occurrences(c, before, key) + Once(c.keyOf(r) == key)
      && (c.keyOf(r) !in Crash.Known(c, d) && key !in PutStake(c, d, r) ==>
            Occurrences(c, after, key) == Occurrences(c, before, key) + Once(c.keyOf(r) == key))
  {
    VisibleOf(c, d, key);
    VisibleOf(c, Crash.Put(c, d, r).0, key);
    AddedOccurrences(c, d.list, r, key);
  }

  lemma {:induction false} TearCounts<R, K>(c: Codec<R, K>, d: Crash.Disk<R, K>, r: R, at: nat, key: K)
    ensures var before, after := Crash.Visible(d), Crash.Visible(Crash.Tear(c, d, r, at));
      && Occurrences(c, after, key) <= Occurrences(c, before, key) + Once(c.keyOf(r) == key)
      && (c.keyOf(r) !in Crash.Known(c, d) && key !in TearStake(c, d, r, at) ==>
            Occurrences(c, after, key) == Occurrences(c, before, key) + Once(c.keyOf(r) == key))
  {
    if c.keyOf(r) in Crash.Known(c, d) {
      assert Crash.Visible(d.(index := None)) == Crash.Visible(d);
    } else if at > |c.encode(r)| {
      PutCounts(c, d, r, key);
      var put := Crash.Put(c, d, r).0;
      assert Crash.Visible(put.(index := None)) == Crash.Visible(put);
    } else {
      TailCounts(c, d, Crash.Tear(c, d, r, at), key);
    }
  }

  /** The list stays; only the tail may change. */
  lemma {:induction false} TailCounts<R, K>(c: Codec<R, K>, d: Crash.Disk<R, K>, d': Crash.Disk<R, K>, key: K)
    requires d'.list == d.list
    ensures Occurrences(c, Crash.Visible(d'), key) + Once(d.tail.Dangling? && c.keyOf(d.tail.r) == key)
         == Occurrences(c, Crash.Visible(d), key) + Once(d'.tail.Dangling? && c.keyOf(d'.tail.r) == key)
  {
    VisibleOf(c, d, key);
    VisibleOf(c, d', key);
  }

  lemma {:induction false} FlushCounts<R, K>(c: Codec<R, K>, link: Link<R>, pending: seq<R>, history: seq<Attempt<R>>,
                                             key: K)
    ensures var p := SendAll(link, pending, history);
      && Occurrences(c, p.survivors, key) <= Occurrences(c, pending, key)
      && Occurrences(c, p.survivors, key) + Attempts(c, p.history, key)
           == Occurrences(c, pending, key) + Attempts(c, history, key)
  {
    var p := SendAll(link, pending, history);
    FlushAttempts(c, link, pending, history, key);
    var done := |pending| - |p.survivors|;
    assert pending == pending[..done] + p.survivors;
    OccurrencesSum(c, pending[..done], p.survivors, key);
  }

  lemma {:induction false} TracedSend<R(!new), K>(c: Codec<R, K>, v: View<R, K>, disk: Crash.Disk<R, K>,
                                                  a: Attempt<R>, emitted: seq<R>, cuts: nat, key: K)
    requires Traced(c, v, emitted, cuts, key)
    requires c.keyOf(a.record) == key ==> Occurrences(c, emitted, key) == 0
    requires Occurrences(c, Crash.Visible(disk), key)
          <= InQueue(c, v, key) + Once(!Final(a) && c.keyOf(a.record) == key)
    ensures Traced(c, View(disk, v.history + [a]), emitted + [a.record], cuts, key)
  {
    AddedOccurrences(c, emitted, a.record, key);
    AttemptsAfter(c, v.history, a, key);
  }

  lemma {:induction false} TracedFlush<R(!new), K>(c: Codec<R, K>, link: Link<R>, v: View<R, K>, emitted: seq<R>,
                                                   cuts: nat, key: K)
    requires Traced(c, v, emitted, cuts, key)
    ensures Traced(c, Look(c, link, v, Does(Flush)), emitted, cuts, key)
  {
    var v' := Look(c, link, v, Does(Flush));
    FlushCounts(c, link, Crash.Visible(v.disk), v.history, key);
    assert Crash.Visible(v'.disk) == v'.disk.list;
  }

  lemma {:induction false} TracedCut<R(!new), K>(c: Codec<R, K>, link: Link<R>, v: View<R, K>, k: nat,
                                                 emitted: seq<R>, cuts: nat, key: K)
    requires Traced(c, v, emitted, cuts, key)
    ensures Traced(c, Look(c, link, v, Does(Cut(k))), emitted, cuts + 1, key)
  {
    CutAttempts(c, link, Crash.Visible(v.disk), k, v.history, key);
  }

  lemma {:induction false} TracedStep<R(!new), K>(c: Codec<R, K>, link: Link<R>, v: View<R, K>, e: Event<R>,
                                                  emitted: seq<R>, cuts: nat, key: K)
    requires Traced(c, v, emitted, cuts, key)
    requires forall r :: r in EmittedBy(e) && c.keyOf(r) == key ==> Occurrences(c, emitted, key) == 0
    ensures Traced(c, Look(c, link, v, e), emitted + EmittedBy(e), cuts + Once(e.Does? && e.op.Cut?), key)
  {
    var v' := Look(c, link, v, e);
    assert emitted + [] == emitted;
    match e {
      case Does(Emit(r)) =>
        PutCounts(c, v.disk, r, key);
        TracedSend(c, v, v'.disk, Sent(r, link.send(v.history, r)), emitted, cuts, key);
      case Dies(r, at) =>
        TearCounts(c, v.disk, r, at, key);
        assert Crash.Visible(v.disk.(index := None)) == Crash.Visible(v.disk);
        TracedSend(c, v, v'.disk, Sent(r, link.send(v.history, r)), emitted, cuts, key);
      case Does(Flush) => TracedFlush(c, link, v, emitted, cuts, key);
      case Does(Cut(k)) => TracedCut(c, link, v, k, emitted, cuts, key);
      case Does(Restart) => assert Crash.Visible(v'.disk) == Crash.Visible(v.disk);
    }
  }

  // ---- what is lost ----

  /** The emitted events that are neither pending nor have had a final attempt. */
  function LostFrom<R, K(==)>(c: Codec<R, K>, pending: seq<R>, history: seq<Attempt<R>>, emitted: seq<R>): set<K> {
    set key | key in KeysOf(c, emitted) && Occurrences(c, pending, key) == 0 && Attempts(c, history, key) == 0
  }

  function Lost<R, K(==)>(c: Codec<R, K>, v: View<R, K>, emitted: seq<R>): set<K> {
    LostFrom(c, Crash.Visible(v.disk), v.history, emitted)
  }

  /** The keys that an event of the run loses. */
  function Stake<R, K>(c: Codec<R, K>, link: Link<R>, v: View<R, K>, e: Event<R>): set<K> {
    match e
    case Does(Emit(r)) => if link.send(v.history, r).Offline? then PutStake(c, v.disk, r) else {}
    case Dies(r, at) => if link.send(v.history, r).Offline? then TearStake(c, v.disk, r, at) else {}
    case _ => {}
  }

  /** The cached index knows only events that were emitted. */
  ghost predicate Indexed<R(!new), K>(c: Codec<R, K>, v: View<R, K>, emitted: seq<R>) {
    v.disk.index.Some? ==> v.disk.index.value <= KeysOf(c, emitted)
  }

  ghost predicate AllTraced<R(!new), K(!new)>(c: Codec<R, K>, v: View<R, K>, emitted: seq<R>, cuts: nat) {
    forall key :: Traced(c, v, emitted, cuts, key)
  }

  lemma {:induction false} KnownAreEmitted<R(!new), K(!new)>(c: Codec<R, K>, v: View<R, K>, emitted: seq<R>, cuts: nat)
    requires AllTraced(c, v, emitted, cuts) && Indexed(c, v, emitted)
    ensures Crash.Known(c, v.disk) <= KeysOf(c, emitted)
  {
    forall key | key in KeysOf(c, Crash.Visible(v.disk)) ensures key in KeysOf(c, emitted) {
      assert Traced(c, v, emitted, cuts, key);
      OccursIffKey(c, Crash.Visible(v.disk), key);
      OccursIffKey(c, emitted, key);
    }
  }

  lemma SubsetSize<T>(a: set<T>, b: set<T>, s: set<T>)
    requires a <= b + s
    ensures |a| <= |b| + |s|
  {
    var union := b + s;
    assert union == a + (union - a) && a !! (union - a);
    assert |union| == |b| + |s - b| by { assert union == b + (s - b); }
    assert |s| == |s - b| + |s * b| by { assert s == (s - b) + (s * b); }
  }

  lemma {:induction false} LostOnlyAtStake<R(!new), K(!new)>(c: Codec<R, K>, link: Link<R>, v: View<R, K>,
                                                             e: Event<R>, emitted: seq<R>, key: K)
    requires forall r :: r in EmittedBy(e) ==> c.keyOf(r) !in Crash.Known(c, v.disk)
    requires key in Lost(c, Look(c, link, v, e), emitted + EmittedBy(e)) && key !in Stake(c, link, v, e)
    ensures key in Lost(c, v, emitted)
  {
    KeysOfSum(c, emitted, EmittedBy(e));
    var v' := Look(c, link, v, e);
    match e {
      case Does(Emit(r)) =>
        KeysOfOne(c, r);
        AttemptsAfter(c, v.history, Sent(r, link.send(v.history, r)), key);
        PutCounts(c, v.disk, r, key);
      case Dies(r, at) =>
        KeysOfOne(c, r);
        AttemptsAfter(c, v.history, Sent(r, link.send(v.history, r)), key);
        TearCounts(c, v.disk, r, at, key);
        assert Crash.Visible(v.disk.(index := None)) == Crash.Visible(v.disk);
      case Does(Flush) =>
        FlushCounts(c, link, Crash.Visible(v.disk), v.history, key);
        assert Crash.Visible(v'.disk) == v'.disk.list;
      case Does(Cut(k)) => CutAttempts(c, link, Crash.Visible(v.disk), k, v.history, key);
      case Does(Restart) => assert Crash.Visible(v'.disk) == Crash.Visible(v.disk);
    }
  }

  lemma StakeSize<R(!new), K>(c: Codec<R, K>, link: Link<R>, v: View<R, K>, e: Event<R>)
    requires forall r :: r in EmittedBy(e) ==> c.keyOf(r) !in Crash.Known(c, v.disk)
    ensures |Stake(c, link, v, e)| + Crash.AtRisk(Look(c, link, v, e).disk.tail)
         <= Crash.AtRisk(v.disk.tail) + 2 * Once(e.Dies?)
  {
  }

  lemma LostStep<R(!new), K(!new)>(c: Codec<R, K>, link: Link<R>, v: View<R, K>, e: Event<R>, emitted: seq<R>)
    requires forall r :: r in EmittedBy(e) ==> c.keyOf(r) !in Crash.Known(c, v.disk)
    ensures var v' := Look(c, link, v, e);
      |Lost(c, v', emitted + EmittedBy(e))| + Crash.AtRisk(v'.disk.tail)
        <= |Lost(c, v, emitted)| + Crash.AtRisk(v.disk.tail) + 2 * Once(e.Dies?)
  {
    var after := Lost(c, Look(c, link, v, e), emitted + EmittedBy(e));
    forall key | key in after ensures key in Lost(c, v, emitted) + Stake(c, link, v, e) {
      if key !in Stake(c, link, v, e) {
        LostOnlyAtStake(c, link, v, e, emitted, key);
      }
    }
    SubsetSize(after, Lost(c, v, emitted), Stake(c, link, v, e));
    StakeSize(c, link, v, e);
  }

  lemma {:induction false} IndexedStep<R(!new), K(!new)>(c: Codec<R, K>, link: Link<R>, v: View<R, K>, e: Event<R>,
                                                         emitted: seq<R>, cuts: nat)
    requires AllTraced(c, v, emitted, cuts) && Indexed(c, v, emitted)
    ensures Indexed(c, Look(c, link, v, e), emitted + EmittedBy(e))
  {
    KnownAreEmitted(c, v, emitted, cuts);
    KeysOfSum(c, emitted, EmittedBy(e));
    match e {
      case Does(Emit(r)) => KeysOfOne(c, r);
      case Does(Flush) =>
        var survivors := SendAll(link, Crash.Visible(v.disk), v.history).survivors;
        SurvivorsAreTail(link, Crash.Visible(v.disk), v.history);
        forall key | key in KeysOf(c, survivors) ensures key in KeysOf(c, emitted) {
          FlushAttempts(c, link, Crash.Visible(v.disk), v.history, key);
          SurvivorKnown(c, Crash.Visible(v.disk), survivors, key);
          assert Traced(c, v, emitted, cuts, key);
          OccursIffKey(c, Crash.Visible(v.disk), key);
          OccursIffKey(c, emitted, key);
        }
      case _ =>
    }
  }

  lemma SurvivorKnown<R(!new), K>(c: Codec<R, K>, pending: seq<R>, survivors: seq<R>, key: K)
    requires |survivors| <= |pending| && survivors == pending[|pending| - |survivors|..] && key in KeysOf(c, survivors)
    ensures key in KeysOf(c, pending)
  {
    KeysOfSum(c, pending[..|pending| - |survivors|], survivors);
    assert pending == pending[..|pending| - |survivors|] + survivors;
  }

  // ---- whole runs ----

  /** What holds after every event of a run. */
  ghost predicate Good<R(!new), K(!new)>(c: Codec<R, K>, v: View<R, K>, emitted: seq<R>, cuts: nat, tears: nat) {
    && AllTraced(c, v, emitted, cuts) && Indexed(c, v, emitted)
    && |Lost(c, v, emitted)| + Crash.AtRisk(v.disk.tail) <= 2 * tears
  }

  lemma GoodStep<R(!new), K(!new)>(c: Codec<R, K>, link: Link<R>, v: View<R, K>, e: Event<R>, emitted: seq<R>,
                                   cuts: nat, tears: nat)
    requires Good(c, v, emitted, cuts, tears)
    requires forall r :: r in EmittedBy(e) ==> c.keyOf(r) !in KeysOf(c, emitted)
    ensures Good(c, Look(c, link, v, e), emitted + EmittedBy(e), cuts + Once(e.Does? && e.op.Cut?),
                 tears + Once(e.Dies?))
  {
    KnownAreEmitted(c, v, emitted, cuts);
    IndexedStep(c, link, v, e, emitted, cuts);
    LostStep(c, link, v, e, emitted);
    var v', emitted', cuts' := Look(c, link, v, e), emitted + EmittedBy(e), cuts + Once(e.Does? && e.op.Cut?);
    forall key ensures Traced(c, v', emitted', cuts', key) {
      assert Traced(c, v, emitted, cuts, key);
      OccursIffKey(c, emitted, key);
      TracedStep(c, link, v, e, emitted, cuts, key);
    }
  }

  function LookAll<R, K>(c: Codec<R, K>, link: Link<R>, events: seq<Event<R>>): View<R, K> {
    if events == [] then View(Crash.Disk([], Crash.Whole, None, []), [])
    else Look(c, link, LookAll(c, link, events[..|events| - 1]), events[|events| - 1])
  }

  lemma {:induction false} AllShows<R(!new), K>(c: Codec<R, K>, link: Link<R>, events: seq<Event<R>>)
    returns (text: string, parts: seq<string>)
    requires Sound(c) && Crash.CrashSafe(c)
    ensures Shows(c, HappenAll(c, link, events), LookAll(c, link, events), text, parts)
    decreases |events|
  {
    if events == [] {
      text, parts := "", [];
      ParseOne(c, "");
    } else {
      var most, last := events[..|events| - 1], events[|events| - 1];
      text, parts := AllShows(c, link, most);
      text, parts := LookShows(c, link, HappenAll(c, link, most), LookAll(c, link, most), text, parts, last);
    }
  }

  /** No event is emitted twice. */
  ghost predicate EmittedOnce<R(!new), K(!new)>(c: Codec<R, K>, events: seq<Event<R>>) {
    forall key :: Occurrences(c, AllEmitted(events), key) <= 1
  }

  lemma {:induction false} EmittedOnceLast<R(!new), K(!new)>(c: Codec<R, K>, most: seq<Event<R>>, last: Event<R>)
    requires EmittedOnce(c, most + [last])
    ensures EmittedOnce(c, most)
    ensures forall r :: r in EmittedBy(last) ==> c.keyOf(r) !in KeysOf(c, AllEmitted(most))
  {
    assert (most + [last])[..|most|] == most;
    assert AllEmitted(most + [last]) == AllEmitted(most) + EmittedBy(last);
    forall key ensures Occurrences(c, AllEmitted(most), key) <= 1 {
      OccurrencesSum(c, AllEmitted(most), EmittedBy(last), key);
    }
    forall r | r in EmittedBy(last) ensures c.keyOf(r) !in KeysOf(c, AllEmitted(most)) {
      assert EmittedBy(last) == [r];
      OccurrencesSum(c, AllEmitted(most), [r], c.keyOf(r));
      OccursOnce(c, r, c.keyOf(r));
      OccursIffKey(c, AllEmitted(most), c.keyOf(r));
    }
  }

  lemma {:induction false} GoodAtFirst<R(!new), K(!new)>(c: Codec<R, K>)
    ensures Good(c, View(Crash.Disk([], Crash.Whole, None, []), []), [], 0, 0)
  {
    assert KeysOf<R, K>(c, []) == {};
    assert Lost(c, View(Crash.Disk([], Crash.Whole, None, []), []), []) == {};
  }

  lemma {:induction false} CountsNext<R>(most: seq<Event<R>>, last: Event<R>)
    ensures AllEmitted(most + [last]) == AllEmitted(most) + EmittedBy(last)
    ensures CutCount(most + [last]) == CutCount(most) + Once(last.Does? && last.op.Cut?)
    ensures TearCount(most + [last]) == TearCount(most) + Once(last.Dies?)
  {
    assert (most + [last])[..|most|] == most;
  }

  lemma {:induction false} AllGood<R(!new), K(!new)>(c: Codec<R, K>, link: Link<R>, events: seq<Event<R>>)
    requires EmittedOnce(c, events)
    ensures Good(c, LookAll(c, link, events), AllEmitted(events), CutCount(events), TearCount(events))
    decreases |events|
  {
    if events == [] {
      GoodAtFirst(c);
    } else {
      var most, last := events[..|events| - 1], events[|events| - 1];
      assert events == most + [last];
      EmittedOnceLast(c, most, last);
      CountsNext(most, last);
      AllGood(c, link, most);
      GoodStep(c, link, LookAll(c, link, most), last, AllEmitted(most), CutCount(most), TearCount(most));
    }
  }

  lemma {:induction false} AllHonest<R, K>(c: Codec<R, K>, link: Link<R>, events: seq<Event<R>>)
    ensures Honest(link, HappenAll(c, link, events).history)
    decreases |events|
  {
    if events != [] {
      var most, last := events[..|events| - 1], events[|events| - 1];
      AllHonest(c, link, most);
      match last
      case Does(op) => HonestStep(c, link, HappenAll(c, link, most), op);
      case Dies(r, _) => HonestSend(link, HappenAll(c, link, most).history, r);
    }
  }

  /** Pending at most once, and within the bound on final attempts. */
  ghost predicate Settled<R(!new), K>(c: Codec<R, K>, pending: seq<R>, history: seq<Attempt<R>>, cuts: nat, key: K) {
    && Occurrences(c, pending, key) <= 1
    && Occurrences(c, pending, key) + Attempts(c, history, key) <= 1 + cuts
  }

  /** From an empty queue, for every run of emits, flushes, flushes cut short, restarts and emits that die
      anywhere in their append, each event emitted once: all but at most two events for each death are
      pending or have had a final attempt; no event is pending twice, or gets more than 1 + (number of
      cut-short flushes) final attempts. What was dropped does not parse, and every verdict is the
      link's own. */
  lemma LossIsBounded<R(!new), K(!new)>(c: Codec<R, K>, link: Link<R>, events: seq<Event<R>>)
    requires Sound(c) && Crash.CrashSafe(c) && EmittedOnce(c, events)
    ensures var n := HappenAll(c, link, events);
      var pending := Contents(c, n.queue);
      && |LostFrom(c, pending, n.history, AllEmitted(events))| <= 2 * TearCount(events)
      && Honest(link, n.history)
      && forall key :: Settled(c, pending, n.history, CutCount(events), key)
  {
    var n, v := HappenAll(c, link, events), LookAll(c, link, events);
    var text, parts := AllShows(c, link, events);
    Crash.ContentsAre(c, n.queue, v.disk, text, parts);
    AllGood(c, link, events);
    AllHonest(c, link, events);
    forall key ensures Settled(c, Contents(c, n.queue), n.history, CutCount(events), key) {
      assert Traced(c, v, AllEmitted(events), CutCount(events), key);
    }
  }
}
