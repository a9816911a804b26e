/** The durable queue: an append-only file of one record a line, with a key index built on first
    use. JSON is a pair of functions; the two predicates below say what is relied on. */
module Queue {
  import opened Prelude
  import Lines
  import Text

  datatype Codec<!R, !K(==)> = Codec(encode: R -> string, decode: string -> Option<R>, keyOf: R -> K)

  /** Encoded records are single non-blank lines (section 7 of RFC 8259: control characters are
      escaped inside strings) that decode to themselves. */
  ghost predicate Sound<R(!new), K>(c: Codec<R, K>) {
    forall r :: '\n' !in c.encode(r) && !Text.Blank(c.encode(r)) && c.decode(c.encode(r)) == Some(r)
  }

  /** A record's text cut short does not parse, alone or with a whole record after it, and neither
      do two records run together. */
  ghost predicate TornSafe<R(!new), K>(c: Codec<R, K>) {
    && (forall r, n :: 0 < n < |c.encode(r)| ==> c.decode(c.encode(r)[..n]) == None)
    && (forall r, r', n :: 0 < n <= |c.encode(r)| ==> c.decode(c.encode(r)[..n] + c.encode(r')) == None)
  }

  // ---- the file ----

  function ParseLine<R, K>(c: Codec<R, K>, line: string): seq<R> {
    if Text.Blank(line) then []
    else match c.decode(line) case Some(r) => [r] case None => []
  }

  function ParseAll<R, K>(c: Codec<R, K>, lines: seq<string>): seq<R> {
    if lines == [] then [] else ParseLine(c, lines[0]) + ParseAll(c, lines[1..])
  }

  function ReadText<R, K>(c: Codec<R, K>, text: string): seq<R> {
    ParseAll(c, Lines.Split(text, '\n'))
  }

  /** The file after writing `rs` to it, in one go or by successive appends. */
  function Render<R, K>(c: Codec<R, K>, rs: seq<R>): string {
    if rs == [] then "" else c.encode(rs[0]) + "\n" + Render(c, rs[1..])
  }

  predicate Framed(text: string) {
    text == "" || text[|text| - 1] == '\n'
  }

  lemma {:induction false} ParseAllSum<R, K>(c: Codec<R, K>, a: seq<string>, b: seq<string>)
    ensures ParseAll(c, a + b) == ParseAll(c, a) + ParseAll(c, b)
  {
    if a == [] {
      assert a + b == b;
    } else {
      assert (a + b)[1..] == a[1..] + b;
      ParseAllSum(c, a[1..], b);
    }
  }

  lemma ParseOne<R, K>(c: Codec<R, K>, line: string)
    ensures ParseAll(c, [line]) == ParseLine(c, line)
    ensures ReadText(c, "") == []
  {
    assert [line][1..] == [] && [""][1..] == [];
    assert ParseAll(c, [""]) == ParseLine(c, "") + ParseAll(c, []);
  }

  lemma ReadAtNewline<R, K>(c: Codec<R, K>, a: string, b: string)
    ensures ReadText(c, a + "\n" + b) == ReadText(c, a) + ReadText(c, b)
  {
    assert a + "\n" + b == a + ['\n'] + b;
    Lines.SplitAtSeparator(a, b, '\n');
    ParseAllSum(c, Lines.Split(a, '\n'), Lines.Split(b, '\n'));
  }

  lemma ReadTerminated<R, K>(c: Codec<R, K>, text: string)
    ensures ReadText(c, text + "\n") == ReadText(c, text)
  {
    ParseOne(c, "");
    ReadAtNewline(c, text, "");
    assert text + "\n" + "" == text + "\n";
  }

  /** What a file holds after more text, on one line, is appended to complete lines. */
  lemma ReadAfter<R, K>(c: Codec<R, K>, text: string, line: string)
    requires Framed(text) && '\n' !in line
    ensures ReadText(c, text + line) == ReadText(c, text) + ParseLine(c, line)
    ensures ReadText(c, text + line + "\n") == ReadText(c, text) + ParseLine(c, line)
  {
    ReadTerminated(c, text + line);
    if text == "" {
      ReadLine(c, line);
      assert text + line == line;
    } else {
      assert text == text[..|text| - 1] + "\n";
      ReadAfterBody(c, text[..|text| - 1], line);
    }
  }

  lemma ReadLine<R, K>(c: Codec<R, K>, line: string)
    requires '\n' !in line
    ensures ReadText(c, line) == ParseLine(c, line)
    ensures ReadText(c, "") + ParseLine(c, line) == ParseLine(c, line)
  {
    Lines.SplitOne(line, '\n');
    ParseOne(c, line);
  }

  lemma ReadAfterBody<R, K>(c: Codec<R, K>, body: string, line: string)
    requires '\n' !in line
    ensures ReadText(c, body + "\n" + line) == ReadText(c, body + "\n") + ParseLine(c, line)
  {
    ReadTerminated(c, body);
    ReadAtNewline(c, body, line);
    ReadLine(c, line);
  }

  /** Reading back a written file gives exactly the records written, in order. */
  lemma {:induction false} RoundTrip<R(!new), K>(c: Codec<R, K>, rs: seq<R>)
    requires Sound(c)
    ensures ReadText(c, Render(c, rs)) == rs
  {
    if rs == [] {
      ParseOne(c, "");
    } else {
      RoundTrip(c, rs[1..]);
      ReadAtNewline(c, c.encode(rs[0]), Render(c, rs[1..]));
      ReadLine(c, c.encode(rs[0]));
      assert [rs[0]] + rs[1..] == rs;
    }
  }

  lemma {:induction false} RenderFramed<R, K>(c: Codec<R, K>, rs: seq<R>)
    ensures Framed(Render(c, rs))
  {
    if rs != [] {
      RenderFramed(c, rs[1..]);
    }
  }

  // ---- the queue ----

  /** What is on disk, and the cached index of the running process. */
  datatype Store<K> = Store(file: Option<string>, index: Option<set<K>>)

  function FileText<K>(q: Store<K>): string {
    if q.file.Some? then q.file.value else ""
  }

  function Contents<R, K>(c: Codec<R, K>, q: Store<K>): seq<R> {
    if q.file.Some? then ReadText(c, q.file.value) else []
  }

  function KeysOf<R, K>(c: Codec<R, K>, rs: seq<R>): set<K> {
    set i | 0 <= i < |rs| :: c.keyOf(rs[i])
  }

  function Index<R, K>(c: Codec<R, K>, q: Store<K>): set<K> {
    if q.index.Some? then q.index.value else KeysOf(c, Contents(c, q))
  }

  function Append<R, K>(c: Codec<R, K>, q: Store<K>, r: R): (Store<K>, bool) {
    var keys := Index(c, q);
    if c.keyOf(r) in keys then (q.(index := Some(keys)), false)
    else (Store(Some(FileText(q) + c.encode(r) + "\n"), Some(keys + {c.keyOf(r)})), true)
  }

  function AppendAll<R, K>(c: Codec<R, K>, q: Store<K>, rs: seq<R>): (Store<K>, nat)
    decreases |rs|
  {
    if rs == [] then (q, 0)
    else
      var (q1, wrote) := Append(c, q, rs[0]);
      var (q2, n) := AppendAll(c, q1, rs[1..]);
      (q2, (if wrote then 1 else 0) + n)
  }

  function Rewritten<R, K>(c: Codec<R, K>, rs: seq<R>): Store<K> {
    if rs == [] then Store(None, Some({})) else Store(Some(Render(c, rs)), Some(KeysOf(c, rs)))
  }

  /** The process that held the index is gone; the file stays. */
  function Restarted<K>(q: Store<K>): Store<K> {
    q.(index := None)
  }

  // ---- as the class it is ----

  class DurableQueue<R, K(==)> {
    const codec: Codec<R, K>
    var file: Option<string>
    var index: Option<set<K>>

    function State(): Store<K>
      reads this
    {
      Store(file, index)
    }

    constructor (codec: Codec<R, K>, file: Option<string>)
      ensures this.codec == codec && State() == Store(file, None)
    {
      this.codec, this.file, this.index := codec, file, None;
    }

    method ReadLines() returns (records: seq<R>)
      ensures records == Contents(codec, State())
    {
      records := [];
      if file.None? {
        return;
      }
      var lines := Lines.Split(file.value, '\n');
      for i := 0 to |lines|
        invariant records == ParseAll(codec, lines[..i])
      {
        assert lines[..i + 1] == lines[..i] + [lines[i]];
        ParseAllSum(codec, lines[..i], [lines[i]]);
        ParseOne(codec, lines[i]);
        if Text.Blank(lines[i]) {
          continue;
        }
        match codec.decode(lines[i]) {
          case Some(r) => records := records + [r];
          case None =>
        }
      }
      assert lines[..|lines|] == lines;
    }

    method KeysIndex() returns (keys: set<K>)
      modifies `index
      ensures keys == Index(codec, old(State())) && State() == old(State()).(index := Some(keys))
    {
      if index.None? {
        var records := ReadLines();
        index := Some(set i | 0 <= i < |records| :: codec.keyOf(records[i]));
      }
      keys := index.value;
    }

    method Enqueue(record: R) returns (wrote: bool)
      modifies this
      ensures (State(), wrote) == Append(codec, old(State()), record)
    {
      var key := codec.keyOf(record);
      var keys := KeysIndex();
      if key in keys {
        return false;
      }
      var text := if file.Some? then file.value else "";
      file := Some(text + codec.encode(record) + "\n");
      index := Some(keys + {key});
      return true;
    }

    method Extend(records: seq<R>) returns (written: nat)
      modifies this
      ensures (State(), written) == AppendAll(codec, old(State()), records)
    {
      written := 0;
      assert records[0..] == records;
      for i := 0 to |records|
        invariant var (end, n) := AppendAll(codec, State(), records[i..]);
          AppendAll(codec, old(State()), records) == (end, written + n)
      {
        assert records[i..][1..] == records[i + 1..];
        var wrote := Enqueue(records[i]);
        if wrote {
          written := written + 1;
        }
      }
    }

    method Clear()
      modifies this
      ensures State() == Store(None, Some({}))
    {
      file, index := None, Some({});
    }

    method Replace(records: seq<R>)
      modifies this
      ensures State() == Rewritten(codec, records)
    {
      if records == [] {
        Clear();
        return;
      }
      file := Some(Render(codec, records));
      index := Some(set i | 0 <= i < |records| :: codec.keyOf(records[i]));
    }

    method Keys() returns (keys: set<K>)
      modifies `index
      ensures keys == Index(codec, old(State())) && State() == old(State()).(index := Some(keys))
    {
      keys := KeysIndex();
    }

    method IsEmpty() returns (empty: bool)
      ensures empty <==> Contents(codec, State()) == []
    {
      var records := ReadLines();
      empty := file.None? || |records| == 0;
    }
  }

  // ---- the queue is a keyed FIFO ----

  /** Complete lines only, and a cached index that is exactly the keys in the file. */
  ghost predicate Inv<R, K>(c: Codec<R, K>, q: Store<K>) {
    Framed(FileText(q)) && (q.index.Some? ==> q.index.value == KeysOf(c, Contents(c, q)))
  }

  /** The plain list a queue stands for: a record is added unless its key is already there. */
  function Add<R, K>(c: Codec<R, K>, list: seq<R>, r: R): (seq<R>, bool) {
    if c.keyOf(r) in KeysOf(c, list) then (list, false) else (list + [r], true)
  }

  /** The records of `rs` with a key that is new, first come first served. */
  function Fresh<R, K>(c: Codec<R, K>, keys: set<K>, rs: seq<R>): seq<R>
    decreases |rs|
  {
    if rs == [] then []
    else if c.keyOf(rs[0]) in keys then Fresh(c, keys, rs[1..])
    else [rs[0]] + Fresh(c, keys + {c.keyOf(rs[0])}, rs[1..])
  }

  datatype Op<R> = Enqueue(r: R) | Extend(rs: seq<R>) | Clear | Replace(rs: seq<R>) | Pending | Keys | Restart
  datatype Answer<R, K> = Wrote(wrote: bool) | Count(n: nat) | Done | Listing(rs: seq<R>) | KeySet(keys: set<K>)

  function Perform<R, K>(c: Codec<R, K>, q: Store<K>, op: Op<R>): (Store<K>, Answer<R, K>) {
    match op
    case Enqueue(r) => var (q', wrote) := Append(c, q, r); (q', Wrote(wrote))
    case Extend(rs) => var (q', n) := AppendAll(c, q, rs); (q', Count(n))
    case Clear => (Store(None, Some({})), Done)
    case Replace(rs) => (Rewritten(c, rs), Done)
    case Pending => (q, Listing(Contents(c, q)))
    case Keys => (q.(index := Some(Index(c, q))), KeySet(Index(c, q)))
    case Restart => (Restarted(q), Done)
  }

  function PerformAll<R, K>(c: Codec<R, K>, q: Store<K>, ops: seq<Op<R>>): (Store<K>, seq<Answer<R, K>>)
    decreases |ops|
  {
    if ops == [] then (q, [])
    else
      var (q1, a) := Perform(c, q, ops[0]);
      var (q2, rest) := PerformAll(c, q1, ops[1..]);
      (q2, [a] + rest)
  }

  /** The same operations on the plain list; a restart does nothing at all to it. */
  function Fifo<R, K>(c: Codec<R, K>, list: seq<R>, op: Op<R>): (seq<R>, Answer<R, K>) {
    match op
    case Enqueue(r) => var (l, wrote) := Add(c, list, r); (l, Wrote(wrote))
    case Extend(rs) => var added := Fresh(c, KeysOf(c, list), rs); (list + added, Count(|added|))
    case Clear => ([], Done)
    case Replace(rs) => (rs, Done)
    case Pending => (list, Listing(list))
    case Keys => (list, KeySet(KeysOf(c, list)))
    case Restart => (list, Done)
  }

  function FifoAll<R, K>(c: Codec<R, K>, list: seq<R>, ops: seq<Op<R>>): (seq<R>, seq<Answer<R, K>>)
    decreases |ops|
  {
    if ops == [] then (list, [])
    else
      var (l1, a) := Fifo(c, list, ops[0]);
      var (l2, rest) := FifoAll(c, l1, ops[1..]);
      (l2, [a] + rest)
  }

  lemma KeysOfSum<R, K>(c: Codec<R, K>, a: seq<R>, b: seq<R>)
    ensures KeysOf(c, a + b) == KeysOf(c, a) + KeysOf(c, b)
  {
    var ab := a + b;
    forall i | 0 <= i < |a| ensures c.keyOf(a[i]) in KeysOf(c, ab) { assert ab[i] == a[i]; }
    forall i | 0 <= i < |b| ensures c.keyOf(b[i]) in KeysOf(c, ab) { assert ab[|a| + i] == b[i]; }
  }

  lemma KeysOfOne<R, K>(c: Codec<R, K>, r: R)
    ensures KeysOf(c, [r]) == {c.keyOf(r)}
  {
    assert [r][0] == r;
  }

  lemma AppendAddsRecord<R(!new), K>(c: Codec<R, K>, q: Store<K>, r: R)
    requires Sound(c) && Inv(c, q)
    ensures var (q', wrote) := Append(c, q, r);
      Inv(c, q') && (Contents(c, q'), wrote) == Add(c, Contents(c, q), r)
  {
    if c.keyOf(r) !in Index(c, q) {
      ReadAfter(c, FileText(q), c.encode(r));
      ParseOne(c, "");
      KeysOfSum(c, Contents(c, q), [r]);
      KeysOfOne(c, r);
    }
  }

  lemma RewriteHolds<R(!new), K>(c: Codec<R, K>, rs: seq<R>)
    requires Sound(c)
    ensures Inv(c, Rewritten(c, rs)) && Contents(c, Rewritten(c, rs)) == rs
  {
    RoundTrip(c, rs);
    RenderFramed(c, rs);
    assert KeysOf(c, []) == {};
  }

  /** One append to complete lines, whatever keys the index knows. */
  lemma AppendStep<R(!new), K>(c: Codec<R, K>, q: Store<K>, r: R)
    requires Sound(c) && Framed(FileText(q))
    ensures var (q', wrote) := Append(c, q, r);
      var added := if wrote then [r] else [];
      && wrote == (c.keyOf(r) !in Index(c, q))
      && Framed(FileText(q')) && Contents(c, q') == Contents(c, q) + added
      && q'.index == Some(Index(c, q) + {c.keyOf(r)})
  {
    if c.keyOf(r) in Index(c, q) {
      assert Index(c, q) + {c.keyOf(r)} == Index(c, q);
      assert Contents(c, q) + [] == Contents(c, q);
    } else {
      ParseOne(c, "");
      ReadAfter(c, FileText(q), c.encode(r));
    }
  }

  lemma FreshStep<R, K>(c: Codec<R, K>, list: seq<R>, keys: set<K>, r: R, rest: seq<R>)
    ensures c.keyOf(r) in keys ==> keys + {c.keyOf(r)} == keys
    ensures list + [r] + rest == list + ([r] + rest)
    ensures keys + {c.keyOf(r)} + KeysOf(c, rest) == keys + KeysOf(c, [r] + rest)
  {
    KeysOfSum(c, [r], rest);
    KeysOfOne(c, r);
  }

  /** Appending many records to complete lines when the index knows some set of keys, whether or not
      these are the keys of the file: exactly the records with fresh keys are added. */
  lemma {:induction false} AppendAllAddsFresh<R(!new), K>(c: Codec<R, K>, q: Store<K>, rs: seq<R>)
    requires Sound(c) && Framed(FileText(q))
    ensures var (q', n) := AppendAll(c, q, rs);
      var added := Fresh(c, Index(c, q), rs);
      && Framed(FileText(q')) && Contents(c, q') == Contents(c, q) + added && n == |added|
      && (rs != [] ==> q'.index.Some?)
      && Index(c, q') == Index(c, q) + KeysOf(c, added)
    decreases |rs|
  {
    if rs != [] {
      var (q1, wrote) := Append(c, q, rs[0]);
      AppendStep(c, q, rs[0]);
      AppendAllAddsFresh(c, q1, rs[1..]);
      FreshStep(c, Contents(c, q), Index(c, q), rs[0], Fresh(c, q1.index.value, rs[1..]));
    }
  }

  lemma PerformIsFifo<R(!new), K>(c: Codec<R, K>, q: Store<K>, op: Op<R>)
    requires Sound(c) && Inv(c, q)
    ensures var (q', a) := Perform(c, q, op);
      Inv(c, q') && (Contents(c, q'), a) == Fifo(c, Contents(c, q), op)
  {
    match op
    case Enqueue(r) => AppendAddsRecord(c, q, r);
    case Extend(rs) =>
      AppendAllAddsFresh(c, q, rs);
      var added := Fresh(c, Index(c, q), rs);
      KeysOfSum(c, Contents(c, q), added);
    case Replace(rs) => RewriteHolds(c, rs);
    case _ => assert KeysOf<R, K>(c, []) == {};
  }

  /** For every sequence of operations and restarts by a sole writer, every answer and the final
      contents are those of the plain list, and the cached index stays exact. */
  lemma {:induction false} QueueIsKeyedFifo<R(!new), K>(c: Codec<R, K>, q: Store<K>, ops: seq<Op<R>>)
    requires Sound(c) && Inv(c, q)
    ensures var (q', answers) := PerformAll(c, q, ops);
      Inv(c, q') && (Contents(c, q'), answers) == FifoAll(c, Contents(c, q), ops)
    decreases |ops|
  {
    if ops != [] {
      PerformIsFifo(c, q, ops[0]);
      QueueIsKeyedFifo(c, Perform(c, q, ops[0]).0, ops[1..]);
    }
  }

  // ---- a torn append ----

  /** The process dies after `n` characters of the line for `r` reached the file. */
  function TornAppend<R, K>(c: Codec<R, K>, q: Store<K>, r: R, n: nat): Store<K>
    requires n <= |c.encode(r)| + 1
  {
    Store(Some(FileText(q) + (c.encode(r) + "\n")[..n]), None)
  }

  lemma ReadTorn<R(!new), K>(c: Codec<R, K>, text: string, r: R, n: nat)
    requires Sound(c) && TornSafe(c) && Framed(text) && 0 < n <= |c.encode(r)|
    ensures ReadText(c, text + c.encode(r)[..n]) == ReadText(c, text) + if n == |c.encode(r)| then [r] else []
    ensures forall r' :: ReadText(c, text + c.encode(r)[..n] + c.encode(r') + "\n") == ReadText(c, text)
  {
    var torn := c.encode(r)[..n];
    ReadAfter(c, text, torn);
    if n == |c.encode(r)| {
      assert torn == c.encode(r);
    }
    forall r' ensures ReadText(c, text + torn + c.encode(r') + "\n") == ReadText(c, text) {
      assert text + torn + c.encode(r') == text + (torn + c.encode(r'));
      ReadAfter(c, text, torn + c.encode(r'));
      assert ParseLine(c, torn + c.encode(r')) == [];
    }
  }

  /** A torn append followed by a restart and any number of enqueues. If the line was cut inside,
      the torn record is gone and the next fresh record is lost with it; if only the newline was
      cut, the torn record is there until the next fresh record joins it, and then both are lost.
      Nothing else is ever lost. */
  lemma TornAppendDamage<R(!new), K>(c: Codec<R, K>, q: Store<K>, r: R, n: nat, rs: seq<R>)
    requires Sound(c) && TornSafe(c) && Inv(c, q) && n <= |c.encode(r)| + 1
    ensures var before := Contents(c, q);
      var survived := before + if n < |c.encode(r)| then [] else [r];
      var added := Fresh(c, KeysOf(c, survived), rs);
      Contents(c, AppendAll(c, TornAppend(c, q, r, n), rs).0)
        == if 0 < n <= |c.encode(r)| && added != [] then before + added[1..] else survived + added
  {
    ParseOne(c, "");
    if 0 < n <= |c.encode(r)| {
      assert (c.encode(r) + "\n")[..n] == c.encode(r)[..n];
      ReadTorn(c, FileText(q), r, n);
      TornTail(c, TornAppend(c, q, r, n), FileText(q), r, n, rs);
    } else {
      CleanCut(c, q, r, n);
      AppendAllAddsFresh(c, TornAppend(c, q, r, n), rs);
    }
  }

  /** Nothing but the torn record itself is lost exactly when no text of it or all of it reached the
      file, or nothing fresh was enqueued afterwards. */
  lemma TornLosesOnlyItself<R(!new), K>(c: Codec<R, K>, q: Store<K>, r: R, n: nat, rs: seq<R>)
    requires Sound(c) && TornSafe(c) && Inv(c, q) && n <= |c.encode(r)| + 1
    ensures var survived := Contents(c, q) + if n < |c.encode(r)| then [] else [r];
      var added := Fresh(c, KeysOf(c, survived), rs);
      Contents(c, AppendAll(c, TornAppend(c, q, r, n), rs).0) == survived + added <==>
        n == 0 || n > |c.encode(r)| || added == []
  {
    TornAppendDamage(c, q, r, n, rs);
    var survived := Contents(c, q) + if n < |c.encode(r)| then [] else [r];
    var added := Fresh(c, KeysOf(c, survived), rs);
    if added != [] {
      assert |Contents(c, q) + added[1..]| < |survived + added|;
    } else {
      assert survived + added == survived;
    }
  }

  lemma CleanCut<R(!new), K>(c: Codec<R, K>, q: Store<K>, r: R, n: nat)
    requires Sound(c) && Framed(FileText(q)) && (n == 0 || n == |c.encode(r)| + 1)
    ensures var crashed := TornAppend(c, q, r, n);
      Framed(FileText(crashed)) && Contents(c, crashed) == Contents(c, q) + if n == 0 then [] else [r]
  {
    ParseOne(c, "");
    if n == 0 {
      assert FileText(q) + "" == FileText(q);
    } else {
      assert FileText(q) + (c.encode(r) + "\n") == FileText(q) + c.encode(r) + "\n";
      assert (c.encode(r) + "\n")[..n] == c.encode(r) + "\n";
      ReadAfter(c, FileText(q), c.encode(r));
    }
  }

  lemma {:induction false} TornTail<R(!new), K>(c: Codec<R, K>, q: Store<K>, text: string, r: R, n: nat, rs: seq<R>)
    requires Sound(c) && TornSafe(c) && Framed(text) && 0 < n <= |c.encode(r)|
    requires q.file == Some(text + c.encode(r)[..n])
    ensures var added := Fresh(c, Index(c, q), rs);
      Contents(c, AppendAll(c, q, rs).0) == if added == [] then Contents(c, q) else ReadText(c, text) + added[1..]
    decreases |rs|
  {
    if rs != [] {
      var (q1, wrote) := Append(c, q, rs[0]);
      if wrote {
        ReadTorn(c, text, r, n);
        AppendAllAddsFresh(c, q1, rs[1..]);
      } else {
        TornTail(c, q1, text, r, n, rs[1..]);
      }
    }
  }
}
