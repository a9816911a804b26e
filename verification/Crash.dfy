/** The durable queue in a process that dies in the middle of appends, any number of times. */
module Crash {
  import opened Prelude
  import opened Queue
  import Text

  // ---- what is relied on ----

  /** What may reach the file of one record's text: some of it, or all. */
  ghost predicate Piece<R(!new), K>(c: Codec<R, K>, s: string) {
    exists r, n :: 0 < n <= |c.encode(r)| && s == c.encode(r)[..n]
  }

  function Concat(parts: seq<string>): string {
    if parts == [] then "" else Concat(parts[..|parts| - 1]) + parts[|parts| - 1]
  }

  ghost predicate Pieces<R(!new), K>(c: Codec<R, K>, parts: seq<string>) {
    forall p :: p in parts ==> Piece(c, p)
  }

  /** A record's text cut short does not parse, and neither do two or more pieces run together. */
  ghost predicate CrashSafe<R(!new), K>(c: Codec<R, K>) {
    && (forall r, n :: 0 < n < |c.encode(r)| ==> c.decode(c.encode(r)[..n]) == None)
    && (forall parts :: |parts| >= 2 && Pieces(c, parts) ==> c.decode(Concat(parts)) == None)
  }

  lemma ConcatOne(s: string)
    ensures Concat([s]) == s && Concat([]) == ""
  {
    assert [s][..0] == [];
    assert Concat([s]) == Concat([]) + s;
  }

  lemma ConcatAfter(parts: seq<string>, s: string)
    ensures Concat(parts + [s]) == Concat(parts) + s
  {
    assert (parts + [s])[..|parts|] == parts;
  }

  lemma PieceIs<R(!new), K>(c: Codec<R, K>, r: R, n: nat)
    requires 0 < n <= |c.encode(r)|
    ensures Piece(c, c.encode(r)[..n])
  {
  }

  lemma EncodedIsPiece<R(!new), K>(c: Codec<R, K>, r: R)
    requires Sound(c)
    ensures c.encode(r) != "" && Piece(c, c.encode(r))
  {
    assert !Text.Blank(c.encode(r));
    PieceIs(c, r, |c.encode(r)|);
    assert c.encode(r)[..|c.encode(r)|] == c.encode(r);
  }

  /** This covers what one torn append relies on. */
  lemma CrashSafeIsTornSafe<R(!new), K>(c: Codec<R, K>)
    requires Sound(c) && CrashSafe(c)
    ensures TornSafe(c)
  {
    forall r, r', n | 0 < n <= |c.encode(r)|
      ensures c.decode(c.encode(r)[..n] + c.encode(r')) == None
    {
      var parts := [c.encode(r)[..n]] + [c.encode(r')];
      PieceIs(c, r, n);
      EncodedIsPiece(c, r');
      assert Pieces(c, parts);
      ConcatOne(c.encode(r)[..n]);
      ConcatAfter([c.encode(r)[..n]], c.encode(r'));
    }
  }


  /** A codec for two records, to show that all of this can be met at once. */
  function Bits(): Codec<bool, bool> {
    Codec(b => if b then "{1}" else "{0}",
          line => if line == "{1}" then Some(true) else if line == "{0}" then Some(false) else None,
          b => b)
  }

  lemma BitsPiece(s: string)
    requires Piece(Bits(), s)
    ensures s != "" && s[0] == '{'
  {
  }

  lemma BitsLater(parts: seq<string>)
    requires |parts| >= 2 && Pieces(Bits(), parts)
    ensures exists k :: 0 < k < |Concat(parts)| && Concat(parts)[k] == '{'
  {
    var most, last := parts[..|parts| - 1], parts[|parts| - 1];
    assert last in parts && most[|most| - 1] in parts;
    BitsPiece(last);
    BitsPiece(most[|most| - 1]);
    assert Concat(most) == Concat(most[..|most| - 1]) + most[|most| - 1];
    assert Concat(parts)[|Concat(most)|] == '{';
  }

  lemma BitsDecode(line: string)
    requires Bits().decode(line).Some?
    ensures |line| == 3 && forall k :: 0 < k < 3 ==> line[k] != '{'
  {
    assert line == "{1}" || line == "{0}";
  }

  lemma BitsSound()
    ensures Sound(Bits())
  {
    forall b ensures '\n' !in Bits().encode(b) && !Text.Blank(Bits().encode(b)) {
      var line := Bits().encode(b);
      assert line == if b then "{1}" else "{0}";
      assert line[0] == '{' && !Text.Space(line[0]) && line[1] != '\n' && line[2] == '}';
    }
    assert "{1}"[1] != "{0}"[1];
  }

  lemma BitsAreSafe()
    ensures Sound(Bits()) && CrashSafe(Bits()) && TornSafe(Bits())
  {
    BitsSound();
    forall b, n | 0 < n < |Bits().encode(b)| ensures Bits().decode(Bits().encode(b)[..n]) == None {
      assert |Bits().encode(b)[..n]| < 3;
    }
    forall parts | |parts| >= 2 && Pieces(Bits(), parts) ensures Bits().decode(Concat(parts)) == None {
      BitsLater(parts);
      if Bits().decode(Concat(parts)).Some? {
        BitsDecode(Concat(parts));
      }
    }
    CrashSafeIsTornSafe(Bits());
  }

  lemma {:induction false} ConcatOneLine<R(!new), K>(c: Codec<R, K>, parts: seq<string>)
    requires Sound(c) && Pieces(c, parts)
    ensures '\n' !in Concat(parts)
  {
    if parts != [] {
      var most, last := parts[..|parts| - 1], parts[|parts| - 1];
      assert last in parts && forall p :: p in most ==> p in parts;
      ConcatOneLine(c, most);
      var r, n :| 0 < n <= |c.encode(r)| && last == c.encode(r)[..n];
      assert '\n' !in c.encode(r);
    }
  }

  // ---- the process that dies ----

  /** An enqueue that dies after at most `n` characters of its line reached the file. */
  function TornPut<R, K>(c: Codec<R, K>, q: Store<K>, r: R, n: nat): Store<K> {
    if c.keyOf(r) in Index(c, q) then Restarted(q)
    else TornAppend(c, q, r, if n <= |c.encode(r)| + 1 then n else |c.encode(r)| + 1)
  }

  datatype Event<R> = Does(op: Op<R>) | Dies(r: R, n: nat)

  function Happen<R, K>(c: Codec<R, K>, q: Store<K>, e: Event<R>): (Store<K>, Answer<R, K>) {
    match e
    case Does(op) => Perform(c, q, op)
    case Dies(r, n) => (TornPut(c, q, r, n), Done)
  }

  function HappenAll<R, K>(c: Codec<R, K>, q: Store<K>, events: seq<Event<R>>): (Store<K>, seq<Answer<R, K>>)
    decreases |events|
  {
    if events == [] then (q, [])
    else
      var (q1, a) := Happen(c, q, events[0]);
      var (q2, rest) := HappenAll(c, q1, events[1..]);
      (q2, [a] + rest)
  }

  function Tears<R>(events: seq<Event<R>>): nat
    decreases |events|
  {
    if events == [] then 0 else (if events[0].Dies? then 1 else 0) + Tears(events[1..])
  }

  // ---- the same on plain lists ----

  /** How the file ends: after a complete line, after a complete record without its newline, or in text
      that does not parse. */
  datatype Tail<R> = Whole | Dangling(r: R) | Broken

  /** The records on complete lines, the tail, the cached index, and all the records that were appended,
      whole or torn, since the file was last cleared or rewritten. */
  datatype Disk<R, K> = Disk(list: seq<R>, tail: Tail<R>, index: Option<set<K>>, given: seq<R>)

  function Visible<R, K>(d: Disk<R, K>): seq<R> {
    d.list + if d.tail.Dangling? then [d.tail.r] else []
  }

  function Known<R, K>(c: Codec<R, K>, d: Disk<R, K>): set<K> {
    if d.index.Some? then d.index.value else KeysOf(c, Visible(d))
  }

  /** A record put after anything but a complete line is lost with it. */
  function Put<R, K>(c: Codec<R, K>, d: Disk<R, K>, r: R): (Disk<R, K>, bool) {
    var keys := Known(c, d);
    if c.keyOf(r) in keys then (d.(index := Some(keys)), false)
    else (Disk(if d.tail.Whole? then d.list + [r] else d.list, Whole, Some(keys + {c.keyOf(r)}), d.given + [r]), true)
  }

  function PutAll<R, K>(c: Codec<R, K>, d: Disk<R, K>, rs: seq<R>): (Disk<R, K>, nat)
    decreases |rs|
  {
    if rs == [] then (d, 0)
    else
      var (d1, wrote) := Put(c, d, rs[0]);
      var (d2, n) := PutAll(c, d1, rs[1..]);
      (d2, (if wrote then 1 else 0) + n)
  }

  function Tear<R, K>(c: Codec<R, K>, d: Disk<R, K>, r: R, n: nat): Disk<R, K> {
    var length := |c.encode(r)|;
    if c.keyOf(r) in Known(c, d) then d.(index := None)
    else if n > length then Put(c, d, r).0.(index := None)
    else
      var tail := if n == 0 then d.tail else if d.tail.Whole? && n == length then Dangling(r) else Broken;
      Disk(d.list, tail, None, d.given + [r])
  }

  function Touch<R, K>(c: Codec<R, K>, d: Disk<R, K>, e: Event<R>): (Disk<R, K>, Answer<R, K>) {
    match e
    case Dies(r, n) => (Tear(c, d, r, n), Done)
    case Does(Enqueue(r)) => var (d', wrote) := Put(c, d, r); (d', Wrote(wrote))
    case Does(Extend(rs)) => var (d', n) := PutAll(c, d, rs); (d', Count(n))
    case Does(Clear) => (Disk([], Whole, Some({}), []), Done)
    case Does(Replace(rs)) => (Disk(rs, Whole, Some(KeysOf(c, rs)), rs), Done)
    case Does(Pending) => (d, Listing(Visible(d)))
    case Does(Keys) => (d.(index := Some(Known(c, d))), KeySet(Known(c, d)))
    case Does(Restart) => (d.(index := None), Done)
  }

  function TouchAll<R, K>(c: Codec<R, K>, d: Disk<R, K>, events: seq<Event<R>>): (Disk<R, K>, seq<Answer<R, K>>)
    decreases |events|
  {
    if events == [] then (d, [])
    else
      var (d1, a) := Touch(c, d, events[0]);
      var (d2, rest) := TouchAll(c, d1, events[1..]);
      (d2, [a] + rest)
  }

  // ---- the file follows the list ----

  /** The file is `text`, complete lines that hold the list, and then `parts`, which make up its tail. */
  ghost predicate Holds<R(!new), K>(c: Codec<R, K>, q: Store<K>, d: Disk<R, K>, text: string, parts: seq<string>) {
    && Framed(text) && FileText(q) == text + Concat(parts) && Pieces(c, parts)
    && ReadText(c, text) == d.list && q.index == d.index && TailIs(c, d.tail, parts)
  }

  predicate TailIs<R, K>(c: Codec<R, K>, tail: Tail<R>, parts: seq<string>) {
    match tail
    case Whole => parts == []
    case Dangling(r) => parts == [c.encode(r)]
    case Broken => parts != [] && (|parts| == 1 ==> c.decode(parts[0]).None?)
  }

  lemma TailParses<R(!new), K>(c: Codec<R, K>, parts: seq<string>)
    requires CrashSafe(c) && Pieces(c, parts) && parts != [] && (|parts| == 1 ==> c.decode(parts[0]) == None)
    ensures ParseLine(c, Concat(parts)) == []
  {
    if |parts| == 1 {
      ConcatOne(parts[0]);
      assert parts == [parts[0]];
    }
  }

  lemma {:induction false} ContentsAre<R(!new), K>(c: Codec<R, K>, q: Store<K>, d: Disk<R, K>, text: string,
                                                   parts: seq<string>)
    requires Sound(c) && CrashSafe(c) && Holds(c, q, d, text, parts)
    ensures Contents(c, q) == Visible(d) && Index(c, q) == Known(c, d)
  {
    ParseOne(c, "");
    ConcatOneLine(c, parts);
    ReadAfter(c, text, Concat(parts));
    match d.tail
    case Whole => assert text + Concat(parts) == text;
    case Dangling(r) => ConcatOne(c.encode(r));
    case Broken => TailParses(c, parts);
  }

  lemma WholeHolds<R(!new), K>(c: Codec<R, K>, q: Store<K>, d: Disk<R, K>, text: string)
    requires Framed(text) && FileText(q) == text && ReadText(c, text) == d.list && q.index == d.index && d.tail.Whole?
    ensures Holds(c, q, d, text, [])
  {
    assert text + "" == text;
  }

  lemma {:induction false} PutHolds<R(!new), K>(c: Codec<R, K>, q: Store<K>, d: Disk<R, K>, text: string,
                                                parts: seq<string>, r: R)
    returns (text': string, parts': seq<string>)
    requires Sound(c) && CrashSafe(c) && Holds(c, q, d, text, parts)
    ensures var (q', wrote) := Append(c, q, r);
      var (d', wrote') := Put(c, d, r);
      wrote == wrote' && Holds(c, q', d', text', parts')
  {
    ContentsAre(c, q, d, text, parts);
    text', parts' := text, parts;
    if c.keyOf(r) !in Known(c, d) {
      text', parts' := text + Concat(parts) + c.encode(r) + "\n", [];
      LineAppended(c, d, text, parts, r);
      WholeHolds(c, Append(c, q, r).0, Put(c, d, r).0, text');
    }
  }

  lemma {:induction false} LineAppended<R(!new), K>(c: Codec<R, K>, d: Disk<R, K>, text: string, parts: seq<string>,
                                                    r: R)
    requires Sound(c) && CrashSafe(c) && Framed(text) && Pieces(c, parts) && ReadText(c, text) == d.list
    ensures ReadText(c, text + Concat(parts) + c.encode(r) + "\n") == if parts == [] then d.list + [r] else d.list
  {
    var all := parts + [c.encode(r)];
    EncodedIsPiece(c, r);
    ConcatAfter(parts, c.encode(r));
    ConcatOneLine(c, all);
    ReadAfter(c, text, Concat(all));
    assert text + Concat(parts) + c.encode(r) == text + Concat(all);
    if parts == [] {
      assert Concat(all) == c.encode(r);
    } else {
      TailParses(c, all);
    }
  }

  lemma {:induction false} PutAllHolds<R(!new), K>(c: Codec<R, K>, q: Store<K>, d: Disk<R, K>, text: string,
                                                   parts: seq<string>, rs: seq<R>)
    returns (text': string, parts': seq<string>)
    requires Sound(c) && CrashSafe(c) && Holds(c, q, d, text, parts)
    ensures var (q', n) := AppendAll(c, q, rs);
      var (d', n') := PutAll(c, d, rs);
      n == n' && Holds(c, q', d', text', parts')
    decreases |rs|
  {
    text', parts' := text, parts;
    if rs != [] {
      text', parts' := PutHolds(c, q, d, text, parts, rs[0]);
      text', parts' := PutAllHolds(c, Append(c, q, rs[0]).0, Put(c, d, rs[0]).0, text', parts', rs[1..]);
    }
  }

  lemma {:induction false} TearHolds<R(!new), K>(c: Codec<R, K>, q: Store<K>, d: Disk<R, K>, text: string,
                                                 parts: seq<string>, r: R, n: nat)
    returns (text': string, parts': seq<string>)
    requires Sound(c) && CrashSafe(c) && Holds(c, q, d, text, parts)
    ensures Holds(c, TornPut(c, q, r, n), Tear(c, d, r, n), text', parts')
  {
    ContentsAre(c, q, d, text, parts);
    text', parts' := text, parts;
    if c.keyOf(r) !in Known(c, d) {
      var line := c.encode(r);
      TornFile(c, q, r, n);
      if n > |line| {
        text', parts' := PutHolds(c, q, d, text, parts, r);
      } else if n > 0 {
        parts' := parts + [line[..n]];
        TailGrows(c, q, d, text, parts, r, n, Tear(c, d, r, n).tail);
      }
    }
  }

  /** What is in the file after a torn append. */
  lemma {:induction false} TornFile<R, K>(c: Codec<R, K>, q: Store<K>, r: R, n: nat)
    requires c.keyOf(r) !in Index(c, q)
    ensures var line := c.encode(r);
      TornPut(c, q, r, n) ==
        Store(Some(if n > |line| then FileText(q) + line + "\n"
                   else if n == 0 then FileText(q) else FileText(q) + line[..n]), None)
  {
    var line := c.encode(r);
    TornText(line, if n <= |line| + 1 then n else |line| + 1);
    assert FileText(q) + (line + "\n") == FileText(q) + line + "\n";
    assert FileText(q) + "" == FileText(q) && line[..0] == "";
  }

  lemma TornText(line: string, n: nat)
    requires n <= |line| + 1
    ensures (line + "\n")[..n] == if n <= |line| then line[..n] else line + "\n"
  {
  }

  lemma TailNext<R(!new), K>(c: Codec<R, K>, tail: Tail<R>, parts: seq<string>, r: R, n: nat)
    requires CrashSafe(c) && TailIs(c, tail, parts) && 0 < n <= |c.encode(r)|
    ensures TailIs(c, if tail.Whole? && n == |c.encode(r)| then Dangling(r) else Broken, parts + [c.encode(r)[..n]])
  {
    if n == |c.encode(r)| {
      assert c.encode(r)[..n] == c.encode(r);
    }
  }

  lemma PiecesNext<R(!new), K>(c: Codec<R, K>, parts: seq<string>, r: R, n: nat)
    requires Pieces(c, parts) && 0 < n <= |c.encode(r)|
    ensures Pieces(c, parts + [c.encode(r)[..n]])
  {
    PieceIs(c, r, n);
    forall p | p in parts + [c.encode(r)[..n]] ensures Piece(c, p) {
      assert p in parts || p == c.encode(r)[..n];
    }
  }

  lemma TextGrows(file: string, text: string, parts: seq<string>, piece: string)
    requires file == text + Concat(parts)
    ensures file + piece == text + Concat(parts + [piece])
  {
    ConcatAfter(parts, piece);
    assert text + Concat(parts) + piece == text + (Concat(parts) + piece);
  }

  lemma {:induction false} TailGrows<R(!new), K>(c: Codec<R, K>, q: Store<K>, d: Disk<R, K>, text: string,
                                                 parts: seq<string>, r: R, n: nat, tail: Tail<R>)
    requires CrashSafe(c) && Holds(c, q, d, text, parts) && 0 < n <= |c.encode(r)|
    requires tail == if d.tail.Whole? && n == |c.encode(r)| then Dangling(r) else Broken
    ensures Holds(c, Store(Some(FileText(q) + c.encode(r)[..n]), None), Disk(d.list, tail, None, d.given + [r]), text,
                  parts + [c.encode(r)[..n]])
  {
    TailNext(c, d.tail, parts, r, n);
    PiecesNext(c, parts, r, n);
    TextGrows(FileText(q), text, parts, c.encode(r)[..n]);
  }

  lemma IndexHolds<R(!new), K>(c: Codec<R, K>, q: Store<K>, d: Disk<R, K>, text: string, parts: seq<string>,
                               index: Option<set<K>>)
    requires Holds(c, q, d, text, parts)
    ensures Holds(c, q.(index := index), d.(index := index), text, parts)
  {
  }

  lemma {:induction false} TouchHolds<R(!new), K>(c: Codec<R, K>, q: Store<K>, d: Disk<R, K>, text: string,
                                                  parts: seq<string>, e: Event<R>)
    returns (text': string, parts': seq<string>)
    requires Sound(c) && CrashSafe(c) && Holds(c, q, d, text, parts)
    ensures Happen(c, q, e).1 == Touch(c, d, e).1
    ensures Holds(c, Happen(c, q, e).0, Touch(c, d, e).0, text', parts')
  {
    text', parts' := text, parts;
    match e {
      case Dies(r, n) => text', parts' := TearHolds(c, q, d, text, parts, r, n);
      case Does(op) => text', parts' := OpHolds(c, q, d, text, parts, op);
    }
  }

  lemma {:induction false} OpHolds<R(!new), K>(c: Codec<R, K>, q: Store<K>, d: Disk<R, K>, text: string,
                                               parts: seq<string>, op: Op<R>)
    returns (text': string, parts': seq<string>)
    requires Sound(c) && CrashSafe(c) && Holds(c, q, d, text, parts)
    ensures Perform(c, q, op).1 == Touch(c, d, Does(op)).1
    ensures Holds(c, Perform(c, q, op).0, Touch(c, d, Does(op)).0, text', parts')
  {
    text', parts' := text, parts;
    match op {
      case Enqueue(r) => text', parts' := PutHolds(c, q, d, text, parts, r);
      case Extend(rs) => text', parts' := PutAllHolds(c, q, d, text, parts, rs);
      case Clear => text', parts' := ReplaceHolds(c, []);
      case Replace(rs) => text', parts' := ReplaceHolds(c, rs);
      case Pending => ContentsAre(c, q, d, text, parts);
      case Keys =>
        ContentsAre(c, q, d, text, parts);
        IndexHolds(c, q, d, text, parts, Some(Known(c, d)));
      case Restart => IndexHolds(c, q, d, text, parts, None);
    }
  }

  lemma ReplaceHolds<R(!new), K>(c: Codec<R, K>, rs: seq<R>) returns (text': string, parts': seq<string>)
    requires Sound(c)
    ensures Holds(c, Rewritten(c, rs), Disk(rs, Whole, Some(KeysOf(c, rs)), rs), text', parts')
    ensures KeysOf<R, K>(c, []) == {}
  {
    text', parts' := Render(c, rs), [];
    RoundTrip(c, rs);
    RenderFramed(c, rs);
    assert KeysOf<R, K>(c, []) == {};
    WholeHolds(c, Rewritten(c, rs), Disk(rs, Whole, Some(KeysOf(c, rs)), rs), text');
  }

  lemma {:induction false} TouchAllHolds<R(!new), K>(c: Codec<R, K>, q: Store<K>, d: Disk<R, K>, text: string,
                                                     parts: seq<string>, events: seq<Event<R>>)
    returns (text': string, parts': seq<string>)
    requires Sound(c) && CrashSafe(c) && Holds(c, q, d, text, parts)
    ensures var (q', answers) := HappenAll(c, q, events);
      var (d', answers') := TouchAll(c, d, events);
      answers == answers' && Holds(c, q', d', text', parts')
    decreases |events|
  {
    text', parts' := text, parts;
    if events != [] {
      text', parts' := TouchHolds(c, q, d, text, parts, events[0]);
      var q1, d1 := Happen(c, q, events[0]).0, Touch(c, d, events[0]).0;
      text', parts' := TouchAllHolds(c, q1, d1, text', parts', events[1..]);
    }
  }

  // ---- how much is lost ----

  /** `a` is `b` with some elements left out. */
  predicate Subsequence<T(==)>(a: seq<T>, b: seq<T>)
    decreases |b|
  {
    if b == [] then a == []
    else
      || Subsequence(a, b[..|b| - 1])
      || (a != [] && a[|a| - 1] == b[|b| - 1] && Subsequence(a[..|a| - 1], b[..|b| - 1]))
  }

  /** How many records the next append takes with it. */
  function AtRisk<R>(tail: Tail<R>): nat {
    match tail case Whole => 0 case Dangling(_) => 2 case Broken => 1
  }

  /** What the file holds is what it was given, in order, less at most two records for each tear. */
  ghost predicate Ledger<R(!new), K>(d: Disk<R, K>, tears: nat) {
    Subsequence(Visible(d), d.given) && |d.given| + AtRisk(d.tail) <= |Visible(d)| + 2 * tears
  }

  lemma {:induction false} SubsequenceGrows<T>(a: seq<T>, b: seq<T>, x: T)
    requires Subsequence(a, b)
    ensures Subsequence(a, b + [x]) && Subsequence(a + [x], b + [x])
  {
    assert (b + [x])[..|b|] == b && (a + [x])[..|a|] == a;
  }

  lemma {:induction false} SubsequenceLess<T>(a: seq<T>, b: seq<T>)
    requires a != [] && Subsequence(a, b)
    ensures Subsequence(a[..|a| - 1], b)
    decreases |b|
  {
    if Subsequence(a, b[..|b| - 1]) {
      SubsequenceLess(a, b[..|b| - 1]);
    }
  }

  lemma {:induction false} SubsequenceSelf<T>(a: seq<T>)
    ensures Subsequence(a, a)
  {
    if a != [] {
      SubsequenceSelf(a[..|a| - 1]);
    }
  }

  lemma {:induction false} ListIsPart<R(!new), K>(d: Disk<R, K>)
    requires Subsequence(Visible(d), d.given)
    ensures Subsequence(d.list, d.given)
  {
    if d.tail.Dangling? {
      SubsequenceLess(Visible(d), d.given);
      assert Visible(d)[..|Visible(d)| - 1] == d.list;
    } else {
      assert Visible(d) == d.list;
    }
  }

  lemma {:induction false} PutKeeps<R(!new), K>(c: Codec<R, K>, d: Disk<R, K>, r: R, tears: nat)
    requires Ledger(d, tears)
    ensures Ledger(Put(c, d, r).0, tears)
  {
    if c.keyOf(r) !in Known(c, d) {
      ListIsPart(d);
      SubsequenceGrows(d.list, d.given, r);
      assert Visible(Put(c, d, r).0) == Put(c, d, r).0.list;
    }
  }

  lemma {:induction false} PutAllKeeps<R(!new), K>(c: Codec<R, K>, d: Disk<R, K>, rs: seq<R>, tears: nat)
    requires Ledger(d, tears)
    ensures Ledger(PutAll(c, d, rs).0, tears)
    decreases |rs|
  {
    if rs != [] {
      PutKeeps(c, d, rs[0], tears);
      PutAllKeeps(c, Put(c, d, rs[0]).0, rs[1..], tears);
    }
  }

  lemma {:induction false} TearKeeps<R(!new), K>(c: Codec<R, K>, d: Disk<R, K>, r: R, n: nat, tears: nat)
    requires Ledger(d, tears)
    ensures Ledger(Tear(c, d, r, n), tears + 1)
  {
    var d' := Tear(c, d, r, n);
    if c.keyOf(r) in Known(c, d) {
      assert Visible(d') == Visible(d);
    } else if n > |c.encode(r)| {
      PutKeeps(c, d, r, tears);
      assert Visible(d') == Visible(Put(c, d, r).0);
    } else {
      ListIsPart(d);
      SubsequenceGrows(d.list, d.given, r);
      SubsequenceGrows(Visible(d), d.given, r);
      assert d'.tail.Broken? ==> Visible(d') == d.list;
    }
  }

  lemma {:induction false} TouchKeeps<R(!new), K>(c: Codec<R, K>, d: Disk<R, K>, e: Event<R>, tears: nat)
    requires Ledger(d, tears)
    ensures Ledger(Touch(c, d, e).0, tears + if e.Dies? then 1 else 0)
  {
    match e
    case Dies(r, n) => TearKeeps(c, d, r, n, tears);
    case Does(Enqueue(r)) => PutKeeps(c, d, r, tears);
    case Does(Extend(rs)) => PutAllKeeps(c, d, rs, tears);
    case Does(Replace(rs)) =>
      SubsequenceSelf(rs);
      assert Visible(Touch(c, d, e).0) == rs;
    case Does(_) =>
  }

  lemma {:induction false} TouchAllKeeps<R(!new), K>(c: Codec<R, K>, d: Disk<R, K>, events: seq<Event<R>>, tears: nat)
    requires Ledger(d, tears)
    ensures Ledger(TouchAll(c, d, events).0, tears + Tears(events))
    decreases |events|
  {
    if events != [] {
      TouchKeeps(c, d, events[0], tears);
      TouchAllKeeps(c, Touch(c, d, events[0]).0, events[1..], tears + if events[0].Dies? then 1 else 0);
    }
  }

  /** For every sequence of operations, restarts and torn appends: all answers and the final contents
      are those of the plain list with its tail, and the contents are the records appended since the
      last clear or rewrite, in order, less at most two for each torn append. */
  lemma {:induction false} TearsLoseAtMostTwo<R(!new), K>(c: Codec<R, K>, q: Store<K>, events: seq<Event<R>>)
    requires Sound(c) && CrashSafe(c) && Inv(c, q)
    ensures var (q', answers) := HappenAll(c, q, events);
      var (d, answers') := TouchAll(c, Disk(Contents(c, q), Whole, q.index, Contents(c, q)), events);
      && answers == answers' && Contents(c, q') == Visible(d)
      && Subsequence(Contents(c, q'), d.given)
      && |d.given| <= |Contents(c, q')| + 2 * Tears(events)
  {
    var start := Disk(Contents(c, q), Whole, q.index, Contents(c, q));
    ParseOne(c, "");
    assert FileText(q) + "" == FileText(q);
    var text, parts := TouchAllHolds(c, q, start, FileText(q), [], events);
    ContentsAre(c, HappenAll(c, q, events).0, TouchAll(c, start, events).0, text, parts);
    SubsequenceSelf(start.given);
    assert Visible(start) == start.list;
    TouchAllKeeps(c, start, events, 0);
  }
}
