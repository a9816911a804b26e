/** Fetching a payload into a scratch directory, with every byte accounted for. */
module Staging {
  import opened Prelude
  import Lines
  import Text
  import opened Payload

  // ---- file names ----

  function Pad(s: string): string
    decreases 4 - |s|
  {
    if |s| < 4 then Pad("0" + s) else s
  }

  predicate SlugChar(c: char) {
    'A' <= c <= 'Z' || 'a' <= c <= 'z' || '0' <= c <= '9' || c == '_'
  }

  /** Runs of other characters become one underscore. */
  function Underscored(s: string, inRun: bool): string {
    if s == "" then ""
    else if SlugChar(s[0]) then [s[0]] + Underscored(s[1..], false)
    else (if inRun then "" else "_") + Underscored(s[1..], true)
  }

  function Unscored(s: string): string {
    if s != "" && s[0] == '_' then Unscored(s[1..])
    else if s != "" && s[|s| - 1] == '_' then Unscored(s[..|s| - 1])
    else s
  }

  function Slug(kind: string): string {
    var s := Unscored(Underscored(kind, false));
    var cut := if |s| <= 32 then s else s[..32];
    if cut == "" then "artifact" else cut
  }

  function StagingName(index: nat, kind: string): string {
    Pad(Text.Decimal(index)) + "-" + (Slug(kind) + ".artifact")
  }

  lemma {:induction false} PadKeeps(s: string)
    requires '-' !in s
    ensures Text.Numeral(Pad(s)) == Text.Numeral(s) && '-' !in Pad(s)
    decreases 4 - |s|
  {
    if |s| < 4 {
      Text.LeadingZero(s);
      PadKeeps("0" + s);
    }
  }

  /** Names are distinct for distinct positions, whatever the kinds. */
  lemma NamesDistinct(i: nat, kind: string, j: nat, kind': string)
    ensures StagingName(i, kind) == StagingName(j, kind') ==> i == j
  {
    NameStart(i, kind);
    NameStart(j, kind');
  }

  lemma NameStart(i: nat, kind: string)
    ensures Text.Numeral(Lines.Split(StagingName(i, kind), '-')[0]) == i
  {
    var head, tail := Pad(Text.Decimal(i)), Slug(kind) + ".artifact";
    Text.NumeralOfDecimal(i);
    PadKeeps(Text.Decimal(i));
    Lines.SplitOne(head, '-');
    assert StagingName(i, kind) == head + ['-'] + tail;
    Lines.SplitAtSeparator(head, tail, '-');
  }

  predicate SafeChar(c: char) {
    SlugChar(c) || c == '-' || c == '.'
  }

  predicate AllSlug(s: string) {
    forall c | c in s :: SlugChar(c)
  }

  lemma {:induction false} UnderscoredSlug(s: string, inRun: bool)
    ensures AllSlug(Underscored(s, inRun))
  {
    if s != "" {
      UnderscoredSlug(s[1..], !SlugChar(s[0]));
    }
  }

  lemma {:induction false} UnscoredSlug(s: string)
    requires AllSlug(s)
    ensures AllSlug(Unscored(s))
    decreases |s|
  {
    if s != "" && s[0] == '_' {
      UnscoredSlug(s[1..]);
    } else if s != "" && s[|s| - 1] == '_' {
      UnscoredSlug(s[..|s| - 1]);
    }
  }

  lemma SlugIsSlug(kind: string)
    ensures AllSlug(Slug(kind)) && 0 < |Slug(kind)| <= 32
  {
    UnderscoredSlug(kind, false);
    UnscoredSlug(Underscored(kind, false));
    var s := Unscored(Underscored(kind, false));
    assert |s| > 32 ==> forall c :: c in s[..32] ==> c in s;
    assert "artifact" == ['a', 'r', 't', 'i', 'f', 'a', 'c', 't'];
  }

  lemma {:induction false} DecimalSlug(n: nat)
    ensures AllSlug(Text.Decimal(n))
  {
    if n >= 10 {
      DecimalSlug(n / 10);
    }
  }

  lemma {:induction false} PadSlug(s: string)
    requires AllSlug(s)
    ensures AllSlug(Pad(s))
    decreases 4 - |s|
  {
    if |s| < 4 {
      assert forall c :: c in "0" + s ==> c == '0' || c in s;
      PadSlug("0" + s);
    }
  }

  /** A plain kind is in the name as it is, after the index in at least four digits. */
  lemma NameExact(index: nat, kind: string)
    requires 0 < |kind| <= 32 && AllSlug(kind) && kind[0] != '_' && kind[|kind| - 1] != '_'
    ensures var digits := Lines.Split(StagingName(index, kind), '-')[0];
      && StagingName(index, kind) == digits + "-" + kind + ".artifact"
      && |digits| >= 4 && Text.Numeral(digits) == index && (index < 1000 ==> digits[0] == '0')
  {
    UnderscoredPlain(kind);
    DecimalSmall(index);
    PadLength(Text.Decimal(index));
    Text.NumeralOfDecimal(index);
    PadKeeps(Text.Decimal(index));
    var head, tail := Pad(Text.Decimal(index)), Slug(kind) + ".artifact";
    Lines.SplitOne(head, '-');
    assert StagingName(index, kind) == head + ['-'] + tail;
    Lines.SplitAtSeparator(head, tail, '-');
    assert head + "-" + (kind + ".artifact") == head + "-" + kind + ".artifact";
  }

  lemma UnderscoredPlain(s: string)
    requires AllSlug(s)
    ensures Underscored(s, false) == s
  {
    UnderscoredStart(s, "", false);
    assert s + "" == s;
  }

  lemma {:induction false} UnderscoredStart(s: string, t: string, inRun: bool)
    requires AllSlug(s)
    ensures Underscored(s + t, inRun) == s + Underscored(t, inRun && s == "")
  {
    if s == "" {
      assert s + t == t;
    } else {
      assert s[0] in s && AllSlug(s[1..]) by { assert forall c :: c in s[1..] ==> c in s; }
      assert (s + t)[1..] == s[1..] + t;
      UnderscoredStart(s[1..], t, false);
    }
  }

  predicate NoSlug(s: string) {
    forall c | c in s :: !SlugChar(c)
  }

  lemma {:induction false} UnderscoredRun(run: string, t: string, inRun: bool)
    requires NoSlug(run)
    ensures Underscored(run + t, inRun)
         == if run == "" || inRun then Underscored(t, inRun) else "_" + Underscored(t, true)
  {
    if run == "" {
      assert run + t == t;
    } else {
      assert run[0] in run && NoSlug(run[1..]) by { assert forall c :: c in run[1..] ==> c in run; }
      assert (run + t)[1..] == run[1..] + t;
      UnderscoredRun(run[1..], t, true);
    }
  }

  /** A run of unsafe characters between plain ones becomes one underscore, and the whole is cut at 32
      characters; a kind without a plain character is called an artifact. */
  lemma SlugOfRun(a: string, run: string, b: string)
    requires AllSlug(a) && AllSlug(b) && NoSlug(run) && run != ""
    requires a != "" && b != "" && a[0] != '_' && b[|b| - 1] != '_'
    ensures var joined := a + "_" + b;
      Slug(a + run + b) == if |joined| <= 32 then joined else joined[..32]
    ensures Slug(run) == "artifact"
  {
    assert a + run + b == a + (run + b) && run + "" == run && b + "" == b;
    UnderscoredStart(a, run + b, false);
    UnderscoredRun(run, b, false);
    UnderscoredStart(b, "", true);
    assert a + ("_" + b) == a + "_" + b;
    UnderscoredRun(run, "", false);
    assert "_" + "" == "_" && "_"[1..] == "" && Unscored("_") == "";
  }

  lemma {:induction false} PadLength(s: string)
    ensures |Pad(s)| >= 4 && (|s| < 4 ==> Pad(s)[0] == '0')
    decreases 4 - |s|
  {
    if |s| < 4 {
      PadLength("0" + s);
    }
  }

  lemma DecimalSmall(n: nat)
    ensures n < 1000 ==> |Text.Decimal(n)| <= 3
  {
    if 10 <= n < 1000 {
      assert n / 10 < 100 && n / 10 / 10 < 10;
      if n / 10 >= 10 {
        assert |Text.Decimal(n / 10 / 10)| == 1 && |Text.Decimal(n / 10)| == 2;
      }
    }
  }

  /** Whatever the kind, a staging name is made of letters, digits, underscores, dashes and dots: no
      path separator can get in from the wire. */
  lemma NameIsSafe(index: nat, kind: string)
    ensures forall c :: c in StagingName(index, kind) ==> SafeChar(c)
  {
    DecimalSlug(index);
    PadSlug(Text.Decimal(index));
    SlugIsSlug(kind);
    assert ".artifact" == ['.', 'a', 'r', 't', 'i', 'f', 'a', 'c', 't'];
  }

  // ---- one fetch ----

  /** What happens at each turn of the copy loop: the deadline has passed, the read fails, or a chunk
      arrives, which the file takes whole or, on a write fault, only the first `landed` bytes of. */
  datatype Turn = Late | ReadFault | Chunk(data: Bytes) | WriteFault(data: Bytes, landed: nat)

  /** The file as it was left, and the byte count returned unless the fetch raised. */
  datatype Fetched = Fetched(file: Bytes, size: Option<nat>)

  predicate Over(n: nat, ceiling: Option<nat>) {
    ceiling.Some? && n > ceiling.value
  }

  function Landed(data: Bytes, n: nat): Bytes {
    if n <= |data| then data[..n] else data
  }

  function Copy(turns: seq<Turn>, maxBytes: Option<nat>, limit: Option<nat>, file: Bytes): Fetched {
    if turns == [] then Fetched(file, Some(|file|))
    else if turns[0].Late? || turns[0].ReadFault? then Fetched(file, None)
    else
      var data := turns[0].data;
      if data == [] then Fetched(file, Some(|file|))
      else if Over(|file| + |data|, maxBytes) || Over(|file| + |data|, limit) then Fetched(file, None)
      else if turns[0].WriteFault? then Fetched(file + Landed(data, turns[0].landed), None)
      else Copy(turns[1..], maxBytes, limit, file + data)
  }

  /** The size ceiling enforced as bytes arrive, in front of the real file. */
  class BoundedSink {
    const limit: Option<nat>
    var written: nat
    var file: Bytes

    constructor (limit: Option<nat>)
      ensures this.limit == limit && written == 0 && file == []
    {
      this.limit, written, file := limit, 0, [];
    }

    ghost predicate Valid()
      reads this
    {
      written == |file| && !Over(|file|, limit)
    }

    /** `ok` is false when the write raises; the file never exceeds the limit. */
    method Write(data: Bytes, fault: Option<nat>) returns (ok: bool)
      requires Valid()
      modifies this
      ensures !Over(|file|, limit)
      ensures ok <==> fault.None? && !Over(|old(file)| + |data|, limit)
      ensures ok ==> Valid() && file == old(file) + data
      ensures !ok ==>
        file == old(file) + if Over(|old(file)| + |data|, limit) || fault.None? then [] else Landed(data, fault.value)
    {
      written := written + |data|;
      if limit.Some? && written > limit.value {
        return false;
      }
      if fault.Some? {
        file := file + Landed(data, fault.value);
        return false;
      }
      file := file + data;
      return true;
    }
  }

  method Stream(turns: seq<Turn>, maxBytes: Option<nat>, sink: BoundedSink) returns (size: Option<nat>)
    requires sink.Valid() && sink.file == []
    modifies sink
    ensures Fetched(sink.file, size) == Copy(turns, maxBytes, sink.limit, [])
    ensures !Over(|sink.file|, sink.limit)
  {
    var total := 0;
    assert turns[0..] == turns;
    for i := 0 to |turns|
      invariant sink.Valid() && total == |sink.file|
      invariant Copy(turns, maxBytes, sink.limit, []) == Copy(turns[i..], maxBytes, sink.limit, sink.file)
    {
      assert turns[i..][1..] == turns[i + 1..];
      if turns[i].Late? || turns[i].ReadFault? {
        return None;
      }
      var data := turns[i].data;
      if data == [] {
        return Some(total);
      }
      total := total + |data|;
      if maxBytes.Some? && total > maxBytes.value {
        return None;
      }
      var ok := sink.Write(data, if turns[i].WriteFault? then Some(turns[i].landed) else None);
      if !ok {
        assert sink.file + [] == sink.file;
        return None;
      }
    }
    return Some(total);
  }

  /** The whole body, if it arrives: the chunks up to the end of the stream. */
  function Body(turns: seq<Turn>): Option<Bytes> {
    if turns == [] then Some([])
    else if turns[0].Late? || turns[0].ReadFault? then None
    else if turns[0].data == [] then Some([])
    else if turns[0].WriteFault? then None
    else
      var rest := Body(turns[1..]);
      if rest.Some? then Some(turns[0].data + rest.value) else None
  }

  /** A fetch succeeds exactly when the body arrives and fits both ceilings, and then the file is the
      body and the count its length; whatever happens, the file never exceeds either ceiling. */
  lemma {:induction false} CopyExact(turns: seq<Turn>, maxBytes: Option<nat>, limit: Option<nat>, file: Bytes)
    requires !Over(|file|, maxBytes) && !Over(|file|, limit)
    ensures var r := Copy(turns, maxBytes, limit, file);
      && !Over(|r.file|, maxBytes) && !Over(|r.file|, limit) && file <= r.file
      && (r.size.Some? <==> Body(turns).Some? && !Over(|file| + |Body(turns).value|, maxBytes)
                                            && !Over(|file| + |Body(turns).value|, limit))
      && (r.size.Some? ==> r.file == file + Body(turns).value && r.size.value == |r.file|)
    decreases |turns|
  {
    if turns != [] && turns[0].Chunk? && turns[0].data != [] {
      var data := turns[0].data;
      if !Over(|file| + |data|, maxBytes) && !Over(|file| + |data|, limit) {
        CopyExact(turns[1..], maxBytes, limit, file + data);
        if Body(turns[1..]).Some? {
          assert file + data + Body(turns[1..]).value == file + (data + Body(turns[1..]).value);
        }
      }
    }
  }

  // ---- the whole payload ----

  type Files = map<string, Bytes>

  datatype Staged = Staged(artifact: Artifact, path: string, size: nat)

  /** The files as they were left, and the staged list unless the run raised. */
  datatype StageResult = StageResult(files: Files, staged: Option<seq<Staged>>)

  function LimitOf(a: Artifact, maxArtifact: Option<nat>): Option<nat> {
    if maxArtifact.Some? then maxArtifact else a.sizeBytes
  }

  /** `responses[i]` is what fetching artifact i goes through; a fetch refused at once is a read
      fault on the first turn. */
  method StageBundle(artifacts: seq<Artifact>, responses: seq<seq<Turn>>, maxArtifact: Option<nat>,
                     maxBytes: Option<nat>, before: Files) returns (r: StageResult)
    requires |responses| == |artifacts|
    ensures r == StageFrom(artifacts, responses, maxArtifact, maxBytes, before, [])
  {
    var files, staged := before, [];
    for i := 0 to |artifacts|
      invariant |staged| == i
      invariant StageFrom(artifacts, responses, maxArtifact, maxBytes, before, [])
             == StageFrom(artifacts, responses, maxArtifact, maxBytes, files, staged)
    {
      var target := StagingName(i, artifacts[i].kind);
      var sink := new BoundedSink(LimitOf(artifacts[i], maxArtifact));
      var size := Stream(responses[i], maxBytes, sink);
      if size.None? {
        return StageResult(files - {target}, None);
      }
      files := files[target := sink.file];
      staged := staged + [Staged(artifacts[i], target, size.value)];
    }
    return StageResult(files, Some(staged));
  }

  function StageFrom(artifacts: seq<Artifact>, responses: seq<seq<Turn>>, maxArtifact: Option<nat>,
                     maxBytes: Option<nat>, files: Files, staged: seq<Staged>): StageResult
    requires |responses| == |artifacts| && |staged| <= |artifacts|
    decreases |artifacts| - |staged|
  {
    var i := |staged|;
    if i == |artifacts| then StageResult(files, Some(staged))
    else
      var target := StagingName(i, artifacts[i].kind);
      var f := Copy(responses[i], maxBytes, LimitOf(artifacts[i], maxArtifact), []);
      if f.size.None? then StageResult(files - {target}, None)
      else StageFrom(artifacts, responses, maxArtifact, maxBytes, files[target := f.file],
                     staged + [Staged(artifacts[i], target, f.size.value)])
  }

  predicate Arrives(a: Artifact, turns: seq<Turn>, maxArtifact: Option<nat>, maxBytes: Option<nat>) {
    var body := Body(turns);
    body.Some? && !Over(|body.value|, maxBytes) && !Over(|body.value|, LimitOf(a, maxArtifact))
  }

  /** The files of the first `n` artifacts, complete, on top of what was there. */
  function Complete(artifacts: seq<Artifact>, responses: seq<seq<Turn>>, n: nat, before: Files): Files
    requires n <= |artifacts| == |responses|
  {
    if n == 0 then before
    else
      var body := Body(responses[n - 1]);
      Complete(artifacts, responses, n - 1, before)
        [StagingName(n - 1, artifacts[n - 1].kind) := if body.Some? then body.value else []]
  }

  /** The list entries of the first `n` artifacts. */
  function Entries(artifacts: seq<Artifact>, responses: seq<seq<Turn>>, n: nat): seq<Staged>
    requires n <= |artifacts| == |responses|
  {
    if n == 0 then []
    else
      var body := Body(responses[n - 1]);
      Entries(artifacts, responses, n - 1)
      + [Staged(artifacts[n - 1], StagingName(n - 1, artifacts[n - 1].kind), if body.Some? then |body.value| else 0)]
  }

  lemma {:induction false} EntriesLength(artifacts: seq<Artifact>, responses: seq<seq<Turn>>, n: nat)
    requires n <= |artifacts| == |responses|
    ensures |Entries(artifacts, responses, n)| == n
  {
    if n > 0 {
      EntriesLength(artifacts, responses, n - 1);
    }
  }

  /** How many artifacts, from the first, arrive whole within their ceilings. */
  function Arriving(artifacts: seq<Artifact>, responses: seq<seq<Turn>>, maxArtifact: Option<nat>,
                    maxBytes: Option<nat>, from: nat): (n: nat)
    requires from <= |artifacts| == |responses|
    ensures from <= n <= |artifacts|
    decreases |artifacts| - from
  {
    if from == |artifacts| || !Arrives(artifacts[from], responses[from], maxArtifact, maxBytes) then from
    else Arriving(artifacts, responses, maxArtifact, maxBytes, from + 1)
  }

  /** The ceilings of one artifact: the fetcher's own, and the explicit one for artifacts or, failing
      that, the size the payload advertises. */
  predicate Fits(n: nat, a: Artifact, maxArtifact: Option<nat>, maxBytes: Option<nat>) {
    && (maxBytes.Some? ==> n <= maxBytes.value)
    && (maxArtifact.Some? ==> n <= maxArtifact.value)
    && (maxArtifact.None? && a.sizeBytes.Some? ==> n <= a.sizeBytes.value)
  }

  /** An artifact is staged exactly when its whole body arrives and fits; and whatever happens, its file
      fits while it is written. */
  lemma FitsExact(a: Artifact, turns: seq<Turn>, maxArtifact: Option<nat>, maxBytes: Option<nat>)
    ensures var f := Copy(turns, maxBytes, LimitOf(a, maxArtifact), []);
      && Fits(|f.file|, a, maxArtifact, maxBytes)
      && (f.size.Some? <==> Body(turns).Some? && Fits(|Body(turns).value|, a, maxArtifact, maxBytes))
      && (f.size.Some? <==> Arrives(a, turns, maxArtifact, maxBytes))
  {
    CopyExact(turns, maxBytes, LimitOf(a, maxArtifact), []);
    CopyArrives(a, turns, maxArtifact, maxBytes);
  }

  lemma CopyArrives(a: Artifact, turns: seq<Turn>, maxArtifact: Option<nat>, maxBytes: Option<nat>)
    ensures var f := Copy(turns, maxBytes, LimitOf(a, maxArtifact), []);
      && (f.size.Some? <==> Arrives(a, turns, maxArtifact, maxBytes))
      && (f.size.Some? ==> Body(turns).Some? && f.file == Body(turns).value && f.size.value == |Body(turns).value|)
  {
    CopyExact(turns, maxBytes, LimitOf(a, maxArtifact), []);
    if Body(turns).Some? {
      assert [] + Body(turns).value == Body(turns).value;
    }
  }

  /** Staging stops at the first artifact that does not arrive whole within its ceilings. The files
      left are exactly those of the artifacts before it, and the file of the one that failed is
      gone; if all arrive, every one is listed in order with its true size. */
  lemma {:induction false} StageExact(artifacts: seq<Artifact>, responses: seq<seq<Turn>>, maxArtifact: Option<nat>,
                                      maxBytes: Option<nat>, before: Files, from: nat)
    requires from <= |artifacts| == |responses|
    ensures |Entries(artifacts, responses, from)| == from
    ensures
      StageFrom(artifacts, responses, maxArtifact, maxBytes, Complete(artifacts, responses, from, before),
                Entries(artifacts, responses, from))
        == var n := Arriving(artifacts, responses, maxArtifact, maxBytes, from);
           var files := Complete(artifacts, responses, n, before);
           if n < |artifacts| then StageResult(files - {StagingName(n, artifacts[n].kind)}, None)
           else StageResult(files, Some(Entries(artifacts, responses, n)))
    decreases |artifacts| - from
  {
    EntriesLength(artifacts, responses, from);
    if from < |artifacts| {
      CopyArrives(artifacts[from], responses[from], maxArtifact, maxBytes);
      if Arrives(artifacts[from], responses[from], maxArtifact, maxBytes) {
        StageExact(artifacts, responses, maxArtifact, maxBytes, before, from + 1);
      }
    }
  }

  /** No later file overwrites an earlier one: each file is the body of its own artifact. */
  lemma {:induction false} CompleteAt(artifacts: seq<Artifact>, responses: seq<seq<Turn>>, n: nat, before: Files,
                                      i: nat)
    requires i < n <= |artifacts| == |responses| && Body(responses[i]).Some?
    ensures var name := StagingName(i, artifacts[i].kind);
      var files := Complete(artifacts, responses, n, before);
      && name in files && files[name] == Body(responses[i]).value
      && (n < |artifacts| ==> name in files - {StagingName(n, artifacts[n].kind)})
  {
    if n < |artifacts| {
      NamesDistinct(i, artifacts[i].kind, n, artifacts[n].kind);
    }
    NamesDistinct(i, artifacts[i].kind, n - 1, artifacts[n - 1].kind);
    if i < n - 1 {
      CompleteAt(artifacts, responses, n - 1, before, i);
    }
  }

  lemma {:induction false} ArrivingArrive(artifacts: seq<Artifact>, responses: seq<seq<Turn>>, maxArtifact: Option<nat>,
                                          maxBytes: Option<nat>, from: nat, i: nat)
    requires from <= i < |artifacts| == |responses|
    requires i < Arriving(artifacts, responses, maxArtifact, maxBytes, from)
    ensures Arrives(artifacts[i], responses[i], maxArtifact, maxBytes)
    decreases |artifacts| - from
  {
    if from < i {
      ArrivingArrive(artifacts, responses, maxArtifact, maxBytes, from + 1, i);
    }
  }

  lemma {:induction false} CompleteElsewhere(artifacts: seq<Artifact>, responses: seq<seq<Turn>>, n: nat,
                                             before: Files, name: string)
    requires n <= |artifacts| == |responses|
    requires forall i :: 0 <= i < n ==> name != StagingName(i, artifacts[i].kind)
    ensures var files := Complete(artifacts, responses, n, before);
      (name in files <==> name in before) && (name in before ==> files[name] == before[name])
  {
    if n > 0 {
      CompleteElsewhere(artifacts, responses, n - 1, before, name);
    }
  }

  /** A whole run: it returns exactly when every artifact arrives. Up to the first one that does not,
      each file holds the body of its own artifact, within both ceilings; that one's file is gone;
      no other file changes. */
  lemma EveryByteAccounted(artifacts: seq<Artifact>, responses: seq<seq<Turn>>, maxArtifact: Option<nat>,
                           maxBytes: Option<nat>, before: Files)
    requires |artifacts| == |responses|
    ensures var r := StageFrom(artifacts, responses, maxArtifact, maxBytes, before, []);
      var n := Arriving(artifacts, responses, maxArtifact, maxBytes, 0);
      && r.staged == (if n == |artifacts| then Some(Entries(artifacts, responses, n)) else None)
      && (n < |artifacts| ==> StagingName(n, artifacts[n].kind) !in r.files)
      && (forall name ::
            (forall i :: 0 <= i <= n && i < |artifacts| ==> name != StagingName(i, artifacts[i].kind)) ==>
              (name in r.files <==> name in before) && (name in before ==> r.files[name] == before[name]))
      && forall i :: 0 <= i < n ==>
           && Arrives(artifacts[i], responses[i], maxArtifact, maxBytes)
           && StagingName(i, artifacts[i].kind) in r.files
           && r.files[StagingName(i, artifacts[i].kind)] == Body(responses[i]).value
           && Fits(|Body(responses[i]).value|, artifacts[i], maxArtifact, maxBytes)
  {
    StageExact(artifacts, responses, maxArtifact, maxBytes, before, 0);
    var n := Arriving(artifacts, responses, maxArtifact, maxBytes, 0);
    forall name | forall i :: 0 <= i <= n && i < |artifacts| ==> name != StagingName(i, artifacts[i].kind)
      ensures var files := Complete(artifacts, responses, n, before);
        (name in files <==> name in before) && (name in before ==> files[name] == before[name])
    {
      CompleteElsewhere(artifacts, responses, n, before, name);
    }
    forall i | 0 <= i < n
      ensures Arrives(artifacts[i], responses[i], maxArtifact, maxBytes)
      ensures Fits(|Body(responses[i]).value|, artifacts[i], maxArtifact, maxBytes)
      ensures var files := Complete(artifacts, responses, n, before);
        var name := StagingName(i, artifacts[i].kind);
        && name in files && files[name] == Body(responses[i]).value
        && (n < |artifacts| ==> name in files - {StagingName(n, artifacts[n].kind)})
    {
      ArrivingArrive(artifacts, responses, maxArtifact, maxBytes, 0, i);
      FitsExact(artifacts[i], responses[i], maxArtifact, maxBytes);
      CompleteAt(artifacts, responses, n, before, i);
    }
  }
}
