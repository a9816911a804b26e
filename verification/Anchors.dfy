/** Verbatim grounding: each answer is a substring of a source, up to whitespace, or the sentinel. */
module Anchors {
  import opened Prelude
  import opened Lines
  import opened Text
  import opened TotalCap

  /** A raw model answer: JSON text, a boolean, an integral number, another number's JSON text, or
      something that is not a scalar. */
  datatype Raw = Txt(s: string) | Flag(b: bool) | Whole(n: int) | Fraction(text: string) | Compound

  datatype AnchorsContract = AnchorsContract(maxValueChars: int, maxTotalChars: int, sentinel: string)

  /** C0 and C1 control characters except tab, newline and carriage return. */
  predicate Control(c: char) {
    var u := c as int;
    u <= 0x08 || u == 0x0B || u == 0x0C || 0x0E <= u <= 0x1F || 0x7F <= u <= 0x9F
  }

  function DropControl(s: string): (r: string)
    ensures forall c :: c in r ==> !Control(c)
    ensures (forall c :: c in s ==> !Control(c)) ==> r == s
  {
    if s == "" then "" else (if Control(s[0]) then "" else [s[0]]) + DropControl(s[1..])
  }

  function Clean(value: Raw, maxChars: int): Option<string> {
    if !value.Txt? then None
    else
      var cleaned := Strip(DropControl(value.s));
      if cleaned == "" || |cleaned| > maxChars then None else Some(cleaned)
  }

  predicate At(needle: string, text: string, i: nat) {
    i + |needle| <= |text| && text[i..i + |needle|] == needle
  }

  /** `needle in text` */
  predicate Within(needle: string, text: string) {
    exists i | 0 <= i <= |text| :: At(needle, text, i)
  }

  /** `sources` are the collapsed source texts. */
  predicate Grounded(value: string, sources: seq<string>) {
    exists i | 0 <= i < |sources| :: Within(Collapse(value), sources[i])
  }

  function CollapseAll(sources: seq<string>): seq<string> {
    seq(|sources|, i requires 0 <= i < |sources| => Collapse(sources[i]))
  }

  function Lookup(raw: map<string, Raw>, key: string): Raw {
    if key in raw then raw[key] else Compound
  }

  function GroundOne(value: Raw, sources: seq<string>, contract: AnchorsContract): string {
    match Clean(value, contract.maxValueChars)
    case None => contract.sentinel
    case Some(cleaned) =>
      if cleaned == contract.sentinel then contract.sentinel
      else if Grounded(cleaned, sources) then cleaned
      else contract.sentinel
  }

  function GroundEach(raw: map<string, Raw>, required: seq<string>, sources: seq<string>, contract: AnchorsContract)
    : Answers
  {
    map key | key in required :: GroundOne(Lookup(raw, key), sources, contract)
  }

  lemma GroundEachNext(raw: map<string, Raw>, required: seq<string>, i: nat, sources: seq<string>,
                       contract: AnchorsContract)
    requires i < |required|
    ensures GroundEach(raw, required[..i + 1], sources, contract)
         == GroundEach(raw, required[..i], sources, contract)
              [required[i] := GroundOne(Lookup(raw, required[i]), sources, contract)]
  {
    assert required[..i + 1] == required[..i] + [required[i]];
  }

  ghost function Ground(raw: map<string, Raw>, required: seq<string>, sources: seq<string>, contract: AnchorsContract)
    : Answers
  {
    Capped(GroundEach(raw, required, CollapseAll(sources), contract), contract.sentinel, contract.maxTotalChars)
  }

  method GroundAnchors(raw: map<string, Raw>, required: seq<string>, sources: seq<string>, contract: AnchorsContract)
    returns (anchors: Answers)
    ensures anchors == Ground(raw, required, sources, contract)
  {
    var collapsed := CollapseAll(sources);
    anchors := map[];
    for i := 0 to |required|
      invariant anchors == GroundEach(raw, required[..i], collapsed, contract)
    {
      var key := required[i];
      var value := contract.sentinel;
      match Clean(Lookup(raw, key), contract.maxValueChars) {
        case None =>
        case Some(cleaned) =>
          if cleaned != contract.sentinel && Grounded(cleaned, collapsed) {
            value := cleaned;
          }
      }
      GroundEachNext(raw, required, i, collapsed, contract);
      anchors := anchors[key := value];
    }
    assert required[..|required|] == required;
    anchors := EnforceTotalCap(anchors, contract.sentinel, contract.maxTotalChars);
  }

  // ---- what an answer can be ----

  lemma CleanFixed(value: Raw, maxChars: int)
    requires Clean(value, maxChars).Some?
    ensures var v := Clean(value, maxChars).value;
      Clean(Txt(v), maxChars) == Some(v) && 0 < |v| <= maxChars && forall c :: c in v ==> !Control(c)
  {
    StripFixed(DropControl(value.s));
  }

  lemma GroundKeys(raw: map<string, Raw>, required: seq<string>, sources: seq<string>, contract: AnchorsContract)
    ensures forall key :: key in Ground(raw, required, sources, contract) <==> key in required
  {
    CapKeepsOrDegrades(GroundEach(raw, required, CollapseAll(sources), contract), contract.sentinel,
                       contract.maxTotalChars);
  }

  /** Every required key is answered, and every answer is the sentinel or a clean value within the
      size limit whose collapsed form is inside a collapsed source. */
  lemma AnswersAreGrounded(raw: map<string, Raw>, required: seq<string>, sources: seq<string>,
                           contract: AnchorsContract)
    ensures var r := Ground(raw, required, sources, contract);
      && (forall key :: key in r <==> key in required)
      && forall key :: key in r ==>
           || r[key] == contract.sentinel
           || (&& 0 < |r[key]| <= contract.maxValueChars
               && (forall c :: c in r[key] ==> !Control(c))
               && Grounded(r[key], CollapseAll(sources))
               && key in raw && Clean(raw[key], contract.maxValueChars) == Some(r[key]))
  {
    var each := GroundEach(raw, required, CollapseAll(sources), contract);
    CapKeepsOrDegrades(each, contract.sentinel, contract.maxTotalChars);
    forall key | key in required && Clean(Lookup(raw, key), contract.maxValueChars).Some? {
      CleanFixed(Lookup(raw, key), contract.maxValueChars);
    }
  }

  /** What cleaning gives: the text without its control characters (tab, newline and carriage return are
      not among them) and without the whitespace around it; nothing at all if that leaves nothing, or
      more than the limit, or if the value is no text. */
  lemma CleanExact(value: Raw, maxChars: int)
    ensures !value.Txt? ==> Clean(value, maxChars).None?
    ensures value.Txt? ==> exists v ::
      Stripped(DropControl(value.s), v) && Clean(value, maxChars) == if 0 < |v| <= maxChars then Some(v) else None
  {
    if value.Txt? {
      StripIs(DropControl(value.s));
    }
  }

  /** `v` is what is between the whitespace at the ends of `s`. */
  ghost predicate Stripped(s: string, v: string) {
    exists before, after :: Around(s, before, v, after)
  }

  predicate Around(s: string, before: string, v: string, after: string) {
    && s == before + v + after && Blank(before) && Blank(after)
    && (v != "" ==> !Space(v[0]) && !Space(v[|v| - 1]))
  }

  lemma StripIs(s: string)
    ensures Stripped(s, Strip(s))
  {
    var before := LStripIs(s);
    var after := RStripIs(LStrip(s));
    StripParts(s, before, LStrip(s), Strip(s), after);
  }

  lemma StripParts(s: string, before: string, u: string, v: string, after: string)
    requires s == before + u && u == v + after && Blank(before) && Blank(after)
    requires v == RStrip(u) && (u == "" || !Space(u[0]))
    ensures Stripped(s, v)
  {
    assert before + (v + after) == before + v + after;
    assert v != "" ==> v[0] == u[0];
    assert Around(s, before, v, after);
  }

  lemma Associative(a: string, b: string, c: string)
    ensures a + (b + c) == a + b + c
  {
  }

  lemma BlankSum(a: string, b: string)
    requires Blank(a) && Blank(b)
    ensures Blank(a + b)
  {
  }

  lemma {:induction false} LStripIs(s: string) returns (before: string)
    ensures s == before + LStrip(s) && Blank(before)
  {
    before := "";
    if s != "" && Space(s[0]) {
      var rest := LStripIs(s[1..]);
      before := [s[0]] + rest;
      BlankSum([s[0]], rest);
      Associative([s[0]], rest, LStrip(s[1..]));
    }
  }

  lemma {:induction false} RStripIs(s: string) returns (after: string)
    ensures s == RStrip(s) + after && Blank(after)
  {
    after := "";
    if s != "" && Space(s[|s| - 1]) {
      var most, last := s[..|s| - 1], [s[|s| - 1]];
      var rest := RStripIs(most);
      after := rest + last;
      BlankSum(rest, last);
      Associative(RStrip(most), rest, last);
      assert s == most + last;
    }
  }

  /** Leaving out control characters keeps all others, in order. */
  lemma {:induction false} DropExact(s: string, t: string)
    ensures DropControl(s + t) == DropControl(s) + DropControl(t)
  {
    if s == "" {
      assert s + t == t && DropControl("") == "";
    } else {
      var head := [s[0]];
      DropHead(s[0], s[1..]);
      DropHead(s[0], s[1..] + t);
      Associative(head, s[1..], t);
      assert s == head + s[1..];
      DropExact(s[1..], t);
      Associative(DropControl(head), DropControl(s[1..]), DropControl(t));
    }
  }

  lemma DropHead(c: char, t: string)
    ensures DropControl([c] + t) == DropControl([c]) + DropControl(t)
  {
    assert ([c] + t)[1..] == t && [c][1..] == "" && DropControl("") == "";
  }

  /** A control character is left out; any other character is kept, and so are tab, newline and carriage
      return. */
  lemma DropOne(c: char)
    ensures DropControl([c]) ==
      if (c as int < 0x20 || 0x7F <= c as int <= 0x9F) && c !in "\t\n\r" then "" else [c]
  {
    assert [c][1..] == "" && DropControl("") == "";
    ControlIs(c);
  }

  lemma ControlIs(c: char)
    ensures Control(c) <==> (c as int < 0x20 || 0x7F <= c as int <= 0x9F) && c !in "\t\n\r"
  {
    assert c in "\t\n\r" <==> c == '\t' || c == '\n' || c == '\r' by {
      assert "\t\n\r" == ['\t', '\n', '\r'];
    }
    assert '\t' as int == 9 && '\n' as int == 10 && '\r' as int == 13;
  }

  /** When a value is in the sources: its words, with single spaces, stand next to each other somewhere in
      the words of one of them, with single spaces. */
  lemma GroundedExact(value: string, sources: seq<string>)
    ensures Grounded(value, CollapseAll(sources)) <==>
      exists i :: 0 <= i < |sources| && Contains(Join(Words(sources[i]), ' '), Join(Words(value), ' '))
  {
    CollapseIsJoin(value);
    forall i | 0 <= i < |sources|
      ensures Within(Collapse(value), CollapseAll(sources)[i]) <==>
        Contains(Join(Words(sources[i]), ' '), Join(Words(value), ' '))
    {
      CollapseIsJoin(sources[i]);
      WithinExact(Collapse(value), Collapse(sources[i]));
    }
  }

  ghost predicate Contains(text: string, part: string) {
    exists a, b :: text == a + part + b
  }

  lemma WithinExact(needle: string, text: string)
    ensures Within(needle, text) <==> Contains(text, needle)
  {
    if Within(needle, text) {
      var i :| 0 <= i <= |text| && At(needle, text, i);
      assert text == text[..i] + needle + text[i + |needle|..];
    }
    if a, b :| text == a + needle + b {
      assert At(needle, text, |a|);
    }
  }

  /** Nothing that could be kept is withheld: a clean value found in a source is the answer, unless
      the total is over its cap and the value is longer than the sentinel. */
  lemma GroundedIsKept(raw: map<string, Raw>, required: seq<string>, sources: seq<string>, contract: AnchorsContract,
                       key: string)
    requires key in required && key in raw && Clean(raw[key], contract.maxValueChars).Some?
    requires Grounded(Clean(raw[key], contract.maxValueChars).value, CollapseAll(sources))
    ensures var r := Ground(raw, required, sources, contract);
      var value := Clean(raw[key], contract.maxValueChars).value;
      key in r && (r[key] == value
                   || (&& r[key] == contract.sentinel && |value| > |contract.sentinel|
                       && Total(GroundEach(raw, required, CollapseAll(sources), contract)) > contract.maxTotalChars))
  {
    CapKeepsOrDegrades(GroundEach(raw, required, CollapseAll(sources), contract), contract.sentinel,
                       contract.maxTotalChars);
  }

  // ---- grounding twice ----

  function AsRaw(answers: Answers): map<string, Raw> {
    map key | key in answers :: Txt(answers[key])
  }

  /** Cleaning the sentinel rejects it, leaves it as it is, or gives a value that no source has. */
  predicate SentinelStable(sources: seq<string>, contract: AnchorsContract) {
    match Clean(Txt(contract.sentinel), contract.maxValueChars)
    case None => true
    case Some(s) => s == contract.sentinel || !Grounded(s, CollapseAll(sources))
  }

  lemma RegroundOne(value: Raw, sources: seq<string>, contract: AnchorsContract)
    ensures var r := GroundOne(value, CollapseAll(sources), contract);
      r != contract.sentinel ==> GroundOne(Txt(r), CollapseAll(sources), contract) == r
    ensures SentinelStable(sources, contract) <==>
      GroundOne(Txt(contract.sentinel), CollapseAll(sources), contract) == contract.sentinel
  {
    if Clean(value, contract.maxValueChars).Some? {
      CleanFixed(value, contract.maxValueChars);
    }
  }

  lemma GroundDependsOnRequired(raw: map<string, Raw>, raw': map<string, Raw>, required: seq<string>,
                                sources: seq<string>, contract: AnchorsContract)
    requires forall key :: key in required ==> Lookup(raw, key) == Lookup(raw', key)
    ensures Ground(raw, required, sources, contract) == Ground(raw', required, sources, contract)
  {
    assert GroundEach(raw, required, CollapseAll(sources), contract)
        == GroundEach(raw', required, CollapseAll(sources), contract);
  }

  /** Grounding an answer again, as the server does, changes nothing. */
  lemma GroundFixed(raw: map<string, Raw>, required: seq<string>, sources: seq<string>, contract: AnchorsContract)
    requires SentinelStable(sources, contract) || required == []
    ensures var r := Ground(raw, required, sources, contract);
      Ground(AsRaw(r), required, sources, contract) == r
  {
    if SentinelStable(sources, contract) {
      GroundStable(raw, required, sources, contract);
    } else {
      GroundDependsOnRequired(AsRaw(Ground(raw, required, sources, contract)), raw, required, sources, contract);
    }
  }

  lemma GroundStable(raw: map<string, Raw>, required: seq<string>, sources: seq<string>, contract: AnchorsContract)
    requires SentinelStable(sources, contract)
    ensures var r := Ground(raw, required, sources, contract);
      Ground(AsRaw(r), required, sources, contract) == r
  {
    var collapsed := CollapseAll(sources);
    var each := GroundEach(raw, required, collapsed, contract);
    var r := Ground(raw, required, sources, contract);
    CapKeepsOrDegrades(each, contract.sentinel, contract.maxTotalChars);
    CapFixed(each, contract.sentinel, contract.maxTotalChars);
    assert GroundEach(AsRaw(r), required, collapsed, contract) == r by {
      forall key | key in required
        ensures GroundOne(Lookup(AsRaw(r), key), collapsed, contract) == r[key]
      {
        RegroundOne(Lookup(raw, key), sources, contract);
      }
    }
  }

  /** The condition is exact as soon as anything is required: without it, some answer, the one with
      nothing filled in, is changed by grounding it again. */
  lemma GroundFixedIffStable(required: seq<string>, sources: seq<string>, contract: AnchorsContract)
    ensures SentinelStable(sources, contract) || required == [] <==>
      forall raw ::
        var r := Ground(raw, required, sources, contract);
        Ground(AsRaw(r), required, sources, contract) == r
  {
    if SentinelStable(sources, contract) || required == [] {
      forall raw ensures var r := Ground(raw, required, sources, contract);
        Ground(AsRaw(r), required, sources, contract) == r
      {
        GroundFixed(raw, required, sources, contract);
      }
    } else {
      Unstable(required, sources, contract);
    }
  }

  lemma Unstable(required: seq<string>, sources: seq<string>, contract: AnchorsContract)
    requires required != [] && !SentinelStable(sources, contract)
    ensures var r := Ground(map[], required, sources, contract);
      Ground(AsRaw(r), required, sources, contract) != r
  {
    var key := required[0];
    var collapsed := CollapseAll(sources);
    var r := Ground(map[], required, sources, contract);
    CapKeepsOrDegrades(GroundEach(map[], required, collapsed, contract), contract.sentinel, contract.maxTotalChars);
    assert r[key] == contract.sentinel;
    var again := GroundEach(AsRaw(r), required, collapsed, contract);
    CapKeepsOrDegrades(again, contract.sentinel, contract.maxTotalChars);
    RegroundOne(Compound, sources, contract);
    CleanedIsShorter(contract.sentinel, contract.maxValueChars);
    assert again[key] != contract.sentinel && |again[key]| < |contract.sentinel|;
  }

  lemma CleanedIsShorter(s: string, maxChars: int)
    requires Clean(Txt(s), maxChars).Some? && Clean(Txt(s), maxChars).value != s
    ensures |Clean(Txt(s), maxChars).value| < |s|
  {
    DropShortens(s);
    StripFixed(DropControl(s));
  }

  lemma {:induction false} DropShortens(s: string)
    ensures DropControl(s) == s || |DropControl(s)| < |s|
  {
    if s != "" {
      DropShortens(s[1..]);
      assert s == [s[0]] + s[1..];
    }
  }

  /** A sentinel without control characters or blanks at its ends, such as the default
      "Not specified", is stable whatever the sources. */
  lemma TidyIsStable(sources: seq<string>, contract: AnchorsContract)
    requires forall c :: c in contract.sentinel ==> !Control(c)
    requires var s := contract.sentinel; s != "" ==> !Space(s[0]) && !Space(s[|s| - 1])
    ensures SentinelStable(sources, contract)
  {
  }

  /** A sentinel with a blank in front is not, when a source contains the rest of it. */
  lemma PaddedIsNot(sources: seq<string>, tidy: string, contract: AnchorsContract)
    requires contract.sentinel == " " + tidy && tidy != "" && |tidy| <= contract.maxValueChars
    requires forall c :: c in tidy ==> !Control(c)
    requires !Space(tidy[0]) && !Space(tidy[|tidy| - 1]) && Grounded(tidy, CollapseAll(sources))
    ensures !SentinelStable(sources, contract)
  {
    CleanPadded(tidy, contract.maxValueChars);
    assert |contract.sentinel| == |tidy| + 1;
    OtherThanSentinel(sources, tidy, contract);
  }

  lemma OtherThanSentinel(sources: seq<string>, value: string, contract: AnchorsContract)
    requires Clean(Txt(contract.sentinel), contract.maxValueChars) == Some(value)
    requires value != contract.sentinel && Grounded(value, CollapseAll(sources))
    ensures !SentinelStable(sources, contract)
  {
  }

  lemma CleanPadded(tidy: string, maxChars: int)
    requires tidy != "" && |tidy| <= maxChars && forall c :: c in tidy ==> !Control(c)
    requires !Space(tidy[0]) && !Space(tidy[|tidy| - 1])
    ensures Clean(Txt(" " + tidy), maxChars) == Some(tidy)
  {
    assert forall c :: c in " " + tidy ==> c == ' ' || c in tidy;
    assert DropControl(" " + tidy) == " " + tidy;
    StripPadded(tidy);
  }

  lemma StripPadded(tidy: string)
    requires tidy != "" && !Space(tidy[0]) && !Space(tidy[|tidy| - 1])
    ensures Strip(" " + tidy) == tidy
  {
    assert (" " + tidy)[1..] == tidy;
  }

  /** For instance " N/A" with the source "N/A": an answer left open is the sentinel, and grounding it
      again takes it for a value of the source. */
  lemma PaddedExample()
    ensures var c := AnchorsContract(2000, 20000, " N/A");
      var r := Ground(map[], ["k"], ["N/A"], c);
      !SentinelStable(["N/A"], c) && Ground(AsRaw(r), ["k"], ["N/A"], c) != r
  {
    var tidy, c := "N/A", AnchorsContract(2000, 20000, " N/A");
    assert " N/A" == " " + tidy;
    CollapseWord(tidy);
    assert CollapseAll([tidy])[0] == tidy;
    assert At(tidy, tidy, 0);
    PaddedIsNot([tidy], tidy, c);
    Unstable(["k"], [tidy], c);
  }

  lemma CollapseWord(w: string)
    requires w != "" && Solid(w)
    ensures Collapse(w) == w
  {
    SqueezeWord(w, "");
    assert w + "" == w && w[0] in w && w[|w| - 1] in w;
  }
}
