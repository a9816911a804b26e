/** The authored contract: closed-set fields ground to one of their own labels, verbatim fields as
    anchors. Case folding is a parameter; nothing about it is relied on. */
module ClosedSet {
  import opened Prelude
  import opened Text
  import opened Lines
  import opened TotalCap
  import opened Anchors

  type Fold = string -> string

  /** `" ".join(value.split()).casefold()` */
  function Normalise(fold: Fold, value: string): string {
    fold(Join(Words(value), ' '))
  }

  function Coerce(value: Raw): Option<string> {
    match value
    case Txt(s) => Some(s)
    case Flag(b) => Some(if b then "true" else "false")
    case Whole(n) => Some(if n < 0 then "-" + Decimal(-n) else Decimal(n))
    case Fraction(text) => Some(text)
    case Compound => None
  }

  datatype Mode = Verbatim | Closed
  datatype Field = Field(name: string, mode: Mode, allowed: seq<string>)

  ghost predicate Distinct(fold: Fold, allowed: seq<string>) {
    forall i, j :: 0 <= i < j < |allowed| ==> Normalise(fold, allowed[i]) != Normalise(fold, allowed[j])
  }

  /** What constructing a field checks. */
  ghost predicate FieldOk(fold: Fold, f: Field) {
    && f.name != ""
    && if f.mode.Closed? then f.allowed != [] && "" !in f.allowed && Distinct(fold, f.allowed) else f.allowed == []
  }

  datatype GroundedContract = GroundedContract(fields: seq<Field>, anchors: AnchorsContract)

  /** What constructing a contract checks of its fields. */
  ghost predicate ContractOk(fold: Fold, c: GroundedContract) {
    && c.fields != []
    && (forall f :: f in c.fields ==> FieldOk(fold, f))
    && DistinctNames(c.fields)
    && forall f, v :: f in c.fields && f.mode.Closed? && v in f.allowed ==>
         Normalise(fold, v) != Normalise(fold, c.anchors.sentinel)
  }

  /** The first label equal to the value after normalisation. */
  function FindLabel(fold: Fold, allowed: seq<string>, needle: string): Option<string> {
    if allowed == [] then None
    else if Normalise(fold, allowed[0]) == needle then Some(allowed[0])
    else FindLabel(fold, allowed[1..], needle)
  }

  function GroundLabel(fold: Fold, f: Field, value: Raw, sentinel: string): Option<string> {
    match Coerce(value)
    case None => None
    case Some(coerced) =>
      if coerced == sentinel then None else FindLabel(fold, f.allowed, Normalise(fold, coerced))
  }

  /** The search as the loop it is. */
  method FindLabelLoop(fold: Fold, f: Field, value: Raw, sentinel: string) returns (found: Option<string>)
    ensures found == GroundLabel(fold, f, value, sentinel)
  {
    var coerced := Coerce(value);
    if coerced.None? || coerced.value == sentinel {
      return None;
    }
    var needle := Normalise(fold, coerced.value);
    assert f.allowed[0..] == f.allowed;
    for i := 0 to |f.allowed|
      invariant FindLabel(fold, f.allowed, needle) == FindLabel(fold, f.allowed[i..], needle)
    {
      if Normalise(fold, f.allowed[i]) == needle {
        return Some(f.allowed[i]);
      }
      assert f.allowed[i..][1..] == f.allowed[i + 1..];
    }
    return None;
  }

  function VerbatimNames(fields: seq<Field>): seq<string> {
    if fields == [] then []
    else (if fields[0].mode.Verbatim? then [fields[0].name] else []) + VerbatimNames(fields[1..])
  }

  function LabelOrSentinel(l: Option<string>, sentinel: string): string {
    if l.None? || l.value == "" then sentinel else l.value
  }

  function FieldAnswer(fold: Fold, f: Field, raw: map<string, Raw>, verbatim: Answers, sentinel: string): string {
    if f.mode.Verbatim? then (if f.name in verbatim then verbatim[f.name] else sentinel)
    else LabelOrSentinel(GroundLabel(fold, f, Lookup(raw, f.name), sentinel), sentinel)
  }

  function FillFields(fold: Fold, fields: seq<Field>, raw: map<string, Raw>, verbatim: Answers, sentinel: string)
    : Answers
  {
    if fields == [] then map[]
    else
      var f := fields[|fields| - 1];
      FillFields(fold, fields[..|fields| - 1], raw, verbatim, sentinel)
        [f.name := FieldAnswer(fold, f, raw, verbatim, sentinel)]
  }

  ghost function GroundFields(fold: Fold, raw: map<string, Raw>, c: GroundedContract, sources: seq<string>): Answers {
    FillFields(fold, c.fields, raw, Ground(raw, VerbatimNames(c.fields), sources, c.anchors), c.anchors.sentinel)
  }

  method GroundFieldsLoop(fold: Fold, raw: map<string, Raw>, c: GroundedContract, sources: seq<string>)
    returns (grounded: Answers)
    ensures grounded == GroundFields(fold, raw, c, sources)
  {
    var sentinel := c.anchors.sentinel;
    var verbatim := GroundAnchors(raw, VerbatimNames(c.fields), sources, c.anchors);
    grounded := map[];
    for i := 0 to |c.fields|
      invariant grounded == FillFields(fold, c.fields[..i], raw, verbatim, sentinel)
    {
      var f := c.fields[i];
      var answer;
      if f.mode.Verbatim? {
        VerbatimNamed(c.fields, i);
        GroundKeys(raw, VerbatimNames(c.fields), sources, c.anchors);
        answer := verbatim[f.name];
      } else {
        var chosen := FindLabelLoop(fold, f, Lookup(raw, f.name), sentinel);
        answer := LabelOrSentinel(chosen, sentinel);
      }
      assert answer == FieldAnswer(fold, f, raw, verbatim, sentinel);
      FillNext(fold, c.fields, i, raw, verbatim, sentinel);
      grounded := grounded[f.name := answer];
    }
    assert c.fields[..|c.fields|] == c.fields;
  }

  lemma FillNext(fold: Fold, fields: seq<Field>, i: nat, raw: map<string, Raw>, verbatim: Answers, sentinel: string)
    requires i < |fields|
    ensures FillFields(fold, fields[..i + 1], raw, verbatim, sentinel)
         == FillFields(fold, fields[..i], raw, verbatim, sentinel)
              [fields[i].name := FieldAnswer(fold, fields[i], raw, verbatim, sentinel)]
  {
    assert fields[..i + 1][..i] == fields[..i];
  }

  lemma {:induction false} VerbatimNamed(fields: seq<Field>, i: nat)
    requires i < |fields| && fields[i].mode.Verbatim?
    ensures fields[i].name in VerbatimNames(fields)
  {
    if i > 0 {
      VerbatimNamed(fields[1..], i - 1);
    }
  }

  // ---- the label is unique ----

  lemma {:induction false} FindLabelIs(fold: Fold, allowed: seq<string>, needle: string)
    ensures match FindLabel(fold, allowed, needle)
      case None => forall v :: v in allowed ==> Normalise(fold, v) != needle
      case Some(chosen) => chosen in allowed && Normalise(fold, chosen) == needle
  {
    if allowed != [] {
      FindLabelIs(fold, allowed[1..], needle);
      assert allowed == [allowed[0]] + allowed[1..];
    }
  }

  lemma SameNormal(fold: Fold, allowed: seq<string>, a: string, b: string)
    requires Distinct(fold, allowed) && a in allowed && b in allowed && Normalise(fold, a) == Normalise(fold, b)
    ensures a == b
  {
    var i :| 0 <= i < |allowed| && allowed[i] == a;
    var j :| 0 <= j < |allowed| && allowed[j] == b;
  }

  /** A grounded value is an authored label, the only one that normalises to what the model said; and
      a value fails only if no label does. */
  lemma LabelIsUnique(fold: Fold, f: Field, value: Raw, sentinel: string)
    requires FieldOk(fold, f) && f.mode.Closed?
    ensures match GroundLabel(fold, f, value, sentinel)
      case None => Coerce(value).None? || Coerce(value).value == sentinel
                || forall v :: v in f.allowed ==> Normalise(fold, v) != Normalise(fold, Coerce(value).value)
      case Some(chosen) =>
        && chosen in f.allowed && Coerce(value).Some?
        && forall v :: v in f.allowed ==>
                     (Normalise(fold, v) == Normalise(fold, Coerce(value).value) <==> v == chosen)
  {
    var chosen := GroundLabel(fold, f, value, sentinel);
    if Coerce(value).Some? && Coerce(value).value != sentinel {
      var needle := Normalise(fold, Coerce(value).value);
      FindLabelIs(fold, f.allowed, needle);
      if chosen.Some? {
        forall v | v in f.allowed && Normalise(fold, v) == needle ensures v == chosen.value {
          SameNormal(fold, f.allowed, v, chosen.value);
        }
      }
    }
  }

  /** The order in which the labels were authored does not matter. */
  lemma LabelIgnoresOrder(fold: Fold, f: Field, g: Field, value: Raw, sentinel: string)
    requires FieldOk(fold, f) && FieldOk(fold, g) && f.mode.Closed? && g.mode.Closed?
    requires forall v :: v in f.allowed <==> v in g.allowed
    ensures GroundLabel(fold, f, value, sentinel) == GroundLabel(fold, g, value, sentinel)
  {
    LabelIsUnique(fold, f, value, sentinel);
    LabelIsUnique(fold, g, value, sentinel);
  }

  /** A label grounds to itself. */
  lemma LabelFixed(fold: Fold, f: Field, chosen: string, sentinel: string)
    requires FieldOk(fold, f) && f.mode.Closed? && chosen in f.allowed
    requires Normalise(fold, chosen) != Normalise(fold, sentinel)
    ensures GroundLabel(fold, f, Txt(chosen), sentinel) == Some(chosen)
  {
    LabelIsUnique(fold, f, Txt(chosen), sentinel);
  }

  // ---- all fields ----

  ghost predicate DistinctNames(fields: seq<Field>) {
    forall i, j :: 0 <= i < j < |fields| ==> fields[i].name != fields[j].name
  }

  function Names(fields: seq<Field>): set<string> {
    set i | 0 <= i < |fields| :: fields[i].name
  }

  lemma {:induction false} FillFieldsNames(fold: Fold, fields: seq<Field>, raw: map<string, Raw>, verbatim: Answers,
                                           sentinel: string)
    ensures FillFields(fold, fields, raw, verbatim, sentinel).Keys == Names(fields)
  {
    if fields != [] {
      var most, last := fields[..|fields| - 1], fields[|fields| - 1];
      FillFieldsNames(fold, most, raw, verbatim, sentinel);
      assert Names(fields) == Names(most) + {last.name} by {
        assert forall i :: 0 <= i < |most| ==> most[i] == fields[i];
      }
    }
  }

  lemma {:induction false} FillFieldsAt(fold: Fold, fields: seq<Field>, raw: map<string, Raw>, verbatim: Answers,
                                        sentinel: string, i: nat)
    requires DistinctNames(fields) && i < |fields|
    ensures var r := FillFields(fold, fields, raw, verbatim, sentinel);
      fields[i].name in r && r[fields[i].name] == FieldAnswer(fold, fields[i], raw, verbatim, sentinel)
  {
    var most, last := fields[..|fields| - 1], fields[|fields| - 1];
    if i < |most| {
      FillFieldsAt(fold, most, raw, verbatim, sentinel, i);
      assert most[i] == fields[i] && fields[i].name != last.name;
    }
  }

  /** A grounded result field by field. */
  lemma GroundFieldsAt(fold: Fold, raw: map<string, Raw>, c: GroundedContract, sources: seq<string>)
    requires DistinctNames(c.fields)
    ensures var verbatim := Ground(raw, VerbatimNames(c.fields), sources, c.anchors);
      var r := GroundFields(fold, raw, c, sources);
      && r.Keys == Names(c.fields)
      && forall f :: f in c.fields ==>
           f.name in r && r[f.name] == FieldAnswer(fold, f, raw, verbatim, c.anchors.sentinel)
  {
    var verbatim := Ground(raw, VerbatimNames(c.fields), sources, c.anchors);
    FillFieldsNames(fold, c.fields, raw, verbatim, c.anchors.sentinel);
    forall f | f in c.fields
      ensures var r := GroundFields(fold, raw, c, sources);
        f.name in r && r[f.name] == FieldAnswer(fold, f, raw, verbatim, c.anchors.sentinel)
    {
      var i :| 0 <= i < |c.fields| && c.fields[i] == f;
      FillFieldsAt(fold, c.fields, raw, verbatim, c.anchors.sentinel, i);
    }
  }

  lemma {:induction false} VerbatimNamesAre(fields: seq<Field>)
    ensures forall name ::
      name in VerbatimNames(fields) <==> exists f :: f in fields && f.mode.Verbatim? && f.name == name
  {
    if fields != [] {
      VerbatimNamesAre(fields[1..]);
      var first := fields[0];
      assert forall f :: f in fields <==> f == first || f in fields[1..];
    }
  }

  /** The verbatim fields of a result are the grounded anchors. */
  lemma VerbatimPart(fold: Fold, raw: map<string, Raw>, c: GroundedContract, sources: seq<string>)
    requires DistinctNames(c.fields)
    ensures var names := VerbatimNames(c.fields);
      var verbatim := Ground(raw, names, sources, c.anchors);
      var r := GroundFields(fold, raw, c, sources);
      forall name :: name in names ==> name in verbatim && name in r && r[name] == verbatim[name]
  {
    GroundFieldsAt(fold, raw, c, sources);
    VerbatimNamesAre(c.fields);
    GroundKeys(raw, VerbatimNames(c.fields), sources, c.anchors);
  }

  /** The result has exactly the contract's fields; each is a grounded verbatim value, an authored
      label, or the sentinel. */
  lemma FieldsAreGrounded(fold: Fold, raw: map<string, Raw>, c: GroundedContract, sources: seq<string>)
    requires ContractOk(fold, c)
    ensures var r := GroundFields(fold, raw, c, sources);
      && r.Keys == Names(c.fields)
      && forall f :: f in c.fields ==>
           || r[f.name] == c.anchors.sentinel
           || (f.mode.Closed? && r[f.name] in f.allowed)
           || (f.mode.Verbatim? && Grounded(r[f.name], CollapseAll(sources)))
  {
    GroundFieldsAt(fold, raw, c, sources);
    AnswersAreGrounded(raw, VerbatimNames(c.fields), sources, c.anchors);
    forall f | f in c.fields && f.mode.Closed? {
      LabelIsUnique(fold, f, Lookup(raw, f.name), c.anchors.sentinel);
    }
  }

  /** A closed-set field is answered with a label exactly when the model said that label, up to
      whitespace and case: their words, with single spaces, fold alike. */
  lemma ClosedExact(fold: Fold, raw: map<string, Raw>, c: GroundedContract, sources: seq<string>, f: Field,
                    chosen: string)
    requires ContractOk(fold, c) && f in c.fields && f.mode.Closed? && chosen in f.allowed
    ensures f.name in GroundFields(fold, raw, c, sources)
    ensures GroundFields(fold, raw, c, sources)[f.name] == chosen <==>
      && f.name in raw && Coerce(raw[f.name]).Some?
      && fold(Join(Words(Coerce(raw[f.name]).value), ' ')) == fold(Join(Words(chosen), ' '))
  {
    var sentinel := c.anchors.sentinel;
    GroundFieldsAt(fold, raw, c, sources);
    LabelIsUnique(fold, f, Lookup(raw, f.name), sentinel);
    assert Normalise(fold, chosen) != Normalise(fold, sentinel);
    var found := GroundLabel(fold, f, Lookup(raw, f.name), sentinel);
    assert GroundFields(fold, raw, c, sources)[f.name] == LabelOrSentinel(found, sentinel);
  }

  /** Text other than the sentinel grounds to a label exactly when the words of the two, with single
      spaces, fold alike, and to nothing exactly when no label's do. */
  lemma SaidIsGrounded(fold: Fold, f: Field, said: string, sentinel: string)
    requires FieldOk(fold, f) && f.mode.Closed? && said != sentinel
    ensures forall v :: v in f.allowed ==>
      (GroundLabel(fold, f, Txt(said), sentinel) == Some(v) <==>
        fold(Join(Words(said), ' ')) == fold(Join(Words(v), ' ')))
    ensures GroundLabel(fold, f, Txt(said), sentinel).None? <==>
      forall v :: v in f.allowed ==> fold(Join(Words(said), ' ')) != fold(Join(Words(v), ' '))
  {
    LabelIsUnique(fold, f, Txt(said), sentinel);
    forall v | v in f.allowed
      ensures Normalise(fold, v) == fold(Join(Words(v), ' '))
    {
    }
    var found := GroundLabel(fold, f, Txt(said), sentinel);
    if found.Some? {
      assert found.value in f.allowed && Normalise(fold, found.value) == Normalise(fold, said);
    }
  }

  /** Texts with the same words ground alike. */
  lemma WordsDecide(fold: Fold, f: Field, s: string, t: string, sentinel: string)
    requires FieldOk(fold, f) && f.mode.Closed? && s != sentinel && t != sentinel && Words(s) == Words(t)
    ensures GroundLabel(fold, f, Txt(s), sentinel) == GroundLabel(fold, f, Txt(t), sentinel)
  {
    SaidIsGrounded(fold, f, s, sentinel);
    SaidIsGrounded(fold, f, t, sentinel);
    var a, b := GroundLabel(fold, f, Txt(s), sentinel), GroundLabel(fold, f, Txt(t), sentinel);
    LabelIsUnique(fold, f, Txt(s), sentinel);
    LabelIsUnique(fold, f, Txt(t), sentinel);
    assert a.Some? ==> a.value in f.allowed;
    assert b.Some? ==> b.value in f.allowed;
  }

  /** What a scalar says: text itself; a boolean as JSON writes it; a whole number in decimal, with a
      minus sign if it is negative; other numbers as JSON writes them; anything else says nothing. */
  lemma SaysExact(value: Raw)
    ensures Coerce(value).None? <==> value.Compound?
    ensures value.Txt? ==> Coerce(value) == Some(value.s)
    ensures value.Flag? ==> Coerce(value) == Some(if value.b then "true" else "false")
    ensures value.Fraction? ==> Coerce(value) == Some(value.text)
    ensures value.Whole? ==>
      var said := Coerce(value).value;
      && (value.n < 0 <==> said[..1] == "-")
      && Numeral(if value.n < 0 then said[1..] else said) == if value.n < 0 then -value.n else value.n
  {
    if value.Whole? {
      var n := if value.n < 0 then -value.n else value.n;
      NumeralOfDecimal(n);
      assert ("-" + Decimal(n))[1..] == Decimal(n);
      assert |Decimal(n)| > 0 && Decimal(n)[0] in Decimal(n);
      assert ("-" + Decimal(n))[..1] == "-" && Decimal(n)[..1][0] == Decimal(n)[0];
    }
  }

  lemma ClosedFixed(fold: Fold, c: GroundedContract, f: Field, raw: map<string, Raw>, again: map<string, Raw>,
                    verbatim: Answers, verbatim': Answers)
    requires ContractOk(fold, c) && f in c.fields && f.mode.Closed?
    requires Lookup(again, f.name) == Txt(FieldAnswer(fold, f, raw, verbatim, c.anchors.sentinel))
    ensures FieldAnswer(fold, f, again, verbatim', c.anchors.sentinel)
         == FieldAnswer(fold, f, raw, verbatim, c.anchors.sentinel)
  {
    var sentinel := c.anchors.sentinel;
    LabelIsUnique(fold, f, Lookup(raw, f.name), sentinel);
    var chosen := GroundLabel(fold, f, Lookup(raw, f.name), sentinel);
    if chosen.Some? {
      LabelFixed(fold, f, chosen.value, sentinel);
    }
  }

  /** Grounding a result again grounds its verbatim part again. */
  lemma RegroundVerbatim(fold: Fold, raw: map<string, Raw>, c: GroundedContract, sources: seq<string>)
    requires DistinctNames(c.fields)
    ensures var names := VerbatimNames(c.fields);
      Ground(AsRaw(GroundFields(fold, raw, c, sources)), names, sources, c.anchors)
        == Ground(AsRaw(Ground(raw, names, sources, c.anchors)), names, sources, c.anchors)
  {
    var names := VerbatimNames(c.fields);
    var verbatim := Ground(raw, names, sources, c.anchors);
    VerbatimPart(fold, raw, c, sources);
    GroundDependsOnRequired(AsRaw(GroundFields(fold, raw, c, sources)), AsRaw(verbatim), names, sources, c.anchors);
  }

  /** Grounding a grounded result again changes no field. */
  lemma FieldsFixed(fold: Fold, raw: map<string, Raw>, c: GroundedContract, sources: seq<string>)
    requires ContractOk(fold, c) && (SentinelStable(sources, c.anchors) || VerbatimNames(c.fields) == [])
    ensures var r := GroundFields(fold, raw, c, sources);
      GroundFields(fold, AsRaw(r), c, sources) == r
  {
    var names := VerbatimNames(c.fields);
    var verbatim := Ground(raw, names, sources, c.anchors);
    var r := GroundFields(fold, raw, c, sources);
    GroundFieldsAt(fold, raw, c, sources);
    GroundFixed(raw, names, sources, c.anchors);
    RegroundVerbatim(fold, raw, c, sources);
    GroundFieldsAt(fold, AsRaw(r), c, sources);
    SameAnswers(fold, c, raw, verbatim, r, GroundFields(fold, AsRaw(r), c, sources));
  }

  lemma SameAnswers(fold: Fold, c: GroundedContract, raw: map<string, Raw>, verbatim: Answers, r: Answers,
                    again: Answers)
    requires ContractOk(fold, c) && r.Keys == Names(c.fields) && again.Keys == Names(c.fields)
    requires forall f :: f in c.fields ==>
      f.name in r && r[f.name] == FieldAnswer(fold, f, raw, verbatim, c.anchors.sentinel)
    requires forall f :: f in c.fields ==>
      f.name in again && again[f.name] == FieldAnswer(fold, f, AsRaw(r), verbatim, c.anchors.sentinel)
    ensures again == r
  {
    forall i | 0 <= i < |c.fields| ensures again[c.fields[i].name] == r[c.fields[i].name] {
      assert c.fields[i] in c.fields;
      if c.fields[i].mode.Closed? {
        ClosedFixed(fold, c, c.fields[i], raw, AsRaw(r), verbatim, verbatim);
      }
    }
  }

  /** As for anchors, the condition is exact: the sentinel matters only to verbatim fields. */
  lemma FieldsFixedIffStable(fold: Fold, c: GroundedContract, sources: seq<string>)
    requires ContractOk(fold, c)
    ensures SentinelStable(sources, c.anchors) || VerbatimNames(c.fields) == [] <==>
      forall raw :: var r := GroundFields(fold, raw, c, sources); GroundFields(fold, AsRaw(r), c, sources) == r
  {
    if SentinelStable(sources, c.anchors) || VerbatimNames(c.fields) == [] {
      forall raw ensures var r := GroundFields(fold, raw, c, sources); GroundFields(fold, AsRaw(r), c, sources) == r {
        FieldsFixed(fold, raw, c, sources);
      }
    } else {
      UnstableField(fold, c, sources);
    }
  }

  lemma UnstableField(fold: Fold, c: GroundedContract, sources: seq<string>)
    requires ContractOk(fold, c) && VerbatimNames(c.fields) != [] && !SentinelStable(sources, c.anchors)
    ensures var r := GroundFields(fold, map[], c, sources); GroundFields(fold, AsRaw(r), c, sources) != r
  {
    var names := VerbatimNames(c.fields);
    var r := GroundFields(fold, map[], c, sources);
    var name := UnstableVerbatim(names, sources, c.anchors);
    RegroundVerbatim(fold, map[], c, sources);
    PartDiffers(fold, map[], AsRaw(r), c, sources, name);
  }

  lemma UnstableVerbatim(names: seq<string>, sources: seq<string>, contract: AnchorsContract) returns (name: string)
    requires names != [] && !SentinelStable(sources, contract)
    ensures var a := Ground(map[], names, sources, contract);
      var b := Ground(AsRaw(a), names, sources, contract);
      name in names && name in a && name in b && a[name] != b[name]
  {
    var a := Ground(map[], names, sources, contract);
    var b := Ground(AsRaw(a), names, sources, contract);
    Unstable(names, sources, contract);
    GroundKeys(map[], names, sources, contract);
    GroundKeys(AsRaw(a), names, sources, contract);
    name := Differ(a, b);
  }

  lemma Differ(a: Answers, b: Answers) returns (name: string)
    requires a.Keys == b.Keys && a != b
    ensures name in a && a[name] != b[name]
  {
    name :| name in a && a[name] != b[name];
  }

  /** Results differ where their verbatim parts do. */
  lemma PartDiffers(fold: Fold, raw: map<string, Raw>, raw': map<string, Raw>, c: GroundedContract,
                    sources: seq<string>, name: string)
    requires DistinctNames(c.fields) && name in VerbatimNames(c.fields)
    requires var a := Ground(raw, VerbatimNames(c.fields), sources, c.anchors);
      var b := Ground(raw', VerbatimNames(c.fields), sources, c.anchors);
      name in a && name in b && a[name] != b[name]
    ensures GroundFields(fold, raw, c, sources) != GroundFields(fold, raw', c, sources)
  {
    VerbatimPart(fold, raw, c, sources);
    VerbatimPart(fold, raw', c, sources);
  }
}
