/** Python's `str` helpers on characters, and the whitespace normal form. */
module Text {
  import opened Lines

  /** `str.isspace` for one character, which is also what `\s` matches and `strip` removes. */
  predicate Space(c: char) {
    var u := c as int;
    || 0x09 <= u <= 0x0D || 0x1C <= u <= 0x20 || u == 0x85 || u == 0xA0 || u == 0x1680
    || 0x2000 <= u <= 0x200A || u == 0x2028 || u == 0x2029 || u == 0x202F || u == 0x205F || u == 0x3000
  }

  /** In ASCII: blank, tab, line feed, vertical tab, form feed, carriage return and the four separators. */
  lemma AsciiSpace(c: char)
    requires c as int < 0x80
    ensures Space(c) <==> c in " \t\n\r" || c as int in {0x0B, 0x0C, 0x1C, 0x1D, 0x1E, 0x1F}
  {
    assert " \t\n\r" == [' ', '\t', '\n', '\r'];
  }

  /** `not line.strip()` */
  predicate Blank(s: string) {
    forall c :: c in s ==> Space(c)
  }

  function LStrip(s: string): (r: string)
    ensures |r| <= |s| && (r == "" || !Space(r[0]))
    ensures forall c :: c in r ==> c in s
    ensures s == "" || !Space(s[0]) ==> r == s
  {
    if s != "" && Space(s[0]) then LStrip(s[1..]) else s
  }

  function RStrip(s: string): (r: string)
    ensures r <= s && (r == "" || !Space(r[|r| - 1]))
    ensures s == "" || !Space(s[|s| - 1]) ==> r == s
  {
    if s != "" && Space(s[|s| - 1]) then RStrip(s[..|s| - 1]) else s
  }

  function Strip(s: string): string {
    RStrip(LStrip(s))
  }

  lemma StripFixed(s: string)
    ensures Strip(Strip(s)) == Strip(s) && |Strip(s)| <= |s|
    ensures forall c :: c in Strip(s) ==> c in s
    ensures Strip(s) == s || |Strip(s)| < |s|
  {
    LStripSuffix(s);
  }

  lemma LStripSuffix(s: string)
    ensures LStrip(s) == s || |LStrip(s)| < |s|
  {
  }

  /** `re.sub(r"\s+", " ", s)` */
  function Squeeze(s: string): string
    decreases |s|
  {
    if s == "" then ""
    else if Space(s[0]) then " " + Squeeze(LStrip(s[1..]))
    else [s[0]] + Squeeze(s[1..])
  }

  /** The form in which values and sources are compared. */
  function Collapse(s: string): string {
    Strip(Squeeze(s))
  }

  predicate Solid(w: string) {
    forall c :: c in w ==> !Space(c)
  }

  /** The leading run of other than whitespace. */
  function Word(s: string): (w: string)
    ensures w <= s && Solid(w) && (|w| < |s| ==> Space(s[|w|]))
    ensures s != "" && !Space(s[0]) ==> w != ""
  {
    if s == "" || Space(s[0]) then "" else [s[0]] + Word(s[1..])
  }

  /** `s.split()` */
  function Words(s: string): seq<string>
    decreases |s|
  {
    var t := LStrip(s);
    if t == "" then [] else [Word(t)] + Words(t[|Word(t)|..])
  }

  lemma {:induction false} RStripTail(a: string, b: string)
    requires RStrip(b) != ""
    ensures RStrip(a + b) == a + RStrip(b)
    decreases |b|
  {
    if Space(b[|b| - 1]) {
      assert (a + b)[..|a + b| - 1] == a + b[..|b| - 1];
      RStripTail(a, b[..|b| - 1]);
    }
  }

  lemma {:induction false} SqueezeWord(w: string, t: string)
    requires Solid(w)
    ensures Squeeze(w + t) == w + Squeeze(t)
    decreases |w|
  {
    if w == "" {
      assert w + t == t;
    } else {
      assert (w + t)[1..] == w[1..] + t;
      SqueezeWord(w[1..], t);
    }
  }

  /** For text that starts with a word, squeezing runs of whitespace and stripping the end gives
      its words with one space between. */
  lemma {:induction false} SqueezeIsJoin(s: string)
    requires s == "" || !Space(s[0])
    ensures RStrip(Squeeze(s)) == Join(Words(s), ' ') && (s != "" ==> RStrip(Squeeze(s)) != "" && Words(s) != [])
    decreases |s|
  {
    if s != "" {
      var w := Word(s);
      var rest := s[|w|..];
      assert s == w + rest;
      SqueezeWord(w, rest);
      if rest == "" {
        assert Words(rest) == [] && w + "" == w;
      } else {
        var u := LStrip(rest[1..]);
        SqueezeIsJoin(u);
        JoinStep(w, u);
        assert Words(rest) == Words(u);
      }
    }
  }

  lemma JoinStep(w: string, u: string)
    requires w != "" && Solid(w)
    requires RStrip(Squeeze(u)) == Join(Words(u), ' ') && (u != "" ==> RStrip(Squeeze(u)) != "" && Words(u) != [])
    ensures RStrip(w + (" " + Squeeze(u))) == Join([w] + Words(u), ' ')
  {
    if u == "" {
      LastWord(w);
    } else {
      var q := Squeeze(u);
      assert w + (" " + q) == (w + " ") + q;
      RStripTail(w + " ", q);
      assert RStrip((w + " ") + q) == w + " " + RStrip(q);
      JoinCons(w, Words(u));
    }
  }

  lemma LastWord(w: string)
    requires w != "" && Solid(w)
    ensures RStrip(w + (" " + Squeeze(""))) == w == Join([w] + Words(""), ' ')
  {
    assert w + (" " + "") == w + " " && (w + " ")[..|w|] == w;
    assert w[|w| - 1] in w;
  }

  lemma JoinCons(w: string, ws: seq<string>)
    requires ws != []
    ensures Join([w] + ws, ' ') == w + " " + Join(ws, ' ')
  {
    assert ([w] + ws)[1..] == ws;
  }

  /** The two ways the program writes it agree: substituting runs and stripping, and joining the
      words. */
  lemma CollapseIsJoin(s: string)
    ensures Collapse(s) == Join(Words(s), ' ')
  {
    var t := LStrip(s);
    SqueezeIsJoin(t);
    assert Words(s) == Words(t);
    if s != "" && Space(s[0]) {
      assert Squeeze(s)[1..] == Squeeze(t);
    }
    assert t != "" ==> Squeeze(t) != "" && !Space(Squeeze(t)[0]);
  }

  lemma {:induction false} WordsOfJoin(ws: seq<string>)
    requires forall w :: w in ws ==> w != "" && Solid(w)
    ensures Words(Join(ws, ' ')) == ws
  {
    if ws != [] {
      var w, rest := ws[0], ws[1..];
      assert w in ws && (forall x :: x in rest ==> x in ws);
      WordsOfJoin(rest);
      assert [w] + rest == ws;
      if rest != [] {
        assert rest[0] in ws;
      }
      FirstOfJoin(w, rest);
    }
  }

  lemma FirstOfJoin(w: string, rest: seq<string>)
    requires w != "" && Solid(w) && (rest != [] ==> rest[0] != "" && Solid(rest[0]))
    ensures Words(Join([w] + rest, ' ')) == [w] + Words(Join(rest, ' '))
  {
    if rest == [] {
      assert Join([w] + rest, ' ') == w + "";
      WordsCons(w, "", "");
    } else {
      var j := Join(rest, ' ');
      JoinStarts(rest);
      WordsCons(w, " " + j, j);
      JoinCons(w, rest);
      assert w + " " + j == w + (" " + j);
    }
  }

  lemma JoinStarts(ws: seq<string>)
    requires ws != [] && ws[0] != "" && Solid(ws[0])
    ensures Join(ws, ' ') != "" && !Space(Join(ws, ' ')[0])
  {
    assert ws[0][0] in ws[0];
    assert |ws| > 1 ==> Join(ws, ' ')[0] == ws[0][0];
  }

  lemma WordsCons(w: string, t: string, u: string)
    requires w != "" && Solid(w) && (u == "" || !Space(u[0])) && t == (if u == "" then "" else " " + u)
    ensures Words(w + t) == [w] + Words(u)
  {
    WordThen(w, t);
    assert w[0] in w && (w + t)[0] == w[0];
    assert LStrip(w + t) == w + t;
    assert Words(t) == Words(u) by {
      if u != "" {
        assert t[1..] == u && LStrip(t) == u;
      }
    }
  }

  lemma {:induction false} WordThen(w: string, t: string)
    requires Solid(w) && (t == "" || Space(t[0]))
    ensures Word(w + t) == w && (w + t)[|w|..] == t
  {
    if w != "" {
      assert (w + t)[1..] == w[1..] + t;
      WordThen(w[1..], t);
    }
  }

  lemma {:induction false} WordsAreWords(s: string)
    ensures forall w :: w in Words(s) ==> w != "" && Solid(w)
    decreases |s|
  {
    var t := LStrip(s);
    if t != "" {
      WordsAreWords(t[|Word(t)|..]);
    }
  }

  lemma {:induction false} WordsSpace(c: char, t: string)
    requires Space(c)
    ensures Words([c] + t) == Words(t)
  {
    assert ([c] + t)[1..] == t;
  }

  lemma {:induction false} WordsOne(w: string)
    requires w != "" && Solid(w)
    ensures Words(w) == [w] && Words("") == []
  {
    WordsCons(w, "", "");
    assert w + "" == w;
  }

  /** What words are: nothing in the empty text, one in a text without whitespace, and the words of both
      sides of any whitespace character. */
  lemma {:induction false} WordsAtSpace(s: string, c: char, t: string)
    requires Space(c)
    ensures Words(s + [c] + t) == Words(s) + Words(t)
    decreases |s|
  {
    if s == "" {
      WordsBefore(c, t);
    } else if Space(s[0]) {
      WordsSkip(s, c, t);
      WordsAtSpace(s[1..], c, t);
    } else {
      var rest := s[|Word(s)|..];
      WordsFirst(s, c, t);
      WordsAtSpace(rest, c, t);
      Associative([Word(s)], Words(rest), Words(t));
    }
  }

  lemma Associative(a: seq<string>, b: seq<string>, c: seq<string>)
    ensures a + (b + c) == a + b + c
  {
  }

  lemma {:induction false} WordsBefore(c: char, t: string)
    requires Space(c)
    ensures Words("" + [c] + t) == Words("") + Words(t)
  {
    assert "" + [c] + t == [c] + t;
    WordsSpace(c, t);
    assert Words("") == [];
  }

  lemma {:induction false} WordsSkip(s: string, c: char, t: string)
    requires s != "" && Space(s[0])
    ensures Words(s) == Words(s[1..]) && Words(s + [c] + t) == Words(s[1..] + [c] + t)
  {
    assert s + [c] + t == [s[0]] + (s[1..] + [c] + t) && s == [s[0]] + s[1..];
    WordsSpace(s[0], s[1..] + [c] + t);
    WordsSpace(s[0], s[1..]);
  }

  lemma {:induction false} WordsFirst(s: string, c: char, t: string)
    requires s != "" && !Space(s[0]) && Space(c)
    ensures Words(s) == [Word(s)] + Words(s[|Word(s)|..])
    ensures Words(s + [c] + t) == [Word(s)] + Words(s[|Word(s)|..] + [c] + t)
  {
    var whole := s + [c] + t;
    WordStart(s, [c] + t);
    assert whole == s + ([c] + t);
    assert whole[|Word(s)|..] == s[|Word(s)|..] + [c] + t;
  }

  lemma {:induction false} WordStart(s: string, t: string)
    requires s != "" && !Space(s[0]) && t != "" && Space(t[0])
    ensures Word(s + t) == Word(s) && LStrip(s + t) == s + t && LStrip(s) == s
    decreases |s|
  {
    assert (s + t)[0] == s[0] && (s + t)[1..] == s[1..] + t;
    if |s| > 1 && !Space(s[1]) {
      WordStart(s[1..], t);
    } else if |s| == 1 {
      assert s[1..] + t == t;
    } else {
      assert (s[1..] + t)[0] == s[1];
    }
  }

  /** Collapsing keeps the words, and a second time changes nothing. */
  lemma CollapseFixed(s: string)
    ensures Words(Collapse(s)) == Words(s) && Collapse(Collapse(s)) == Collapse(s)
  {
    CollapseIsJoin(s);
    WordsAreWords(s);
    WordsOfJoin(Words(s));
    CollapseIsJoin(Collapse(s));
  }

  // ---- decimal numerals ----

  function Digit(n: nat): char
    requires n < 10
  {
    ('0' as int + n) as char
  }

  function Decimal(n: nat): string {
    if n < 10 then [Digit(n)] else Decimal(n / 10) + [Digit(n % 10)]
  }

  /** The number a numeral stands for, leading zeros or not. */
  function Numeral(s: string): int {
    if s == "" then 0 else 10 * Numeral(s[..|s| - 1]) + (s[|s| - 1] as int - '0' as int)
  }

  lemma {:induction false} NumeralOfDecimal(n: nat)
    ensures Numeral(Decimal(n)) == n && '-' !in Decimal(n)
  {
    if n < 10 {
      assert [Digit(n)][..0] == "";
    } else {
      NumeralOfDecimal(n / 10);
      assert (Decimal(n / 10) + [Digit(n % 10)])[..|Decimal(n / 10)|] == Decimal(n / 10);
    }
  }

  lemma {:induction false} LeadingZero(s: string)
    ensures Numeral("0" + s) == Numeral(s)
  {
    if s == "" {
      assert "0" + s == "0" && "0"[..0] == "";
    } else {
      LeadingZero(s[..|s| - 1]);
      assert ("0" + s)[..|s|] == "0" + s[..|s| - 1];
    }
  }
}
