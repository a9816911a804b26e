/** The greedy total-size cap: longest values are replaced by the sentinel until the total fits. */
module TotalCap {
  import opened Prelude

  type Answers = map<string, string>

  // ---- sums over finite sets ----

  ghost function Sum(f: map<string, int>, keys: set<string>): int
    requires keys <= f.Keys
  {
    if keys == {} then 0 else var k := AnyOf(keys); f[k] + Sum(f, keys - {k})
  }

  lemma {:induction false} SumWithout(f: map<string, int>, keys: set<string>, k: string)
    requires keys <= f.Keys && k in keys
    ensures Sum(f, keys) == f[k] + Sum(f, keys - {k})
    decreases keys
  {
    var a := AnyOf(keys);
    if a != k {
      SumWithout(f, keys - {a}, k);
      SumWithout(f, keys - {k}, a);
      assert keys - {a} - {k} == keys - {k} - {a};
    }
  }

  lemma {:induction false} SumSame(f: map<string, int>, g: map<string, int>, keys: set<string>)
    requires keys <= f.Keys && keys <= g.Keys && forall k :: k in keys ==> f[k] == g[k]
    ensures Sum(f, keys) == Sum(g, keys)
    decreases keys
  {
    if keys != {} {
      SumSame(f, g, keys - {AnyOf(keys)});
    }
  }

  // ---- the total, and what a degradation saves ----

  function Lengths(m: Answers): map<string, int> {
    map k | k in m :: |m[k]|
  }

  ghost function Total(m: Answers): int {
    Sum(Lengths(m), m.Keys)
  }

  /** Any choice of keys to degrade. */
  function Degrade(m: Answers, keys: set<string>, sentinel: string): Answers {
    map k | k in m :: if k in keys then sentinel else m[k]
  }

  function Gains(m: Answers, sentinel: string): map<string, int> {
    map k | k in m :: |m[k]| - |sentinel|
  }

  lemma {:induction false} DegradeTotal(m: Answers, keys: set<string>, sentinel: string)
    requires keys <= m.Keys
    ensures Total(Degrade(m, keys, sentinel)) == Total(m) - Sum(Gains(m, sentinel), keys)
    decreases keys
  {
    if keys == {} {
      assert Degrade(m, keys, sentinel) == m;
    } else {
      var k := AnyOf(keys);
      var less, more := Degrade(m, keys - {k}, sentinel), Degrade(m, keys, sentinel);
      DegradeTotal(m, keys - {k}, sentinel);
      assert less.Keys == m.Keys && more.Keys == m.Keys && less[k] == m[k] && more[k] == sentinel;
      SumWithout(Lengths(less), m.Keys, k);
      SumWithout(Lengths(more), m.Keys, k);
      SumSame(Lengths(less), Lengths(more), m.Keys - {k});
      assert Sum(Gains(m, sentinel), keys) == Gains(m, sentinel)[k] + Sum(Gains(m, sentinel), keys - {k});
    }
  }

  // ---- the order: longest value first, ties by key ----

  predicate KeyLess(a: string, b: string) {
    if b == "" then false
    else if a == "" then true
    else if a[0] != b[0] then a[0] < b[0]
    else KeyLess(a[1..], b[1..])
  }

  lemma {:induction false} KeyOrder(a: string, b: string, c: string)
    ensures !KeyLess(a, a)
    ensures a == b || KeyLess(a, b) || KeyLess(b, a)
    ensures KeyLess(a, b) && KeyLess(b, c) ==> KeyLess(a, c)
    decreases |a| + |b| + |c|
  {
    if a != "" { KeyOrder(a[1..], if b == "" then b else b[1..], if c == "" then c else c[1..]); }
    if a != "" && b != "" && a[0] == b[0] && a[1..] == b[1..] {
      assert a == [a[0]] + a[1..] && b == [b[0]] + b[1..];
    }
  }

  predicate First(m: Answers, a: string, b: string)
    requires a in m && b in m
  {
    |m[a]| > |m[b]| || (|m[a]| == |m[b]| && KeyLess(a, b))
  }

  ghost predicate Ordered(m: Answers, c: seq<string>) {
    && (forall k :: k in c ==> k in m)
    && forall i, j :: 0 <= i < j < |c| ==> First(m, c[i], c[j])
  }

  function Keys(c: seq<string>): set<string> {
    set k | k in c
  }

  function Insert(m: Answers, k: string, c: seq<string>): seq<string>
    requires k in m && forall x :: x in c ==> x in m
  {
    if c == [] then [k]
    else if First(m, k, c[0]) then [k] + c
    else [c[0]] + Insert(m, k, c[1..])
  }

  lemma {:induction false} InsertOrdered(m: Answers, k: string, c: seq<string>)
    requires k in m && k !in c && Ordered(m, c)
    ensures Ordered(m, Insert(m, k, c)) && Keys(Insert(m, k, c)) == Keys(c) + {k}
  {
    if c == [] {
    } else if First(m, k, c[0]) {
      forall i | 0 <= i < |c| ensures First(m, k, c[i]) {
        if i > 0 { KeyOrder(k, c[0], c[i]); }
      }
    } else {
      KeyOrder(k, c[0], k);
      assert c[0] in c;
      TailKeys(m, c);
      InsertOrdered(m, k, c[1..]);
      var rest := Insert(m, k, c[1..]);
      forall i | 0 <= i < |rest| ensures First(m, c[0], rest[i]) {
        assert rest[i] in Keys(rest);
        if rest[i] != k {
          var j :| 0 <= j < |c[1..]| && c[1..][j] == rest[i];
          assert First(m, c[0], c[j + 1]);
        }
      }
      KeysCons(c[0], rest);
    }
  }

  lemma KeysCons(k: string, c: seq<string>)
    ensures Keys([k] + c) == {k} + Keys(c)
  {
  }

  /** There is one ordered list of a given set of keys. */
  lemma {:induction false} OrderedUnique(m: Answers, c: seq<string>, d: seq<string>)
    requires Ordered(m, c) && Ordered(m, d) && Keys(c) == Keys(d)
    ensures c == d
  {
    assert d != [] ==> d[0] in Keys(d);
    if c != [] {
      assert c[0] in Keys(c);
      if c[0] != d[0] {
        var i :| 0 <= i < |c| && c[i] == d[0];
        var j :| 0 <= j < |d| && d[j] == c[0];
        KeyOrder(c[0], d[0], c[0]);
        assert false;
      }
      TailKeys(m, c);
      TailKeys(m, d);
      OrderedUnique(m, c[1..], d[1..]);
    }
  }

  lemma TailKeys(m: Answers, c: seq<string>)
    requires c != [] && Ordered(m, c)
    ensures Ordered(m, c[1..]) && Keys(c[1..]) == Keys(c) - {c[0]} && c[0] !in c[1..]
  {
    forall i | 1 <= i < |c| ensures c[i] != c[0] {
      assert First(m, c[0], c[i]);
      KeyOrder(c[0], c[0], c[0]);
    }
    assert c == [c[0]] + c[1..];
  }

  /** The keys worth degrading: replacing their value by the sentinel makes the total smaller. */
  function Candidates(m: Answers, sentinel: string): set<string> {
    set k | k in m && m[k] != sentinel && |m[k]| > |sentinel|
  }

  ghost function Sorted(m: Answers, keys: set<string>): (c: seq<string>)
    requires keys <= m.Keys
    ensures Ordered(m, c) && Keys(c) == keys
    decreases keys
  {
    if keys == {} then []
    else
      var k := AnyOf(keys);
      var rest := Sorted(m, keys - {k});
      assert k !in rest by { assert k !in Keys(rest); }
      InsertOrdered(m, k, rest);
      Insert(m, k, rest)
  }

  ghost function DegradeInTurn(m: Answers, c: seq<string>, sentinel: string, max: int): Answers
    decreases |c|
  {
    if c == [] || Total(m) <= max then m else DegradeInTurn(m[c[0] := sentinel], c[1..], sentinel, max)
  }

  /** The program's cap. */
  ghost function Capped(m: Answers, sentinel: string, max: int): Answers {
    if Total(m) <= max then m
    else DegradeInTurn(m, Sorted(m, Candidates(m, sentinel)), sentinel, max)
  }

  // ---- as the loops it is ----

  method TotalChars(m: Answers) returns (n: int)
    ensures n == Total(m)
  {
    n := 0;
    var todo := m.Keys;
    while todo != {}
      invariant todo <= m.Keys
      invariant Total(m) == n + Sum(Lengths(m), todo)
      decreases todo
    {
      var k :| k in todo;
      SumWithout(Lengths(m), todo, k);
      n, todo := n + |m[k]|, todo - {k};
    }
  }

  method SortCandidates(m: Answers, sentinel: string) returns (c: seq<string>)
    ensures c == Sorted(m, Candidates(m, sentinel))
  {
    c := [];
    var todo := Candidates(m, sentinel);
    while todo != {}
      invariant todo <= Candidates(m, sentinel)
      invariant Ordered(m, c) && Keys(c) == Candidates(m, sentinel) - todo
      decreases todo
    {
      var k :| k in todo;
      assert k !in c by { assert k !in Keys(c); }
      InsertOrdered(m, k, c);
      c, todo := Insert(m, k, c), todo - {k};
    }
    OrderedUnique(m, c, Sorted(m, Candidates(m, sentinel)));
  }

  method EnforceTotalCap(m: Answers, sentinel: string, max: int) returns (r: Answers)
    ensures r == Capped(m, sentinel, max)
  {
    r := m;
    var total := TotalChars(r);
    if total <= max {
      return;
    }
    var candidates := SortCandidates(m, sentinel);
    assert candidates[0..] == candidates;
    for i := 0 to |candidates|
      invariant Capped(m, sentinel, max) == DegradeInTurn(r, candidates[i..], sentinel, max)
    {
      total := TotalChars(r);
      if total <= max {
        break;
      }
      assert candidates[i..][1..] == candidates[i + 1..];
      r := r[candidates[i] := sentinel];
    }
  }

  // ---- the greedy choice is the best one ----

  ghost function PrefixGain(gains: map<string, int>, c: seq<string>, n: nat): int
    requires n <= |c| && forall k :: k in c ==> k in gains
  {
    if n == 0 then 0 else PrefixGain(gains, c, n - 1) + gains[c[n - 1]]
  }

  /** How many of the ordered keys are degraded, the first `from` already being so: all of them, or
      just enough of them to meet the cap. */
  ghost function Enough(m: Answers, c: seq<string>, sentinel: string, max: int, from: nat): (n: nat)
    requires from <= |c|
    ensures from <= n <= |c|
    decreases |c| - from
  {
    if from == |c| || Total(Degrade(m, Keys(c[..from]), sentinel)) <= max then from
    else Enough(m, c, sentinel, max, from + 1)
  }

  lemma {:induction false} EnoughIsLeast(m: Answers, c: seq<string>, sentinel: string, max: int, from: nat)
    requires from <= |c|
    ensures var n := Enough(m, c, sentinel, max, from);
      && (n == |c| || Total(Degrade(m, Keys(c[..n]), sentinel)) <= max)
      && forall i :: from <= i < n ==> Total(Degrade(m, Keys(c[..i]), sentinel)) > max
    decreases |c| - from
  {
    if from < |c| && Total(Degrade(m, Keys(c[..from]), sentinel)) > max {
      EnoughIsLeast(m, c, sentinel, max, from + 1);
    }
  }

  lemma {:induction false} DegradesPrefix(m: Answers, c: seq<string>, sentinel: string, max: int, from: nat)
    requires from <= |c| && Ordered(m, c)
    ensures DegradeInTurn(Degrade(m, Keys(c[..from]), sentinel), c[from..], sentinel, max)
         == Degrade(m, Keys(c[..Enough(m, c, sentinel, max, from)]), sentinel)
    decreases |c| - from
  {
    if from < |c| && Total(Degrade(m, Keys(c[..from]), sentinel)) > max {
      DegradeNext(m, from, c, sentinel);
      DegradesPrefix(m, c, sentinel, max, from + 1);
    }
  }

  /** The cap degrades a prefix of the ordered candidates. */
  lemma CappedIsPrefix(m: Answers, sentinel: string, max: int)
    ensures var c := Sorted(m, Candidates(m, sentinel));
      Capped(m, sentinel, max) == Degrade(m, Keys(c[..Enough(m, c, sentinel, max, 0)]), sentinel)
  {
    var c := Sorted(m, Candidates(m, sentinel));
    assert Degrade(m, Keys(c[..0]), sentinel) == m && c[0..] == c;
    DegradesPrefix(m, c, sentinel, max, 0);
  }

  lemma DegradeNext(m: Answers, done: nat, c: seq<string>, sentinel: string)
    requires done < |c| && Ordered(m, c)
    ensures Degrade(m, Keys(c[..done]), sentinel)[c[done] := sentinel] == Degrade(m, Keys(c[..done + 1]), sentinel)
    ensures c[done..] != [] && c[done..][0] == c[done] && c[done..][1..] == c[done + 1..]
  {
    assert c[done] in c;
    assert c[..done + 1] == c[..done] + [c[done]];
    assert Keys(c[..done + 1]) == Keys(c[..done]) + {c[done]};
  }

  lemma {:induction false} PrefixKeys(m: Answers, c: seq<string>, n: nat)
    requires n <= |c| && Ordered(m, c)
    ensures Keys(c[..n]) <= m.Keys && |Keys(c[..n])| == n
  {
    if n > 0 {
      PrefixKeys(m, c, n - 1);
      LastKey(m, c, n);
    }
  }

  lemma {:induction false} PrefixSum(m: Answers, gains: map<string, int>, c: seq<string>, n: nat)
    requires n <= |c| && Ordered(m, c) && gains.Keys == m.Keys
    ensures Keys(c[..n]) <= gains.Keys && Sum(gains, Keys(c[..n])) == PrefixGain(gains, c, n)
  {
    PrefixKeys(m, c, n);
    if n > 0 {
      PrefixSum(m, gains, c, n - 1);
      LastKey(m, c, n);
      SumWithout(gains, Keys(c[..n]), c[n - 1]);
    }
  }

  lemma LastKey(m: Answers, c: seq<string>, n: nat)
    requires 0 < n <= |c| && Ordered(m, c)
    ensures c[n - 1] in Keys(c[..n]) && Keys(c[..n - 1]) == Keys(c[..n]) - {c[n - 1]}
  {
    assert c[..n] == c[..n - 1] + [c[n - 1]];
    forall i | 0 <= i < n - 1 ensures c[i] != c[n - 1] {
      assert First(m, c[i], c[n - 1]);
      KeyOrder(c[i], c[i], c[i]);
    }
  }

  lemma {:induction false} NoGain(gains: map<string, int>, keys: set<string>)
    requires keys <= gains.Keys && forall k :: k in keys ==> gains[k] <= 0
    ensures Sum(gains, keys) <= 0
    decreases keys
  {
    if keys != {} {
      NoGain(gains, keys - {AnyOf(keys)});
    }
  }

  ghost predicate Decreasing(gains: map<string, int>, c: seq<string>) {
    && (forall k :: k in c ==> k in gains && gains[k] > 0)
    && forall i, j :: 0 <= i < j < |c| ==> gains[c[i]] >= gains[c[j]]
  }

  lemma {:induction false} PrefixGrows(gains: map<string, int>, c: seq<string>, i: nat, j: nat)
    requires i <= j <= |c| && Decreasing(gains, c)
    ensures PrefixGain(gains, c, i) <= PrefixGain(gains, c, j)
    decreases j
  {
    if i < j {
      assert c[j - 1] in c;
      PrefixGrows(gains, c, i, j - 1);
    }
  }

  lemma {:induction false} PrefixOfInit(gains: map<string, int>, c: seq<string>, n: nat)
    requires n < |c| && forall k :: k in c ==> k in gains
    ensures PrefixGain(gains, c[..|c| - 1], n) == PrefixGain(gains, c, n)
  {
    if n > 0 {
      PrefixOfInit(gains, c, n - 1);
    }
  }

  /** No choice of keys saves more than as many of the largest gains do. */
  lemma {:induction false} NoChoiceSavesMore(gains: map<string, int>, c: seq<string>, keys: set<string>)
    requires Decreasing(gains, c) && keys <= gains.Keys
    requires forall k :: k in keys && k !in c ==> gains[k] <= 0
    ensures Sum(gains, keys) <= PrefixGain(gains, c, if |keys| <= |c| then |keys| else |c|)
    decreases |c|
  {
    if c == [] {
      NoGain(gains, keys);
    } else {
      var most, x := c[..|c| - 1], c[|c| - 1];
      assert x in c && c == most + [x];
      NoChoiceSavesMore(gains, most, keys - {x});
      OneMoreKey(gains, c, keys);
    }
  }

  lemma OneMoreKey(gains: map<string, int>, c: seq<string>, keys: set<string>)
    requires c != [] && Decreasing(gains, c) && keys <= gains.Keys
    requires var most, less := c[..|c| - 1], keys - {c[|c| - 1]};
      && (forall k :: k in most ==> k in gains)
      && Sum(gains, less) <= PrefixGain(gains, most, if |less| <= |most| then |less| else |most|)
    ensures Sum(gains, keys) <= PrefixGain(gains, c, if |keys| <= |c| then |keys| else |c|)
  {
    var x := c[|c| - 1];
    var less := keys - {x};
    var p := if |less| <= |c| - 1 then |less| else |c| - 1;
    PrefixOfInit(gains, c, p);
    if x in keys {
      SumWithout(gains, keys, x);
      assert |less| == |keys| - 1 && gains[c[p]] >= gains[x];
      assert PrefixGain(gains, c, p + 1) == PrefixGain(gains, c, p) + gains[c[p]];
    } else {
      assert less == keys;
      PrefixGrows(gains, c, p, if |keys| <= |c| then |keys| else |c|);
    }
  }

  lemma CandidatesByGain(m: Answers, sentinel: string, c: seq<string>)
    requires Ordered(m, c) && Keys(c) == Candidates(m, sentinel)
    ensures Decreasing(Gains(m, sentinel), c)
    ensures forall k :: k in m && k !in c ==> Gains(m, sentinel)[k] <= 0
  {
    forall k | k in c ensures k in m && Gains(m, sentinel)[k] > 0 {
      assert k in Keys(c);
    }
    forall k | k in m && k !in c ensures Gains(m, sentinel)[k] <= 0 {
      assert k !in Keys(c);
    }
    forall i, j | 0 <= i < j < |c| ensures Gains(m, sentinel)[c[i]] >= Gains(m, sentinel)[c[j]] {
      assert First(m, c[i], c[j]);
    }
  }

  /** The cap is optimal. It degrades some set of keys; if any choice of degradations meets the cap
      then this one does, with the fewest keys of all such choices; if none does, no choice
      reaches a smaller total. */
  lemma CapIsOptimal(m: Answers, sentinel: string, max: int) returns (chosen: set<string>)
    ensures chosen <= m.Keys && Capped(m, sentinel, max) == Degrade(m, chosen, sentinel)
    ensures forall keys :: keys <= m.Keys && Total(Degrade(m, keys, sentinel)) <= max ==>
              Total(Capped(m, sentinel, max)) <= max && |chosen| <= |keys|
    ensures (forall keys :: keys <= m.Keys ==> Total(Degrade(m, keys, sentinel)) > max) ==>
              forall keys :: keys <= m.Keys ==>
                Total(Capped(m, sentinel, max)) <= Total(Degrade(m, keys, sentinel))
  {
    var c := Sorted(m, Candidates(m, sentinel));
    var n := Enough(m, c, sentinel, max, 0);
    CappedIsPrefix(m, sentinel, max);
    EnoughIsLeast(m, c, sentinel, max, 0);
    PrefixKeys(m, c, n);
    chosen := Keys(c[..n]);
    forall keys | keys <= m.Keys
      ensures Total(Degrade(m, keys, sentinel)) <= max ==>
                Total(Capped(m, sentinel, max)) <= max && |chosen| <= |keys|
      ensures n == |c| ==> Total(Capped(m, sentinel, max)) <= Total(Degrade(m, keys, sentinel))
    {
      ChoiceAgainstPrefix(m, sentinel, max, c, n, keys);
    }
  }

  lemma ChoiceAgainstPrefix(m: Answers, sentinel: string, max: int, c: seq<string>, n: nat, keys: set<string>)
    requires Ordered(m, c) && Keys(c) == Candidates(m, sentinel) && n <= |c| && keys <= m.Keys
    requires n == |c| || Total(Degrade(m, Keys(c[..n]), sentinel)) <= max
    requires forall i :: 0 <= i < n ==> Total(Degrade(m, Keys(c[..i]), sentinel)) > max
    ensures var t := Total(Degrade(m, Keys(c[..n]), sentinel));
      var u := Total(Degrade(m, keys, sentinel));
      && (u <= max ==> t <= max && n <= |keys|)
      && (n == |c| ==> t <= u)
  {
    var gains := Gains(m, sentinel);
    CandidatesByGain(m, sentinel, c);
    NoChoiceSavesMore(gains, c, keys);
    DegradeTotal(m, keys, sentinel);
    PrefixTotal(m, sentinel, c, n);
    var p := if |keys| <= |c| then |keys| else |c|;
    PrefixTotal(m, sentinel, c, p);
    if p <= n {
      PrefixGrows(gains, c, p, n);
    } else {
      PrefixGrows(gains, c, n, p);
    }
  }

  lemma PrefixTotal(m: Answers, sentinel: string, c: seq<string>, n: nat)
    requires n <= |c| && Ordered(m, c)
    ensures Total(Degrade(m, Keys(c[..n]), sentinel)) == Total(m) - PrefixGain(Gains(m, sentinel), c, n)
  {
    PrefixSum(m, Gains(m, sentinel), c, n);
    DegradeTotal(m, Keys(c[..n]), sentinel);
  }

  /** Once capped, capping again changes nothing. */
  lemma CapFixed(m: Answers, sentinel: string, max: int)
    ensures Capped(Capped(m, sentinel, max), sentinel, max) == Capped(m, sentinel, max)
  {
    var c := Sorted(m, Candidates(m, sentinel));
    var n := Enough(m, c, sentinel, max, 0);
    CappedIsPrefix(m, sentinel, max);
    EnoughIsLeast(m, c, sentinel, max, 0);
    var r := Capped(m, sentinel, max);
    if Total(r) > max {
      assert c[..n] == c;
      assert Candidates(r, sentinel) == {};
      assert Sorted(r, {}) == [];
    }
  }

  /** What the cap can do to one answer. */
  lemma CapKeepsOrDegrades(m: Answers, sentinel: string, max: int)
    ensures var r := Capped(m, sentinel, max);
      && r.Keys == m.Keys
      && (Total(m) <= max ==> r == m)
      && forall k :: k in m ==> r[k] == m[k] || (r[k] == sentinel && |m[k]| > |sentinel|)
  {
    var c := Sorted(m, Candidates(m, sentinel));
    var n := Enough(m, c, sentinel, max, 0);
    CappedIsPrefix(m, sentinel, max);
    SomeKeys(c, n);
    DegradeKeeps(m, Keys(c[..n]), sentinel);
  }

  /** Which values go first: if the cap degrades one value, it degrades every longer one, and of equally
      long ones every one whose key comes before. */
  lemma LongerGoFirst(m: Answers, sentinel: string, max: int, a: string, b: string)
    requires a in m && b in m && |m[b]| > |sentinel|
    requires |m[a]| > |m[b]| || (|m[a]| == |m[b]| && Precedes(a, b))
    ensures var r := Capped(m, sentinel, max);
      a in r && b in r && (r[b] == sentinel ==> r[a] == sentinel)
  {
    var c := Sorted(m, Candidates(m, sentinel));
    var n := Enough(m, c, sentinel, max, 0);
    CappedIsPrefix(m, sentinel, max);
    PrecedesIsLess(a, b);
    if b in Keys(c[..n]) {
      assert a in Keys(c);
      PrefixIsFirst(m, c, n, a, b);
    }
  }

  lemma PrefixIsFirst(m: Answers, c: seq<string>, n: nat, a: string, b: string)
    requires Ordered(m, c) && n <= |c| && a in c && b in Keys(c[..n]) && a in m && b in m && First(m, a, b)
    ensures a in Keys(c[..n])
  {
    var i :| 0 <= i < n && c[..n][i] == b;
    var j :| 0 <= j < |c| && c[j] == a;
    NotAfter(m, c, j, i);
    assert c[..n][j] == a;
  }

  lemma NotAfter(m: Answers, c: seq<string>, j: nat, i: nat)
    requires Ordered(m, c) && i < |c| && j < |c| && First(m, c[j], c[i])
    ensures j <= i
  {
    KeyOrder(c[j], c[i], c[j]);
  }

  /** Keys in order: one is a proper start of the other, or they first differ in a smaller character. */
  ghost predicate Precedes(a: string, b: string) {
    || (a < b)
    || exists i :: 0 <= i < |a| && i < |b| && a[..i] == b[..i] && a[i] < b[i]
  }

  lemma {:induction false} PrecedesIsLess(a: string, b: string)
    ensures Precedes(a, b) <==> KeyLess(a, b)
  {
    if a != "" && b != "" && a[0] == b[0] {
      PrecedesIsLess(a[1..], b[1..]);
      PrecedesTail(a, b);
    } else if a != "" && b != "" && a[0] < b[0] {
      assert a[..0] == b[..0];
    } else if a != "" && b != "" {
      forall i | 0 < i <= |a| && i <= |b| ensures a[..i] != b[..i] {
        assert a[..i][0] == a[0] && b[..i][0] == b[0];
      }
    }
  }

  lemma PrecedesTail(a: string, b: string)
    requires a != "" && b != "" && a[0] == b[0]
    ensures Precedes(a, b) <==> Precedes(a[1..], b[1..])
  {
    assert a == [a[0]] + a[1..] && b == [b[0]] + b[1..];
    if i :| 0 <= i < |a| && i < |b| && a[..i] == b[..i] && a[i] < b[i] {
      assert i > 0 && a[1..][..i - 1] == a[..i][1..] && b[1..][..i - 1] == b[..i][1..];
      assert a[1..][i - 1] < b[1..][i - 1];
    }
    if i :| 0 <= i < |a[1..]| && i < |b[1..]| && a[1..][..i] == b[1..][..i] && a[1..][i] < b[1..][i] {
      assert a[..i + 1] == [a[0]] + a[1..][..i] && b[..i + 1] == [b[0]] + b[1..][..i];
      assert a[i + 1] < b[i + 1];
    }
  }

  lemma SomeKeys(c: seq<string>, n: nat)
    requires n <= |c|
    ensures Keys(c[..n]) <= Keys(c)
  {
    assert c == c[..n] + c[n..];
  }

  lemma DegradeKeeps(m: Answers, keys: set<string>, sentinel: string)
    requires keys <= Candidates(m, sentinel)
    ensures var r := Degrade(m, keys, sentinel);
      && r.Keys == m.Keys
      && forall k :: k in m ==> r[k] == m[k] || (r[k] == sentinel && |m[k]| > |sentinel|)
  {
  }
}
