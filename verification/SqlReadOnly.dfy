/** The read-only query check of the SQL source: its tokenizer and its WITH recogniser. */
module SqlReadOnly {
  import opened Common

  // ----- The grammar -----

  /** Balanced token sequences: words and parenthesised groups, one after another. */
  datatype Forest = Empty | Word(text: string, rest: Forest) | Paren(inside: Forest, rest: Forest)

  predicate Valid(f: Forest) {
    match f
    case Empty => true
    case Word(t, r) => t != "(" && t != ")" && Valid(r)
    case Paren(i, r) => Valid(i) && Valid(r)
  }

  function Flatten(f: Forest): seq<string> {
    match f
    case Empty => []
    case Word(t, r) => [t] + Flatten(r)
    case Paren(i, r) => ["("] + Flatten(i) + [")"] + Flatten(r)
  }

  function Group(inside: Forest): seq<string> {
    ["("] + Flatten(inside) + [")"]
  }

  /** A balanced group: an opening parenthesis, a balanced inside, the closing one. */
  ghost predicate IsGroup(ts: seq<string>) {
    exists f :: Valid(f) && ts == Group(f)
  }

  predicate IsIdentifier(t: string) {
    t != "" && t != "(" && t != ")" && t != ","
  }

  /** One common table expression: a name, optional columns, "as" and a body. */
  datatype Cte = Cte(name: string, columns: Option<Forest>, body: Forest)

  predicate ValidCte(c: Cte) {
    IsIdentifier(c.name) && (c.columns.Some? ==> Valid(c.columns.value)) && Valid(c.body)
  }

  function FlattenCte(c: Cte): seq<string> {
    [c.name] + (if c.columns.Some? then Group(c.columns.value) else []) + ["as"] + Group(c.body)
  }

  /** A comma-separated list of expressions, then "select" and anything. */
  datatype Sentence = Last(cte: Cte, query: seq<string>) | More(cte: Cte, next: Sentence)

  predicate ValidSentence(s: Sentence) {
    ValidCte(s.cte) && (s.More? ==> ValidSentence(s.next))
  }

  function FlattenSentence(s: Sentence): seq<string> {
    match s
    case Last(c, q) => FlattenCte(c) + ["select"] + q
    case More(c, n) => FlattenCte(c) + [","] + FlattenSentence(n)
  }

  ghost predicate IsSentence(ts: seq<string>) {
    exists s :: ValidSentence(s) && ts == FlattenSentence(s)
  }

  /** After "with", a "recursive" is always taken as the keyword. */
  ghost predicate IsWithQuery(ts: seq<string>) {
    && ts != []
    && if |ts| > 1 && ts[1] == "recursive" then IsSentence(ts[2..]) else IsSentence(ts[1..])
  }

  // ----- Depth -----

  function Delta(t: string): int {
    if t == "(" then 1 else if t == ")" then -1 else 0
  }

  function Depth(ts: seq<string>): int {
    if ts == [] then 0 else Depth(ts[..|ts| - 1]) + Delta(ts[|ts| - 1])
  }

  lemma DepthSnoc(ts: seq<string>, t: string)
    ensures Depth(ts + [t]) == Depth(ts) + Delta(t)
  {
    assert (ts + [t])[..|ts|] == ts;
  }

  lemma {:induction false} DepthConcat(a: seq<string>, b: seq<string>)
    ensures Depth(a + b) == Depth(a) + Depth(b)
  {
    if b == [] {
      assert a + b == a;
    } else {
      var n := |b| - 1;
      DepthConcat(a, b[..n]);
      DepthSnoc(a + b[..n], b[n]);
      assert (a + b[..n]) + [b[n]] == a + b;
    }
  }

  ghost predicate NeverNegative(ts: seq<string>) {
    forall n | 0 <= n <= |ts| :: Depth(ts[..n]) >= 0
  }

  ghost predicate Balanced(ts: seq<string>) {
    Depth(ts) == 0 && NeverNegative(ts)
  }

  /** The depth returns to zero for the first time at the end. */
  ghost predicate ClosesAtEnd(ts: seq<string>) {
    && |ts| > 0 && Depth(ts) == 0
    && forall n | 0 < n < |ts| :: Depth(ts[..n]) > 0
  }

  lemma PrefixOfConcat(a: seq<string>, b: seq<string>, n: nat)
    requires n <= |a| + |b|
    ensures Depth((a + b)[..n]) == if n <= |a| then Depth(a[..n]) else Depth(a) + Depth(b[..n - |a|])
  {
    if n <= |a| {
      assert (a + b)[..n] == a[..n];
    } else {
      assert (a + b)[..n] == a + b[..n - |a|];
      DepthConcat(a, b[..n - |a|]);
    }
  }

  lemma BalancedConcat(a: seq<string>, b: seq<string>)
    requires Balanced(a) && Balanced(b)
    ensures Balanced(a + b)
  {
    DepthConcat(a, b);
    forall n | 0 <= n <= |a + b| ensures Depth((a + b)[..n]) >= 0 {
      PrefixOfConcat(a, b, n);
    }
  }

  lemma WrapCloses(inside: seq<string>)
    requires Balanced(inside)
    ensures ClosesAtEnd(["("] + inside + [")"])
  {
    var g := ["("] + inside + [")"];
    assert Depth(["("]) == 1 by { DepthSnoc([], "("); assert [] + ["("] == ["("]; }
    DepthConcat(["("], inside);
    DepthSnoc(["("] + inside, ")");
    forall n | 0 < n < |g| ensures Depth(g[..n]) > 0 {
      PrefixOfConcat(["("] + inside, [")"], n);
      PrefixOfConcat(["("], inside, n);
      assert n == 1 ==> ["("][..1] == ["("];
    }
  }

  lemma ClosedIsBalanced(ts: seq<string>)
    requires ClosesAtEnd(ts)
    ensures Balanced(ts)
  {
    assert ts[..|ts|] == ts && ts[..0] == [];
  }

  lemma {:induction false} ForestBalanced(f: Forest)
    requires Valid(f)
    ensures Balanced(Flatten(f))
  {
    match f
    case Empty =>
    case Word(t, r) =>
      ForestBalanced(r);
      assert Balanced([t]) by { DepthSnoc([], t); assert [] + [t] == [t]; }
      BalancedConcat([t], Flatten(r));
    case Paren(i, r) =>
      ForestBalanced(i);
      ForestBalanced(r);
      WrapCloses(Flatten(i));
      ClosedIsBalanced(Group(i));
      BalancedConcat(Group(i), Flatten(r));
  }

  lemma GroupCloses(f: Forest)
    requires Valid(f)
    ensures ClosesAtEnd(Group(f))
  {
    ForestBalanced(f);
    WrapCloses(Flatten(f));
  }

  lemma OpenThenInside(ts: seq<string>)
    requires ClosesAtEnd(ts) && ts[0] == "("
    ensures |ts| >= 2 && ts[|ts| - 1] == ")" && Balanced(ts[1..|ts| - 1])
    ensures ts == ["("] + ts[1..|ts| - 1] + [")"]
  {
    var m := |ts| - 1;
    assert Depth(["("]) == 1 by { DepthSnoc([], "("); assert [] + ["("] == ["("]; }
    assert ts == ["("] + ts[1..];
    assert |ts| == 1 ==> ts == ["("];
    assert ts == ts[..m] + [ts[m]];
    DepthSnoc(ts[..m], ts[m]);
    assert Depth(ts[..m]) > 0;
    var inside := ts[1..m];
    forall n | 0 <= n <= |inside| ensures Depth(inside[..n]) == Depth(ts[..n + 1]) - 1 {
      assert ts[..n + 1] == ["("] + inside[..n];
      DepthConcat(["("], inside[..n]);
    }
    assert inside[..|inside|] == inside;
    assert Depth(inside) == Depth(ts[..m]) - 1;
    assert forall n | 0 <= n <= |inside| :: Depth(inside[..n]) >= 0;
  }

  /** Where the depth first returns to zero. */
  lemma {:induction false} FirstReturn(ts: seq<string>, from: nat) returns (r: nat)
    requires 0 < from <= |ts| && Depth(ts) == 0
    requires forall n | 0 < n < from :: Depth(ts[..n]) > 0
    requires NeverNegative(ts)
    ensures 0 < r <= |ts| && ClosesAtEnd(ts[..r])
    decreases |ts| - from
  {
    if Depth(ts[..from]) == 0 {
      r := from;
      forall n | 0 < n < r ensures Depth(ts[..r][..n]) > 0 {
        assert ts[..r][..n] == ts[..n];
      }
    } else {
      assert from < |ts| by { assert ts[..|ts|] == ts; }
      r := FirstReturn(ts, from + 1);
    }
  }

  /** Every balanced sequence is the flattening of a forest. */
  lemma {:induction false} BalancedHasForest(ts: seq<string>) returns (f: Forest)
    requires Balanced(ts)
    ensures Valid(f) && Flatten(f) == ts
    decreases |ts|
  {
    if ts == [] {
      return Empty;
    }
    assert ts[..1] == [ts[0]];
    assert Depth([ts[0]]) == Delta(ts[0]) by { DepthSnoc([], ts[0]); assert [] + [ts[0]] == [ts[0]]; }
    assert Depth(ts[..1]) >= 0;
    if ts[0] == "(" {
      var r := FirstReturn(ts, 1);
      assert ts[..r][0] == "(";
      OpenThenInside(ts[..r]);
      RestBalanced(ts, r);
      var inside := BalancedHasForest(ts[..r][1..r - 1]);
      var rest := BalancedHasForest(ts[r..]);
      f := Paren(inside, rest);
      assert ts == ts[..r] + ts[r..];
    } else {
      RestBalanced(ts, 1);
      var rest := BalancedHasForest(ts[1..]);
      f := Word(ts[0], rest);
    }
  }

  lemma RestBalanced(ts: seq<string>, r: nat)
    requires Balanced(ts) && r <= |ts| && Depth(ts[..r]) == 0
    ensures Balanced(ts[r..])
  {
    assert ts == ts[..r] + ts[r..];
    DepthConcat(ts[..r], ts[r..]);
    forall n | 0 <= n <= |ts[r..]| ensures Depth(ts[r..][..n]) >= 0 {
      PrefixOfConcat(ts[..r], ts[r..], r + n);
    }
  }

  /** A group is what opens and closes for the first time at its end. */
  lemma GroupExactly(ts: seq<string>)
    requires ts != [] && ts[0] == "("
    ensures IsGroup(ts) <==> ClosesAtEnd(ts)
  {
    if IsGroup(ts) {
      var f :| Valid(f) && ts == Group(f);
      GroupCloses(f);
    }
    if ClosesAtEnd(ts) {
      OpenThenInside(ts);
      var f := BalancedHasForest(ts[1..|ts| - 1]);
      assert ts == Group(f);
    }
  }

  /** At most one prefix of a sequence is a group. */
  lemma GroupPrefixUnique(ts: seq<string>, m: nat, n: nat)
    requires m <= |ts| && n <= |ts| && IsGroup(ts[..m]) && IsGroup(ts[..n])
    ensures m == n
  {
    GroupNoLonger(ts, m, n);
    GroupNoLonger(ts, n, m);
  }

  lemma GroupNoLonger(ts: seq<string>, m: nat, n: nat)
    requires m <= |ts| && n <= |ts| && IsGroup(ts[..m]) && IsGroup(ts[..n])
    ensures n <= m
  {
    assert forall k | 0 < k < n :: ts[..n][..k] == ts[..k];
    GroupExactly(ts[..m]);
    GroupExactly(ts[..n]);
  }

  // ----- The recogniser -----

  /** The index after the group that opens at `start`: the only one there is, or -1 when there is none. */
  method SkipBalancedParens(tokens: seq<string>, start: nat) returns (next: int)
    requires start < |tokens| && tokens[start] == "("
    ensures next < 0 ==> next == -1 && forall n | start <= n <= |tokens| :: !IsGroup(tokens[start..n])
    ensures next >= 0 ==> start < next <= |tokens| && IsGroup(tokens[start..next])
    ensures forall n | start <= n <= |tokens| && IsGroup(tokens[start..n]) :: n == next
  {
    var depth := 0;
    var i := start;
    while i < |tokens|
      invariant start <= i <= |tokens|
      invariant depth == Depth(tokens[start..i])
      invariant forall n | start < n <= i :: Depth(tokens[start..n]) > 0
      invariant i == start || depth > 0
    {
      assert tokens[start..i + 1] == tokens[start..i] + [tokens[i]];
      DepthSnoc(tokens[start..i], tokens[i]);
      if tokens[i] == "(" {
        depth := depth + 1;
      } else if tokens[i] == ")" {
        depth := depth - 1;
        if depth == 0 {
          ClosedGroup(tokens, start, i + 1);
          return i + 1;
        }
      }
      i := i + 1;
    }
    forall n | start <= n <= |tokens| ensures !IsGroup(tokens[start..n]) {
      if IsGroup(tokens[start..n]) {
        GroupExactly(tokens[start..n]);
      }
    }
    next := -1;
  }

  lemma ClosedGroup(tokens: seq<string>, start: nat, end: nat)
    requires start < end <= |tokens| && tokens[start] == "(" && Depth(tokens[start..end]) == 0
    requires forall n | start < n < end :: Depth(tokens[start..n]) > 0
    ensures IsGroup(tokens[start..end])
    ensures forall n | start <= n <= |tokens| && IsGroup(tokens[start..n]) :: n == end
  {
    var ts := tokens[start..];
    assert ts[..end - start] == tokens[start..end];
    forall n | 0 < n < end - start ensures Depth(tokens[start..end][..n]) > 0 {
      assert tokens[start..end][..n] == tokens[start..start + n];
    }
    GroupExactly(tokens[start..end]);
    forall n | start <= n <= |tokens| && IsGroup(tokens[start..n]) ensures n == end {
      assert ts[..n - start] == tokens[start..n];
      GroupPrefixUnique(ts, n - start, end - start);
    }
  }

  ghost predicate IsCte(ts: seq<string>) {
    exists c :: ValidCte(c) && ts == FlattenCte(c)
  }

  /** Where the "as" of an expression at `i` must stand: after the name, or after the column group. */
  ghost predicate AsAt(tokens: seq<string>, i: int, a: int) {
    && 0 <= i < a <= |tokens|
    && if i + 1 < |tokens| && tokens[i + 1] == "(" then IsGroup(tokens[i + 1..a]) else a == i + 1
  }

  /** "as" at `a`, then the body up to `n`. */
  ghost predicate BodyAt(tokens: seq<string>, a: int, n: int) {
    0 <= a < n <= |tokens| && tokens[a] == "as" && IsGroup(tokens[a + 1..n])
  }

  lemma SliceOfSlice(s: seq<string>, i: nat, n: nat, p: nat, q: nat)
    requires i <= n <= |s| && p <= q <= n - i
    ensures s[i..n][p..q] == s[i + p..i + q]
  {
    var a, b := s[i..n][p..q], s[i + p..i + q];
    assert forall k | 0 <= k < q - p :: a[k] == s[i..n][p + k] == s[i + (p + k)] == b[k];
    assert a == b;
  }

  lemma CteReads(tokens: seq<string>, i: nat, n: nat, c: Cte) returns (a: int)
    requires i <= n <= |tokens| && ValidCte(c) && tokens[i..n] == FlattenCte(c)
    ensures i < n && tokens[i] == c.name && AsAt(tokens, i, a) && BodyAt(tokens, a, n)
  {
    var p := CteShape(c);
    a := i + p;
    SliceOfSlice(tokens, i, n, 1, p);
    SliceOfSlice(tokens, i, n, p + 1, n - i);
    assert tokens[i..n][0] == tokens[i] && tokens[i..n][1] == tokens[i + 1] && tokens[i..n][p] == tokens[a];
    assert tokens[i..n][p + 1..] == tokens[i..n][p + 1..n - i];
  }

  function Columns(c: Cte): seq<string> {
    if c.columns.Some? then Group(c.columns.value) else []
  }

  /** The parts of an expression, and the place of its "as". */
  lemma CteShape(c: Cte) returns (p: nat)
    requires ValidCte(c)
    ensures 1 <= p < |FlattenCte(c)| && FlattenCte(c)[0] == c.name && FlattenCte(c)[p] == "as"
    ensures FlattenCte(c)[1..p] == Columns(c) && FlattenCte(c)[p + 1..] == Group(c.body)
    ensures if FlattenCte(c)[1] == "(" then IsGroup(Columns(c)) else p == 1
  {
    p := 1 + |Columns(c)|;
    assert FlattenCte(c) == [c.name] + Columns(c) + ["as"] + Group(c.body);
  }

  lemma CteBuilds(tokens: seq<string>, i: nat, a: int, n: nat)
    requires i < |tokens| && IsIdentifier(tokens[i]) && AsAt(tokens, i, a) && BodyAt(tokens, a, n)
    ensures i < n <= |tokens| && IsCte(tokens[i..n])
  {
    var body :| Valid(body) && tokens[a + 1..n] == Group(body);
    var name, cols := [tokens[i]], tokens[i + 1..a];
    assert tokens[i..n] == name + cols + ["as"] + Group(body);
    if tokens[i + 1] == "(" {
      var inside :| Valid(inside) && cols == Group(inside);
      assert tokens[i..n] == FlattenCte(Cte(tokens[i], Some(inside), body));
    } else {
      assert tokens[i..n] == FlattenCte(Cte(tokens[i], None, body));
    }
  }

  lemma AsAtUnique(tokens: seq<string>, i: nat, a: int, b: int)
    requires AsAt(tokens, i, a) && AsAt(tokens, i, b)
    ensures a == b
  {
    if i + 1 < |tokens| && tokens[i + 1] == "(" {
      var ts := tokens[i + 1..];
      assert ts[..a - i - 1] == tokens[i + 1..a] && ts[..b - i - 1] == tokens[i + 1..b];
      GroupPrefixUnique(ts, a - i - 1, b - i - 1);
    }
  }

  lemma BodyAtUnique(tokens: seq<string>, a: int, m: int, n: int)
    requires BodyAt(tokens, a, m) && BodyAt(tokens, a, n)
    ensures m == n
  {
    var ts := tokens[a + 1..];
    assert ts[..m - a - 1] == tokens[a + 1..m] && ts[..n - a - 1] == tokens[a + 1..n];
    GroupPrefixUnique(ts, m - a - 1, n - a - 1);
  }

  lemma CtePrefixUnique(tokens: seq<string>, i: nat, m: nat, n: nat)
    requires i <= m <= |tokens| && i <= n <= |tokens| && IsCte(tokens[i..m]) && IsCte(tokens[i..n])
    ensures m == n
  {
    var c :| ValidCte(c) && tokens[i..m] == FlattenCte(c);
    var d :| ValidCte(d) && tokens[i..n] == FlattenCte(d);
    var a := CteReads(tokens, i, m, c);
    var b := CteReads(tokens, i, n, d);
    AsAtUnique(tokens, i, a, b);
    BodyAtUnique(tokens, a, m, n);
  }

  /** No expression starts at `i` unless a name, its "as" and its body stand where they must. */
  lemma CteNeeds(tokens: seq<string>, i: nat)
    requires i <= |tokens|
    ensures forall n | i <= n <= |tokens| && IsCte(tokens[i..n]) ::
              i < n && IsIdentifier(tokens[i]) && exists a :: AsAt(tokens, i, a) && BodyAt(tokens, a, n)
  {
    forall n | i <= n <= |tokens| && IsCte(tokens[i..n])
      ensures i < n && IsIdentifier(tokens[i]) && exists a :: AsAt(tokens, i, a) && BodyAt(tokens, a, n)
    {
      var c :| ValidCte(c) && tokens[i..n] == FlattenCte(c);
      var a := CteReads(tokens, i, n, c);
    }
  }

  /** Without a body where it must stand there is no expression. */
  lemma NoBodyNoCte(tokens: seq<string>, i: nat, a: int)
    requires i <= |tokens| && AsAt(tokens, i, a) && forall n :: !BodyAt(tokens, a, n)
    ensures forall n | i <= n <= |tokens| :: !IsCte(tokens[i..n])
  {
    forall n | i <= n <= |tokens| ensures !IsCte(tokens[i..n]) {
      if IsCte(tokens[i..n]) {
        CteNeeds(tokens, i);
        var b :| AsAt(tokens, i, b) && BodyAt(tokens, b, n);
        AsAtUnique(tokens, i, a, b);
      }
    }
  }

  /** Nor without a place for its "as". */
  lemma NoAsNoCte(tokens: seq<string>, i: nat)
    requires i <= |tokens| && (i < |tokens| && IsIdentifier(tokens[i]) ==> forall a :: !AsAt(tokens, i, a))
    ensures forall n | i <= n <= |tokens| :: !IsCte(tokens[i..n])
  {
    CteNeeds(tokens, i);
  }

  lemma NoParenNoBody(tokens: seq<string>, a: int)
    requires 0 <= a < |tokens| && (a + 1 >= |tokens| || tokens[a + 1] != "(")
    ensures forall n :: !BodyAt(tokens, a, n)
  {
    assert forall n | BodyAt(tokens, a, n) :: a + 1 < n && tokens[a + 1..n][0] == tokens[a + 1];
  }

  /** Reads one expression: the index after it, or -1 when none starts at `start`. */
  method SkipCte(tokens: seq<string>, start: nat) returns (next: int)
    requires start <= |tokens|
    ensures next < 0 ==> forall n | start <= n <= |tokens| :: !IsCte(tokens[start..n])
    ensures next >= 0 ==> start < next <= |tokens| && IsCte(tokens[start..next])
  {
    if start >= |tokens| || !IsIdentifier(tokens[start]) {
      NoAsNoCte(tokens, start);
      return -1;
    }
    var i := start + 1;
    if i < |tokens| && tokens[i] == "(" {
      i := SkipBalancedParens(tokens, start + 1);
      if i < 0 {
        NoAsNoCte(tokens, start);
        return -1;
      }
    }
    if i >= |tokens| || tokens[i] != "as" {
      NoBodyNoCte(tokens, start, i);
      return -1;
    }
    if i + 1 >= |tokens| || tokens[i + 1] != "(" {
      NoParenNoBody(tokens, i);
      NoBodyNoCte(tokens, start, i);
      return -1;
    }
    next := SkipBalancedParens(tokens, i + 1);
    if next < 0 {
      NoBodyNoCte(tokens, start, i);
    } else {
      CteBuilds(tokens, start, i, next);
    }
  }

  /** What follows an expression that ends at `n`. */
  ghost predicate Continues(tokens: seq<string>, n: int) {
    && 0 <= n < |tokens|
    && (tokens[n] == "select" || (tokens[n] == "," && IsSentence(tokens[n + 1..])))
  }

  /** What a sentence has after its first expression. */
  function Tail(s: Sentence): seq<string> {
    match s
    case Last(_, q) => ["select"] + q
    case More(_, n) => [","] + FlattenSentence(n)
  }

  lemma SentenceSplits(s: Sentence)
    ensures FlattenSentence(s) == FlattenCte(s.cte) + Tail(s)
  {}

  lemma SplitAt(tokens: seq<string>, i: nat, a: seq<string>, b: seq<string>)
    requires i <= |tokens| && tokens[i..] == a + b
    ensures i + |a| <= |tokens| && tokens[i..i + |a|] == a && tokens[i + |a|..] == b
  {
    assert tokens[i..i + |a|] == tokens[i..][..|a|];
    assert tokens[i + |a|..] == tokens[i..][|a|..];
  }

  lemma SentenceReads(tokens: seq<string>, i: nat) returns (n: nat)
    requires i <= |tokens| && IsSentence(tokens[i..])
    ensures i <= n <= |tokens| && IsCte(tokens[i..n]) && Continues(tokens, n)
  {
    var s :| ValidSentence(s) && tokens[i..] == FlattenSentence(s);
    n := i + |FlattenCte(s.cte)|;
    SentenceSplits(s);
    SplitAt(tokens, i, FlattenCte(s.cte), Tail(s));
    TailContinues(tokens, n, s);
  }

  lemma TailContinues(tokens: seq<string>, n: nat, s: Sentence)
    requires n <= |tokens| && ValidSentence(s) && tokens[n..] == Tail(s)
    ensures Continues(tokens, n)
  {
    assert tokens[n] == Tail(s)[0] && tokens[n + 1..] == Tail(s)[1..];
    if s.More? {
      assert Tail(s)[1..] == FlattenSentence(s.next);
    }
  }

  lemma SentenceBuilds(tokens: seq<string>, i: nat, n: nat)
    requires i <= n <= |tokens| && IsCte(tokens[i..n]) && Continues(tokens, n)
    ensures IsSentence(tokens[i..])
  {
    var c :| ValidCte(c) && tokens[i..n] == FlattenCte(c);
    var rest := tokens[n + 1..];
    assert tokens[i..] == FlattenCte(c) + [tokens[n]] + rest;
    if tokens[n] == "select" {
      assert tokens[i..] == FlattenSentence(Last(c, rest));
    } else {
      var s :| ValidSentence(s) && rest == FlattenSentence(s);
      assert tokens[i..] == FlattenSentence(More(c, s));
    }
  }

  /** A sentence is one expression followed by "select", or by a comma and a sentence. */
  lemma AfterCte(tokens: seq<string>, i: nat, n: nat)
    requires i <= n <= |tokens| && IsCte(tokens[i..n])
    ensures IsSentence(tokens[i..]) <==> Continues(tokens, n)
  {
    if IsSentence(tokens[i..]) {
      var m := SentenceReads(tokens, i);
      CtePrefixUnique(tokens, i, m, n);
    }
    if Continues(tokens, n) {
      SentenceBuilds(tokens, i, n);
    }
  }

  /** Accepts exactly the WITH queries of the grammar; the scan strictly advances. */
  method WithQueryHasFinalSelect(tokens: seq<string>) returns (accepted: bool)
    requires tokens != []
    ensures accepted <==> IsWithQuery(tokens)
  {
    var i := 1;
    if i < |tokens| && tokens[i] == "recursive" {
      i := i + 1;
    }
    while true
      invariant 1 <= i <= |tokens|
      invariant IsWithQuery(tokens) <==> IsSentence(tokens[i..])
      decreases |tokens| - i
    {
      var next := SkipCte(tokens, i);
      if next < 0 {
        if IsSentence(tokens[i..]) {
          var n := SentenceReads(tokens, i);
        }
        return false;
      }
      AfterCte(tokens, i, next);
      i := next;
      if i < |tokens| && tokens[i] == "," {
        i := i + 1;
      } else {
        return i < |tokens| && tokens[i] == "select";
      }
    }
  }

  // ----- The tokenizer -----

  /** Letters, digits and the underscore, and the folding to lower case. */
  datatype Unicode = Unicode(isWord: char -> bool, lower: string -> string)

  predicate IsPunctuation(c: char) {
    c == '(' || c == ')' || c == ','
  }

  function Flushed(u: Unicode, word: string): seq<string> {
    if word == "" then [] else [u.lower(word)]
  }

  /** The tokens of `q`, read after the unfinished word `word`. */
  function TokensAfter(u: Unicode, word: string, q: string): seq<string>
    decreases |q|
  {
    if q == "" then Flushed(u, word)
    else if IsPunctuation(q[0]) then Flushed(u, word) + [[q[0]]] + TokensAfter(u, "", q[1..])
    else if u.isWord(q[0]) then TokensAfter(u, word + [q[0]], q[1..])
    else Flushed(u, word) + TokensAfter(u, "", q[1..])
  }

  function Tokens(u: Unicode, q: string): seq<string> {
    TokensAfter(u, "", q)
  }

  method SqlTokens(u: Unicode, query: string) returns (tokens: seq<string>)
    ensures tokens == Tokens(u, query)
  {
    tokens := [];
    var word := "";
    for i := 0 to |query|
      invariant tokens + TokensAfter(u, word, query[i..]) == Tokens(u, query)
    {
      var r := query[i];
      assert query[i..][0] == r && query[i..][1..] == query[i + 1..];
      if IsPunctuation(r) {
        tokens := tokens + Flushed(u, word) + [[r]];
        word := "";
      } else if u.isWord(r) {
        word := word + [r];
      } else {
        tokens := tokens + Flushed(u, word);
        word := "";
      }
    }
    tokens := tokens + Flushed(u, word);
  }

  /** A token of the language: a punctuation mark, or a lower-case word. */
  predicate IsToken(u: Unicode, t: string) {
    || t in ["(", ")", ","]
    || (t != "" && (forall i | 0 <= i < |t| :: u.isWord(t[i]) && !IsPunctuation(t[i])) && u.lower(t) == t)
  }

  function Spaced(ts: seq<string>): string {
    if ts == [] then "" else ts[0] + " " + Spaced(ts[1..])
  }

  lemma {:induction false} WordScan(u: Unicode, word: string, t: string, rest: string)
    requires forall i | 0 <= i < |t| :: u.isWord(t[i]) && !IsPunctuation(t[i])
    ensures TokensAfter(u, word, t + rest) == TokensAfter(u, word + t, rest)
    decreases |t|
  {
    if t == "" {
      assert t + rest == rest && word + t == word;
    } else {
      assert (t + rest)[1..] == t[1..] + rest;
      WordScan(u, word + [t[0]], t[1..], rest);
      assert word + [t[0]] + t[1..] == word + t;
    }
  }

  /** Writing tokens out and reading them again gives the same tokens. */
  lemma {:induction false} TokensRoundTrip(u: Unicode, ts: seq<string>)
    requires !u.isWord(' ') && forall t | t in ts :: IsToken(u, t)
    ensures Tokens(u, Spaced(ts)) == ts
    decreases |ts|
  {
    if ts != [] {
      var t, tail := ts[0], Spaced(ts[1..]);
      assert t in ts;
      TokensRoundTrip(u, ts[1..]);
      assert Spaced(ts) == t + (" " + tail);
      assert (" " + tail)[1..] == tail;
      assert ts == [t] + ts[1..];
      if t in ["(", ")", ","] {
        var q := Spaced(ts);
        assert q[0] == t[0] && [t[0]] == t && q[1..] == " " + tail;
        assert Tokens(u, q) == [t] + TokensAfter(u, "", q[1..]);
        assert TokensAfter(u, "", " " + tail) == [] + TokensAfter(u, "", tail);
      } else {
        WordScan(u, "", t, " " + tail);
        assert "" + t == t;
      }
    }
  }

  // ----- The whole check -----

  const DISALLOWED: seq<string> := ["alter", "analyze", "call", "create", "delete", "drop", "execute", "grant",
    "insert", "merge", "revoke", "truncate", "update", "vacuum"]

  datatype Verdict = Accepted | Rejected(why: Problem)

  datatype Problem = MultipleStatements | EmptyQuery | DisallowedKeyword | NoFinalSelect | NoSelectOrWith

  /** What a read-only query is: one statement, no disallowed keyword, and a SELECT or a WITH query. */
  ghost predicate ReadOnlyQuery(u: Unicode, query: string) {
    var ts := Tokens(u, query);
    && ';' !in query && ts != []
    && (forall t | t in ts :: t !in DISALLOWED)
    && (ts[0] == "select" || (ts[0] == "with" && IsWithQuery(ts)))
  }

  /** One statement without a disallowed keyword. */
  predicate Permitted(u: Unicode, query: string) {
    ';' !in query && forall t | t in Tokens(u, query) :: t !in DISALLOWED
  }

  predicate Leads(u: Unicode, query: string, word: string) {
    Tokens(u, query) != [] && Tokens(u, query)[0] == word
  }

  method ValidateReadOnlyQuery(u: Unicode, query: string) returns (v: Verdict)
    ensures v.Accepted? <==> ReadOnlyQuery(u, query)
    ensures v == Rejected(MultipleStatements) <==> ';' in query
    ensures v == Rejected(EmptyQuery) <==> ';' !in query && Tokens(u, query) == []
    ensures v == Rejected(DisallowedKeyword) <==> ';' !in query && exists t | t in Tokens(u, query) :: t in DISALLOWED
    ensures v == Rejected(NoFinalSelect) <==>
            Permitted(u, query) && Leads(u, query, "with") && !IsWithQuery(Tokens(u, query))
    ensures v == Rejected(NoSelectOrWith) <==>
            Permitted(u, query) && Tokens(u, query) != [] && !Leads(u, query, "select") && !Leads(u, query, "with")
  {
    if ';' in query {
      return Rejected(MultipleStatements);
    }
    var tokens := SqlTokens(u, query);
    if |tokens| == 0 {
      return Rejected(EmptyQuery);
    }
    for i := 0 to |tokens|
      invariant forall j | 0 <= j < i :: tokens[j] !in DISALLOWED
    {
      if tokens[i] in DISALLOWED {
        assert tokens[i] in tokens;
        return Rejected(DisallowedKeyword);
      }
    }
    if tokens[0] == "select" {
      return Accepted;
    }
    if tokens[0] == "with" {
      var final := WithQueryHasFinalSelect(tokens);
      return if final then Accepted else Rejected(NoFinalSelect);
    }
    v := Rejected(NoSelectOrWith);
  }

  /** Whatever else it says, a query with one of the modifying keywords is rejected. */
  lemma ModifyingKeywordsRejected(u: Unicode, query: string, word: string)
    requires word in Tokens(u, query)
    requires || word in {"insert", "update", "delete", "merge", "truncate"}
             || word in {"create", "alter", "drop", "grant", "revoke"}
             || word in {"call", "execute", "analyze", "vacuum"}
    ensures !ReadOnlyQuery(u, query)
  {
    assert word in DISALLOWED;
  }

  // ----- The grammar, read off the tokens -----

  function Opening(recursive: bool): seq<string> {
    if recursive then ["with", "recursive"] else ["with"]
  }

  lemma WithRest(recursive: bool, rest: seq<string>)
    requires !recursive ==> rest == [] || rest[0] != "recursive"
    ensures IsWithQuery(Opening(recursive) + rest) <==> IsSentence(rest)
  {
    assert (Opening(recursive) + rest)[|Opening(recursive)|..] == rest;
  }

  lemma CteFromParts(name: string, columns: seq<string>, body: seq<string>)
    requires name !in {"", "(", ")", ","} && ClosesAtEnd(body) && body[0] == "("
    requires columns == [] || (ClosesAtEnd(columns) && columns[0] == "(")
    ensures IsCte([name] + columns + ["as"] + body)
  {
    GroupExactly(body);
    var b :| Valid(b) && body == Group(b);
    if columns == [] {
      assert [name] + columns + ["as"] + body == FlattenCte(Cte(name, None, b));
    } else {
      GroupExactly(columns);
      var c :| Valid(c) && columns == Group(c);
      assert [name] + columns + ["as"] + body == FlattenCte(Cte(name, Some(c), b));
    }
  }

  /** After "with", perhaps "recursive", a name, perhaps a parenthesised column list, "as" and a parenthesised
      body, the query is accepted before "select", goes on after a comma, and is rejected otherwise. */
  lemma AfterFirstExpression(recursive: bool, name: string, columns: seq<string>, body: seq<string>, rest: seq<string>)
    requires name !in {"", "(", ")", ","} && (!recursive ==> name != "recursive")
    requires ClosesAtEnd(body) && body[0] == "(" && (columns == [] || (ClosesAtEnd(columns) && columns[0] == "("))
    ensures IsWithQuery(Opening(recursive) + ([name] + columns + ["as"] + body + rest)) <==>
              && rest != []
              && (rest[0] == "select" || (rest[0] == "," && IsWithQuery(["with", "recursive"] + rest[1..])))
  {
    var cte := [name] + columns + ["as"] + body;
    var tokens := cte + rest;
    CteFromParts(name, columns, body);
    assert tokens[0..|cte|] == cte && tokens[0..] == tokens && tokens[|cte|..] == rest;
    AfterCte(tokens, 0, |cte|);
    WithRest(recursive, tokens);
    if rest != [] {
      assert tokens[|cte| + 1..] == rest[1..];
      WithRest(true, rest[1..]);
    }
  }

  /** Nothing, or a mark where the name must stand, is rejected. */
  lemma NamelessRejected(recursive: bool, rest: seq<string>)
    requires rest == [] || rest[0] in {"", "(", ")", ","}
    ensures !IsWithQuery(Opening(recursive) + rest)
  {
    WithRest(recursive, rest);
    if IsSentence(rest) {
      assert rest[0..] == rest;
      var n := SentenceReads(rest, 0);
      var c :| ValidCte(c) && rest[0..n] == FlattenCte(c);
      var a := CteReads(rest, 0, n, c);
    }
  }

  // ----- The tokenizer, said of the text -----

  /** What one character completes, and the word it leaves unfinished. */
  function Completes(u: Unicode, word: string, c: char): seq<string> {
    if c in "()," then Flushed(u, word) + [[c]] else if u.isWord(c) then [] else Flushed(u, word)
  }

  function Unfinished(u: Unicode, word: string, c: char): string {
    if c !in "()," && u.isWord(c) then word + [c] else ""
  }

  lemma TokensNext(u: Unicode, word: string, c: char, q: string)
    ensures TokensAfter(u, word, [c] + q) == Completes(u, word, c) + TokensAfter(u, Unfinished(u, word, c), q)
  {
    assert ([c] + q)[0] == c && ([c] + q)[1..] == q;
  }

  lemma {:induction false} TokensSplitAfter(u: Unicode, word: string, a: string, c: char, b: string)
    requires c in "()," || !u.isWord(c)
    ensures TokensAfter(u, word, a + ([c] + b)) ==
            TokensAfter(u, word, a) + ((if c in "()," then [[c]] else []) + TokensAfter(u, "", b))
    decreases |a|
  {
    if a == "" {
      assert a + ([c] + b) == [c] + b;
      TokensNext(u, word, c, b);
    } else {
      var rest := a[1..];
      assert a == [a[0]] + rest && a + ([c] + b) == [a[0]] + (rest + ([c] + b));
      TokensNext(u, word, a[0], rest);
      TokensNext(u, word, a[0], rest + ([c] + b));
      TokensSplitAfter(u, Unfinished(u, word, a[0]), rest, c, b);
    }
  }

  /** A parenthesis or comma is a token of its own, and like any other character that is not a letter, digit or
      underscore separates what stands around it; a run of the others is one token, in lower case. */
  lemma TokensExactly(u: Unicode, a: string, c: char, b: string, word: string)
    requires c in "()," || !u.isWord(c)
    requires word != "" && forall i | 0 <= i < |word| :: u.isWord(word[i]) && word[i] !in "(),"
    ensures Tokens(u, a + [c] + b) == Tokens(u, a) + (if c in "()," then [[c]] else []) + Tokens(u, b)
    ensures Tokens(u, word) == [u.lower(word)] && Tokens(u, "") == []
  {
    assert a + [c] + b == a + ([c] + b);
    TokensSplitAfter(u, "", a, c, b);
    WordScan(u, "", word, "");
    assert word + "" == word && "" + word == word;
  }
}
