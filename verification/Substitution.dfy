/** Replacing placeholders in a text, one pass after another, and all at once. */
module Substitution {

  /** strings.ReplaceAll for a non-empty pattern: the leftmost non-overlapping occurrences. */
  function ReplaceAll(s: string, pattern: string, replacement: string): string
    requires pattern != ""
    decreases |s|
  {
    if s == "" then ""
    else if pattern <= s then replacement + ReplaceAll(s[|pattern|..], pattern, replacement)
    else [s[0]] + ReplaceAll(s[1..], pattern, replacement)
  }

  datatype Rule = Rule(pattern: string, replacement: string)

  /** Patterns that cannot overlap one another: no pattern starts inside a pattern, and none is the
      beginning of another. */
  predicate Orthogonal(rules: seq<Rule>) {
    && (forall r <- rules :: r.pattern != "")
    && (forall i, j, m | 0 <= i < |rules| && 0 <= j < |rules| && 1 <= m < |rules[j].pattern| ::
          rules[j].pattern[m] != rules[i].pattern[0])
    && (forall i, j | 0 <= i < |rules| && 0 <= j < |rules| && i != j :: !(rules[i].pattern <= rules[j].pattern))
  }

  /** A replacement that cannot complete a pattern begun in front of it. */
  predicate StartsFresh(rules: seq<Rule>, i: nat)
    requires i < |rules|
  {
    && rules[i].replacement != ""
    && forall j, m | 0 <= j < |rules| && 1 <= m < |rules[j].pattern| :: rules[j].pattern[m] != rules[i].replacement[0]
  }

  // ---------------------------------------------------------------- all at once

  /** The rule whose pattern stands at the beginning of s, or the number of rules. */
  function Match(s: string, rules: seq<Rule>): (i: nat)
    ensures i <= |rules|
    ensures i < |rules| ==> rules[i].pattern <= s
    ensures i == |rules| ==> forall r <- rules :: !(r.pattern <= s)
    decreases |rules|
  {
    if rules == [] then 0
    else if rules[|rules| - 1].pattern <= s then |rules| - 1
    else
      var i := Match(s, rules[..|rules| - 1]);
      if i == |rules| - 1 then |rules| else i
  }

  /** Every placeholder of the original text replaced by its own replacement, in one go. */
  function Simultaneous(s: string, rules: seq<Rule>): string
    requires Orthogonal(rules)
    decreases |s|
  {
    if s == "" then ""
    else
      var i := Match(s, rules);
      if i < |rules| then
        assert rules[i] in rules;
        rules[i].replacement + Simultaneous(s[|rules[i].pattern|..], rules)
      else [s[0]] + Simultaneous(s[1..], rules)
  }

  predicate Within(order: seq<nat>, n: nat) { forall k | 0 <= k < |order| :: order[k] < n }

  /** One pass of ReplaceAll for each rule named in the order. */
  function Passes(s: string, rules: seq<Rule>, order: seq<nat>): string
    requires Orthogonal(rules) && Within(order, |rules|)
    decreases |order|
  {
    if order == [] then s
    else
      assert rules[order[0]] in rules;
      Passes(ReplaceAll(s, rules[order[0]].pattern, rules[order[0]].replacement), rules, order[1..])
  }

  // ---------------------------------------------------------------- a text as a template with holes

  datatype Token = Lit(c: char) | Hole(rule: nat)

  function Parse(s: string, rules: seq<Rule>): seq<Token>
    requires Orthogonal(rules)
    decreases |s|
  {
    if s == "" then []
    else
      var i := Match(s, rules);
      if i < |rules| then
        assert rules[i] in rules;
        [Hole(i)] + Parse(s[|rules[i].pattern|..], rules)
      else [Lit(s[0])] + Parse(s[1..], rules)
  }

  predicate HolesIn(tokens: seq<Token>, n: nat) { forall t <- tokens :: t.Hole? ==> t.rule < n }

  function Piece(t: Token, rules: seq<Rule>, done: set<nat>): string
    requires t.Hole? ==> t.rule < |rules|
  {
    match t
    case Lit(c) => [c]
    case Hole(i) => if i in done then rules[i].replacement else rules[i].pattern
  }

  /** The text in which the rules in `done` have been applied and the others not. */
  function Render(tokens: seq<Token>, rules: seq<Rule>, done: set<nat>): string
    requires HolesIn(tokens, |rules|)
  {
    if tokens == [] then "" else Piece(tokens[0], rules, done) + Render(tokens[1..], rules, done)
  }

  /** Every pattern in the text is a hole: none starts at a literal. */
  predicate Parsed(tokens: seq<Token>, rules: seq<Rule>)
    requires HolesIn(tokens, |rules|)
  {
    tokens != [] ==>
      && (tokens[0].Lit? ==> forall r <- rules :: !(r.pattern <= Render(tokens, rules, {})))
      && Parsed(tokens[1..], rules)
  }

  /** Putting one more token in front of a parsed text. */
  lemma ParsedInFront(t: Token, tokens: seq<Token>, rules: seq<Rule>)
    requires HolesIn(tokens, |rules|) && Parsed(tokens, rules) && (t.Hole? ==> t.rule < |rules|)
    requires t.Lit? ==> forall r <- rules :: !(r.pattern <= [t.c] + Render(tokens, rules, {}))
    ensures HolesIn([t] + tokens, |rules|) && Parsed([t] + tokens, rules)
    ensures Render([t] + tokens, rules, {}) == Piece(t, rules, {}) + Render(tokens, rules, {})
  {
    assert ([t] + tokens)[1..] == tokens;
  }

  /** The text is a template whose holes are exactly its placeholders. */
  ghost predicate ParsesWell(s: string, rules: seq<Rule>)
    requires Orthogonal(rules)
  {
    && HolesIn(Parse(s, rules), |rules|)
    && Render(Parse(s, rules), rules, {}) == s
    && Parsed(Parse(s, rules), rules)
  }

  lemma HoleInFront(s: string, rules: seq<Rule>, i: nat, v: string)
    requires Orthogonal(rules) && s != "" && i == Match(s, rules) < |rules|
    requires v == s[|rules[i].pattern|..] && ParsesWell(v, rules)
    ensures ParsesWell(s, rules)
  {
    assert rules[i] in rules;
    ParsedInFront(Hole(i), Parse(v, rules), rules);
    assert s == rules[i].pattern + v;
  }

  lemma LiteralFirst(s: string, rules: seq<Rule>)
    requires Orthogonal(rules) && s != "" && Match(s, rules) == |rules| && ParsesWell(s[1..], rules)
    ensures ParsesWell(s, rules)
  {
    assert s == [s[0]] + s[1..];
    ParsedInFront(Lit(s[0]), Parse(s[1..], rules), rules);
  }

  lemma {:induction false} ParseRender(s: string, rules: seq<Rule>)
    requires Orthogonal(rules)
    ensures HolesIn(Parse(s, rules), |rules|)
    ensures Render(Parse(s, rules), rules, {}) == s
    ensures Parsed(Parse(s, rules), rules)
    decreases |s|
  {
    if s != "" {
      var i := Match(s, rules);
      if i < |rules| {
        assert rules[i] in rules;
        var v := s[|rules[i].pattern|..];
        ParseRender(v, rules);
        HoleInFront(s, rules, i, v);
      } else {
        ParseRender(s[1..], rules);
        LiteralFirst(s, rules);
      }
    }
  }

  lemma {:induction false} ParseSimultaneous(s: string, rules: seq<Rule>, done: set<nat>)
    requires Orthogonal(rules) && forall i: nat | i < |rules| :: i in done
    ensures HolesIn(Parse(s, rules), |rules|)
    ensures Render(Parse(s, rules), rules, done) == Simultaneous(s, rules)
    decreases |s|
  {
    if s != "" {
      var i := Match(s, rules);
      if i < |rules| {
        assert rules[i] in rules;
        ParseSimultaneous(s[|rules[i].pattern|..], rules, done);
        assert Parse(s, rules)[1..] == Parse(s[|rules[i].pattern|..], rules);
      } else {
        ParseSimultaneous(s[1..], rules, done);
        assert Parse(s, rules)[1..] == Parse(s[1..], rules);
      }
    }
  }

  // ---------------------------------------------------------------- one pass fills one kind of hole

  /** The pass for i comes before the pass for j. */
  predicate Before(order: seq<nat>, i: nat, j: nat) {
    exists a, b | 0 <= a < b < |order| :: order[a] == i && order[b] == j
  }

  /** Which patterns an insertion must not create: any at all, those of other rules, or those of rules whose
      pass is still to come. */
  datatype Concern = Every | Other | Pending(order: seq<nat>)

  predicate Concerns(c: Concern, i: nat, j: nat) {
    match c
    case Every => true
    case Other => i != j
    case Pending(order) => Before(order, i, j)
  }

  /** Inserting replacements creates no pattern of concern that starts inside one. */
  predicate Safe(tokens: seq<Token>, rules: seq<Rule>, c: Concern)
    requires HolesIn(tokens, |rules|)
  {
    tokens != [] ==>
      && (tokens[0].Hole? ==> forall j: nat, k: nat | j < |rules| && k < |rules[tokens[0].rule].replacement| ::
            !Concerns(c, tokens[0].rule, j)
            || !(rules[j].pattern <= rules[tokens[0].rule].replacement[k..] + Render(tokens[1..], rules, {})))
      && Safe(tokens[1..], rules, c)
  }

  lemma {:induction false} SafeForLess(tokens: seq<Token>, rules: seq<Rule>, c: Concern, less: Concern)
    requires HolesIn(tokens, |rules|) && Safe(tokens, rules, c)
    requires forall i: nat, j: nat | Concerns(less, i, j) :: Concerns(c, i, j)
    ensures Safe(tokens, rules, less)
  {
    if tokens != [] {
      SafeForLess(tokens[1..], rules, c, less);
    }
  }

  predicate HolesFresh(tokens: seq<Token>, rules: seq<Rule>)
    requires HolesIn(tokens, |rules|)
  {
    forall t <- tokens :: t.Hole? ==> StartsFresh(rules, t.rule)
  }

  lemma PieceIsFresh(t: Token, rules: seq<Rule>, done: set<nat>, j: nat, m: nat)
    requires Orthogonal(rules) && j < |rules| && 1 <= m < |rules[j].pattern|
    requires t.Hole? ==> t.rule < |rules| && StartsFresh(rules, t.rule)
    ensures t.Hole? ==> Piece(t, rules, done) != "" && Piece(t, rules, done)[0] != rules[j].pattern[m]
  {
    if t.Hole? {
      assert rules[t.rule] in rules;
    }
  }

  lemma LiteralInFront(tokens: seq<Token>, rules: seq<Rule>, done: set<nat>, w: string)
    requires HolesIn(tokens, |rules|) && tokens != [] && tokens[0].Lit? && w != ""
    ensures w <= Render(tokens, rules, done) <==> w[0] == tokens[0].c && w[1..] <= Render(tokens[1..], rules, done)
  {
    var rest := Render(tokens[1..], rules, done);
    assert Render(tokens, rules, done)[0] == tokens[0].c && Render(tokens, rules, done)[1..] == rest;
    assert w == [w[0]] + w[1..];
  }

  /** A text of characters that start neither a pattern nor a replacement is made of literals. */
  lemma {:induction false} InnerPrefix(tokens: seq<Token>, rules: seq<Rule>, done: set<nat>, other: set<nat>, w: string)
    requires HolesIn(tokens, |rules|) && Orthogonal(rules) && HolesFresh(tokens, rules)
    requires exists j, m | 0 <= j < |rules| && 1 <= m <= |rules[j].pattern| :: w == rules[j].pattern[m..]
    requires w <= Render(tokens, rules, done)
    ensures w <= Render(tokens, rules, other)
    decreases |tokens|
  {
    if w != "" && tokens != [] {
      var j, m :| 0 <= j < |rules| && 1 <= m <= |rules[j].pattern| && w == rules[j].pattern[m..];
      assert rules[j].pattern[m] == w[0] == Render(tokens, rules, done)[0];
      assert tokens[0] in tokens;
      PieceIsFresh(tokens[0], rules, done, j, m);
      if tokens[0].Lit? {
        assert w[1..] == rules[j].pattern[m + 1..];
        LiteralInFront(tokens, rules, done, w);
        InnerPrefix(tokens[1..], rules, done, other, w[1..]);
        LiteralInFront(tokens, rules, other, w);
      }
    }
  }

  /** A pass steps over a text at none of whose positions the pattern stands. */
  lemma {:induction false} PassOver(x: string, rest: string, pattern: string, replacement: string)
    requires pattern != "" && forall k: nat | k < |x| :: !(pattern <= x[k..] + rest)
    ensures ReplaceAll(x + rest, pattern, replacement) == x + ReplaceAll(rest, pattern, replacement)
    decreases |x|
  {
    if x == "" {
      assert x + rest == rest;
    } else {
      assert x[0..] + rest == x + rest;
      assert (x + rest)[1..] == x[1..] + rest;
      forall k: nat | k < |x[1..]| ensures !(pattern <= x[1..][k..] + rest) {
        assert x[1..][k..] == x[k + 1..];
      }
      PassOver(x[1..], rest, pattern, replacement);
    }
  }

  /** A pattern at the beginning of x + rest stands in x or reaches over the end of x. */
  lemma PrefixOfSum(p: string, x: string, rest: string)
    requires p <= x + rest
    ensures if |p| <= |x| then p <= x else x <= p && p[|x|..] <= rest
  {
    if |p| <= |x| {
      assert forall k | 0 <= k < |p| :: p[k] == (x + rest)[k] == x[k];
    } else {
      assert forall k | 0 <= k < |x| :: p[k] == (x + rest)[k] == x[k];
      assert forall k | 0 <= k < |p| - |x| :: p[|x|..][k] == (x + rest)[|x| + k] == rest[k];
    }
  }

  lemma SumOfPrefix(p: string, x: string, rest: string)
    requires p <= x || (x <= p && p[|x|..] <= rest)
    ensures p <= x + rest
  {
  }

  /** Nothing that a pass replaces reaches over the end of the first part of a text. */
  ghost predicate StaysIn(a: string, b: string, p: string) {
    forall k: nat | k < |a| && p <= a[k..] + b :: |p| <= |a| - k
  }

  lemma StaysInRest(a: string, b: string, p: string, n: nat)
    requires StaysIn(a, b, p) && n <= |a|
    ensures StaysIn(a[n..], b, p) && (a + b)[n..] == a[n..] + b
  {
    forall k: nat | k < |a[n..]| && p <= a[n..][k..] + b ensures |p| <= |a[n..]| - k {
      assert a[n..][k..] == a[n + k..];
    }
  }

  /** So it begins with the pattern exactly if the first part does. */
  lemma StaysInFirst(a: string, b: string, p: string)
    requires StaysIn(a, b, p) && a != ""
    ensures p <= a + b <==> p <= a
    ensures (a + b)[0] == a[0]
  {
    assert a[0..] + b == a + b;
    if p <= a + b {
      PrefixOfSum(p, a, b);
    }
  }

  /** Such a pass works on each part by itself. */
  lemma {:induction false} PassInTwo(a: string, b: string, p: string, r: string)
    requires p != "" && StaysIn(a, b, p)
    ensures ReplaceAll(a + b, p, r) == ReplaceAll(a, p, r) + ReplaceAll(b, p, r)
    decreases |a|
  {
    if a == "" {
      assert a + b == b;
    } else {
      StaysInFirst(a, b, p);
      var n := if p <= a then |p| else 1;
      StaysInRest(a, b, p, n);
      PassInTwo(a[n..], b, p, r);
    }
  }

  /** No other pattern starts inside a pattern that has not been replaced yet. */
  lemma PatternIsSolid(rules: seq<Rule>, i: nat, j: nat, k: nat, rest: string)
    requires Orthogonal(rules) && i < |rules| && j < |rules| && k < |rules[i].pattern| && (k == 0 ==> i != j)
    ensures !(rules[j].pattern <= rules[i].pattern[k..] + rest)
  {
    assert rules[i] in rules && rules[j] in rules;
    var p, x := rules[j].pattern, rules[i].pattern[k..];
    assert x[0] == rules[i].pattern[k] && (x + rest)[0] == x[0];
    if k == 0 {
      assert x == rules[i].pattern;
      if p <= x + rest {
        PrefixOfSum(p, x, rest);
      }
    } else {
      assert p[0] != x[0];
    }
  }

  /** Whatever other rules have been applied, no pattern starts inside an inserted replacement. */
  lemma ReplacementIsSolid(tokens: seq<Token>, rules: seq<Rule>, done: set<nat>, j: nat, k: nat, c: Concern)
    requires HolesIn(tokens, |rules|) && Orthogonal(rules) && HolesFresh(tokens, rules) && Safe(tokens, rules, c)
    requires tokens != [] && tokens[0].Hole? && j < |rules| && Concerns(c, tokens[0].rule, j)
    requires k < |rules[tokens[0].rule].replacement|
    ensures !(rules[j].pattern <= rules[tokens[0].rule].replacement[k..] + Render(tokens[1..], rules, done))
  {
    var p, x, rest := rules[j].pattern, rules[tokens[0].rule].replacement[k..], tokens[1..];
    if p <= x + Render(rest, rules, done) {
      PrefixOfSum(p, x, Render(rest, rules, done));
      if |p| > |x| {
        InnerPrefix(rest, rules, done, {}, p[|x|..]);
      }
      SumOfPrefix(p, x, Render(rest, rules, {}));
    }
  }

  /** No pattern starts at a literal, whatever rules have been applied. */
  lemma LiteralStays(tokens: seq<Token>, rules: seq<Rule>, done: set<nat>, j: nat)
    requires HolesIn(tokens, |rules|) && Orthogonal(rules) && HolesFresh(tokens, rules) && Parsed(tokens, rules)
    requires tokens != [] && tokens[0].Lit? && j < |rules|
    ensures !(rules[j].pattern <= Render(tokens, rules, done))
  {
    var p, x, rest := rules[j].pattern, [tokens[0].c], tokens[1..];
    assert rules[j] in rules;
    if p <= Render(tokens, rules, done) {
      PrefixOfSum(p, x, Render(rest, rules, done));
      InnerPrefix(rest, rules, done, {}, p[1..]);
      SumOfPrefix(p, x, Render(rest, rules, {}));
    }
  }

  /** The heart of the matter: a pass fills exactly its own holes. */
  lemma {:induction false} OnePass(tokens: seq<Token>, rules: seq<Rule>, done: set<nat>, j: nat, c: Concern)
    requires HolesIn(tokens, |rules|) && Orthogonal(rules) && j < |rules| && j !in done
    requires Parsed(tokens, rules) && HolesFresh(tokens, rules) && Safe(tokens, rules, c)
    requires forall i <- done :: Concerns(c, i, j)
    ensures rules[j] in rules
    ensures ReplaceAll(Render(tokens, rules, done), rules[j].pattern, rules[j].replacement)
         == Render(tokens, rules, done + {j})
    decreases |tokens|
  {
    assert rules[j] in rules;
    if tokens != [] {
      var p, r := rules[j].pattern, rules[j].replacement;
      var x, rest := Piece(tokens[0], rules, done), Render(tokens[1..], rules, done);
      OnePass(tokens[1..], rules, done, j, c);
      if tokens[0] == Hole(j) {
        assert (x + rest)[|p|..] == rest;
        assert p <= x + rest;
      } else {
        forall k: nat | k < |x| ensures !(p <= x[k..] + rest) {
          match tokens[0] {
            case Lit(_) => LiteralStays(tokens, rules, done, j); assert x[k..] == x;
            case Hole(i) =>
              if i in done {
                ReplacementIsSolid(tokens, rules, done, j, k, c);
              } else {
                PatternIsSolid(rules, i, j, k, rest);
              }
          }
        }
        PassOver(x, rest, p, r);
      }
    }
  }

  predicate Distinct(order: seq<nat>) { forall a, b | 0 <= a < b < |order| :: order[a] != order[b] }

  /** An order of passes that runs every rule exactly once. */
  predicate Permutation(order: seq<nat>, n: nat) {
    Distinct(order) && Within(order, n) && (forall i: nat | i < n :: i in order)
  }

  lemma FirstApart(order: seq<nat>, done: set<nat>, c: Concern)
    requires order != [] && Distinct(order) && forall i <- order :: i !in done
    requires forall i <- done, j <- order :: Concerns(c, i, j)
    requires forall a, b | 0 <= a < b < |order| :: Concerns(c, order[a], order[b])
    ensures Distinct(order[1..]) && forall i <- order[1..] :: i !in done + {order[0]}
    ensures forall i <- done + {order[0]}, j <- order[1..] :: Concerns(c, i, j)
    ensures forall a, b | 0 <= a < b < |order[1..]| :: Concerns(c, order[1..][a], order[1..][b])
    ensures done + {order[0]} + (set i | i in order[1..]) == done + set i | i in order
  {
  }

  /** What comes later in the order may not be created by what is done already. */
  lemma {:induction false} PassesRender(tokens: seq<Token>, rules: seq<Rule>, done: set<nat>, order: seq<nat>,
                                        c: Concern)
    requires HolesIn(tokens, |rules|) && Orthogonal(rules)
    requires Parsed(tokens, rules) && HolesFresh(tokens, rules) && Safe(tokens, rules, c)
    requires Distinct(order) && Within(order, |rules|) && forall i <- order :: i !in done
    requires forall i <- done, j <- order :: Concerns(c, i, j)
    requires forall a, b | 0 <= a < b < |order| :: Concerns(c, order[a], order[b])
    ensures Passes(Render(tokens, rules, done), rules, order) == Render(tokens, rules, done + set i | i in order)
    decreases |order|
  {
    if order == [] {
      assert done + (set i | i in order) == done;
    } else {
      OnePass(tokens, rules, done, order[0], c);
      FirstApart(order, done, c);
      PassesRender(tokens, rules, done + {order[0]}, order[1..], c);
    }
  }

  /** When insertions create no pattern whose pass is still to come, the passes amount to one simultaneous
      substitution. */
  lemma PassesAreSimultaneous(s: string, rules: seq<Rule>, order: seq<nat>)
    requires Orthogonal(rules) && Permutation(order, |rules|)
    requires HolesIn(Parse(s, rules), |rules|)
    requires HolesFresh(Parse(s, rules), rules) && Safe(Parse(s, rules), rules, Pending(order))
    ensures Passes(s, rules, order) == Simultaneous(s, rules)
  {
    var all := set i | i in order;
    ParseRender(s, rules);
    ParseSimultaneous(s, rules, all);
    PassesRender(Parse(s, rules), rules, {}, order, Pending(order));
    assert {} + all == all;
  }

  // ---------------------------------------------------------------- nothing survives

  predicate Free(s: string, rules: seq<Rule>) {
    forall r <- rules, k: nat | k <= |s| :: !(r.pattern <= s[k..])
  }

  lemma NothingStartsInPiece(tokens: seq<Token>, rules: seq<Rule>, done: set<nat>, j: nat, k: nat)
    requires HolesIn(tokens, |rules|) && Orthogonal(rules) && forall i: nat | i < |rules| :: i in done
    requires Parsed(tokens, rules) && HolesFresh(tokens, rules) && Safe(tokens, rules, Every)
    requires tokens != [] && j < |rules| && k < |Piece(tokens[0], rules, done)|
    ensures !(rules[j].pattern <= Piece(tokens[0], rules, done)[k..] + Render(tokens[1..], rules, done))
  {
    match tokens[0] {
      case Lit(c) => LiteralStays(tokens, rules, done, j); assert [c][k..] == [c];
      case Hole(_) => ReplacementIsSolid(tokens, rules, done, j, k, Every);
    }
  }

  lemma {:induction false} FilledIsFree(tokens: seq<Token>, rules: seq<Rule>, done: set<nat>)
    requires HolesIn(tokens, |rules|) && Orthogonal(rules) && forall i: nat | i < |rules| :: i in done
    requires Parsed(tokens, rules) && HolesFresh(tokens, rules) && Safe(tokens, rules, Every)
    ensures Free(Render(tokens, rules, done), rules)
    decreases |tokens|
  {
    if tokens == [] {
      assert forall r <- rules :: r.pattern != "";
    } else {
      FilledIsFree(tokens[1..], rules, done);
      var x, rest := Piece(tokens[0], rules, done), Render(tokens[1..], rules, done);
      forall r, k: nat | r in rules && k < |x| ensures !(r.pattern <= x[k..] + rest) {
        var j :| 0 <= j < |rules| && rules[j] == r;
        NothingStartsInPiece(tokens, rules, done, j, k);
      }
      FreeInFront(x, rest, rules);
    }
  }

  lemma FreeInFront(x: string, rest: string, rules: seq<Rule>)
    requires Free(rest, rules) && forall r <- rules, k: nat | k < |x| :: !(r.pattern <= x[k..] + rest)
    ensures Free(x + rest, rules)
  {
    forall r, k: nat | r in rules && k <= |x + rest| ensures !(r.pattern <= (x + rest)[k..]) {
      if k < |x| {
        assert (x + rest)[k..] == x[k..] + rest;
      } else {
        assert (x + rest)[k..] == rest[k - |x|..];
      }
    }
  }

  lemma {:induction false} NothingToReplace(s: string, pattern: string, replacement: string)
    requires pattern != "" && forall k: nat | k <= |s| :: !(pattern <= s[k..])
    ensures ReplaceAll(s, pattern, replacement) == s
  {
    forall k: nat | k < |s| ensures !(pattern <= s[k..] + "") {
      assert s[k..] + "" == s[k..];
    }
    PassOver(s, "", pattern, replacement);
    assert s + "" == s;
  }

  lemma {:induction false} PassesOnFree(s: string, rules: seq<Rule>, order: seq<nat>)
    requires Orthogonal(rules) && Free(s, rules) && Within(order, |rules|)
    ensures Passes(s, rules, order) == s
    decreases |order|
  {
    if order != [] {
      assert rules[order[0]] in rules;
      NothingToReplace(s, rules[order[0]].pattern, rules[order[0]].replacement);
      PassesOnFree(s, rules, order[1..]);
    }
  }
}
