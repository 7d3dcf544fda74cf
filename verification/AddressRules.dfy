/** Placeholders such as 0xFLOWTOKENADDRESS, replaced by addresses such as 0x1654653399040a61:
    exactly when the order of the passes does not matter. */
module AddressRules {
  import opened Options
  import opened Substitution

  predicate Upper(c: char) { 'A' <= c <= 'Z' }

  predicate HexDigit(c: char) { '0' <= c <= '9' || 'a' <= c <= 'f' }

  predicate IsPlaceholder(p: string) {
    |p| >= 3 && p[0] == '0' && p[1] == 'x' && forall k | 2 <= k < |p| :: Upper(p[k])
  }

  predicate IsInserted(r: string) {
    |r| >= 3 && r[0] == '0' && r[1] == 'x' && forall k | 2 <= k < |r| :: HexDigit(r[k])
  }

  predicate PrefixFree(rules: seq<Rule>) {
    forall i, j | 0 <= i < |rules| && 0 <= j < |rules| && i != j :: !(rules[i].pattern <= rules[j].pattern)
  }

  predicate PlaceholderRules(rules: seq<Rule>) {
    PrefixFree(rules) && forall i | 0 <= i < |rules| :: IsPlaceholder(rules[i].pattern)
  }

  lemma PlaceholdersAreOrthogonal(rules: seq<Rule>)
    requires PlaceholderRules(rules)
    ensures Orthogonal(rules)
    ensures forall i: nat | i < |rules| && IsInserted(rules[i].replacement) :: StartsFresh(rules, i)
  {
    forall j, m | 0 <= j < |rules| && 1 <= m < |rules[j].pattern|
      ensures rules[j].pattern[m] != '0'
    {
      assert IsPlaceholder(rules[j].pattern);
    }
  }

  /** The placeholder i stands at position u of s. */
  predicate OccursAt(s: string, rules: seq<Rule>, i: nat, u: nat) {
    i < |rules| && u <= |s| && rules[i].pattern <= s[u..]
  }

  /** The placeholder i at position u gets an address that ends in 0, and what follows it is the
      placeholder j without its leading 0. */
  predicate CrossesAt(s: string, rules: seq<Rule>, i: nat, j: nat, u: nat) {
    && OccursAt(s, rules, i, u) && j < |rules|
    && rules[i].replacement != "" && rules[i].replacement[|rules[i].replacement| - 1] == '0'
    && rules[j].pattern != "" && rules[j].pattern[1..] <= s[u + |rules[i].pattern|..]
  }

  /** No address runs into a placeholder of concern. */
  ghost predicate NoCrossing(s: string, rules: seq<Rule>, c: Concern) {
    forall i: nat, j: nat, u: nat | CrossesAt(s, rules, i, j, u) :: !Concerns(c, i, j)
  }

  /** The placeholders that occur in s are given addresses. */
  ghost predicate AddressesGiven(s: string, rules: seq<Rule>) {
    forall i: nat, u: nat | OccursAt(s, rules, i, u) :: IsInserted(rules[i].replacement)
  }

  lemma LaterPosition(s: string, rules: seq<Rule>, n: nat, i: nat, j: nat, u: nat)
    requires n <= |s| && u <= |s| - n
    ensures OccursAt(s[n..], rules, i, u) <==> OccursAt(s, rules, i, n + u)
    ensures CrossesAt(s[n..], rules, i, j, u) <==> CrossesAt(s, rules, i, j, n + u)
  {
    assert s[n..][u..] == s[n + u..];
    if OccursAt(s, rules, i, n + u) {
      assert |rules[i].pattern| <= |s[n + u..]|;
      assert s[n..][u + |rules[i].pattern|..] == s[n + u + |rules[i].pattern|..];
    }
  }

  /** Both conditions pass on to the rest of a text. */
  lemma ConditionsOfRest(s: string, rules: seq<Rule>, n: nat, c: Concern)
    requires n <= |s| && NoCrossing(s, rules, c) && AddressesGiven(s, rules)
    ensures NoCrossing(s[n..], rules, c) && AddressesGiven(s[n..], rules)
  {
    forall i: nat, j: nat, u: nat | CrossesAt(s[n..], rules, i, j, u) ensures !Concerns(c, i, j) {
      LaterPosition(s, rules, n, i, j, u);
    }
    forall i: nat, u: nat | OccursAt(s[n..], rules, i, u) ensures IsInserted(rules[i].replacement) {
      LaterPosition(s, rules, n, i, i, u);
    }
  }

  lemma PlaceholderIsNoAddress(p: string, r: string, k: nat)
    requires IsPlaceholder(p) && IsInserted(r) && k + 1 < |r|
    ensures p[0] != r[k] || p[1] != r[k + 1] || (k == 0 && p[2] != r[2])
  {
  }

  /** A placeholder can only start in an inserted address at its final 0. */
  lemma OnlyAtFinalZero(p: string, r: string, k: nat, rest: string)
    requires IsPlaceholder(p) && IsInserted(r) && k < |r| && p <= r[k..] + rest
    ensures k == |r| - 1 && r[k] == '0' && p[1..] <= rest
  {
    var x := r[k..];
    PrefixOfSum(p, x, rest);
    assert forall m | 0 <= m < |p| && m < |x| :: p[m] == x[m] == r[k + m];
    if k + 1 < |r| {
      PlaceholderIsNoAddress(p, r, k);
    }
  }

  /** An inserted address starts no placeholder but where it crosses into the text behind it. */
  lemma HoleIsSafe(s: string, rules: seq<Rule>, c: Concern, i: nat, j: nat, k: nat)
    requires PlaceholderRules(rules) && NoCrossing(s, rules, c) && AddressesGiven(s, rules)
    requires i < |rules| && rules[i].pattern <= s && j < |rules| && k < |rules[i].replacement|
    requires rules[j].pattern <= rules[i].replacement[k..] + s[|rules[i].pattern|..]
    ensures !Concerns(c, i, j)
  {
    assert s[0..] == s;
    assert OccursAt(s, rules, i, 0);
    OnlyAtFinalZero(rules[j].pattern, rules[i].replacement, k, s[|rules[i].pattern|..]);
    assert CrossesAt(s, rules, i, j, 0);
  }

  /** A text without crossings is safe: insertions create no placeholder of concern. */
  lemma {:induction false} NoCrossingIsSafe(s: string, rules: seq<Rule>, c: Concern)
    requires PlaceholderRules(rules) && Orthogonal(rules) && NoCrossing(s, rules, c) && AddressesGiven(s, rules)
    ensures HolesIn(Parse(s, rules), |rules|)
    ensures HolesFresh(Parse(s, rules), rules)
    ensures Safe(Parse(s, rules), rules, c)
    decreases |s|
  {
    PlaceholdersAreOrthogonal(rules);
    if s != "" {
      var i := Match(s, rules);
      if i < |rules| {
        assert rules[i] in rules;
        var p, r := rules[i].pattern, rules[i].replacement;
        var v := s[|p|..];
        assert s[0..] == s && OccursAt(s, rules, i, 0);
        ConditionsOfRest(s, rules, |p|, c);
        NoCrossingIsSafe(v, rules, c);
        ParseRender(v, rules);
        assert Parse(s, rules)[1..] == Parse(v, rules);
        forall j: nat, k: nat | j < |rules| && k < |r| && rules[j].pattern <= r[k..] + v
          ensures !Concerns(c, i, j)
        {
          HoleIsSafe(s, rules, c, i, j, k);
        }
      } else {
        ConditionsOfRest(s, rules, 1, c);
        NoCrossingIsSafe(s[1..], rules, c);
        assert Parse(s, rules)[1..] == Parse(s[1..], rules);
      }
    }
  }

  /** Where no address runs into a placeholder whose pass is still to come, the passes amount to one
      simultaneous substitution. */
  lemma OrderIsSimultaneous(s: string, rules: seq<Rule>, order: seq<nat>)
    requires PlaceholderRules(rules) && Orthogonal(rules) && Permutation(order, |rules|)
    requires AddressesGiven(s, rules) && NoCrossing(s, rules, Pending(order))
    ensures Passes(s, rules, order) == Simultaneous(s, rules)
  {
    NoCrossingIsSafe(s, rules, Pending(order));
    PassesAreSimultaneous(s, rules, order);
  }

  /** Where none runs into another placeholder at all, they do so in whatever order they run. */
  lemma AnyOrderIsSimultaneous(s: string, rules: seq<Rule>, order: seq<nat>)
    requires PlaceholderRules(rules) && Orthogonal(rules) && Permutation(order, |rules|)
    requires AddressesGiven(s, rules) && NoCrossing(s, rules, Other)
    ensures Passes(s, rules, order) == Simultaneous(s, rules)
  {
    NeverBeforeItself(order);
    OrderIsSimultaneous(s, rules, order);
  }

  lemma NeverBeforeItself(order: seq<nat>)
    requires Distinct(order)
    ensures forall i: nat, j: nat | Before(order, i, j) :: i != j
  {
  }

  /** And if no address runs into its own placeholder either, no placeholder is left, and running the
      passes again changes nothing. */
  lemma NoneLeft(s: string, rules: seq<Rule>, order: seq<nat>, again: seq<nat>)
    requires PlaceholderRules(rules) && Orthogonal(rules) && Permutation(order, |rules|) && Within(again, |rules|)
    requires AddressesGiven(s, rules) && NoCrossing(s, rules, Every)
    ensures Free(Passes(s, rules, order), rules)
    ensures Passes(Passes(s, rules, order), rules, again) == Passes(s, rules, order)
  {
    AnyOrderIsSimultaneous(s, rules, order);
    NoCrossingIsSafe(s, rules, Every);
    var all := set i | i in order;
    ParseRender(s, rules);
    ParseSimultaneous(s, rules, all);
    FilledIsFree(Parse(s, rules), rules, all);
    PassesOnFree(Passes(s, rules, order), rules, again);
  }

  // ---------------------------------------------------------------- counting what passes remove

  function Occurrences(s: string, p: string): nat
    requires p != ""
    decreases |s|
  {
    if s == "" then 0
    else if p <= s then 1 + Occurrences(s[|p|..], p)
    else Occurrences(s[1..], p)
  }

  /** The number of upper-case letters, which only placeholders lose. */
  function Weight(s: string): nat {
    if s == "" then 0 else (if Upper(s[0]) then 1 else 0) + Weight(s[1..])
  }

  lemma {:induction false} WeightOfSum(a: string, b: string)
    ensures Weight(a + b) == Weight(a) + Weight(b)
    decreases |a|
  {
    if a == "" {
      assert a + b == b;
    } else {
      assert (a + b)[1..] == a[1..] + b;
      WeightOfSum(a[1..], b);
    }
  }

  lemma {:induction false} NoUpperNoWeight(s: string)
    requires forall k | 0 <= k < |s| :: !Upper(s[k])
    ensures Weight(s) == 0
    decreases |s|
  {
    if s != "" {
      NoUpperNoWeight(s[1..]);
    }
  }

  lemma OneMoreTimes(n: nat, w: nat)
    ensures (1 + n) * w == w + n * w
  {
  }

  lemma {:induction false} PassWeight(s: string, p: string, r: string)
    requires p != "" && Weight(r) == 0
    ensures Weight(ReplaceAll(s, p, r)) == Weight(s) - Occurrences(s, p) * Weight(p)
    decreases |s|
  {
    if s == "" {
    } else if p <= s {
      var v := s[|p|..];
      PassWeight(v, p, r);
      assert s == p + v;
      WeightOfSum(p, v);
      WeightOfSum(r, ReplaceAll(v, p, r));
      OneMoreTimes(Occurrences(v, p), Weight(p));
    } else {
      PassWeight(s[1..], p, r);
      WeightOfSum([s[0]], ReplaceAll(s[1..], p, r));
    }
  }

  /** Nothing is counted where the pattern does not start. */
  lemma {:induction false} CountSkips(x: string, rest: string, p: string)
    requires p != "" && forall k: nat | k < |x| :: !(p <= x[k..] + rest)
    ensures Occurrences(x + rest, p) == Occurrences(rest, p)
    decreases |x|
  {
    if x == "" {
      assert x + rest == rest;
    } else {
      assert x[0..] + rest == x + rest;
      assert (x + rest)[1..] == x[1..] + rest;
      forall k: nat | k < |x[1..]| ensures !(p <= x[1..][k..] + rest) {
        assert x[1..][k..] == x[k + 1..];
      }
      CountSkips(x[1..], rest, p);
    }
  }

  /** Something in front of a text cannot hide an occurrence of a pattern that does not overlap itself. */
  lemma {:induction false} CountOfSuffix(a: string, b: string, p: string)
    requires p != "" && forall m | 1 <= m < |p| :: p[m] != p[0]
    ensures Occurrences(a + b, p) >= Occurrences(b, p)
    decreases |a|
  {
    if a == "" {
      assert a + b == b;
    } else if p <= a + b {
      PrefixOfSum(p, a, b);
      if |p| <= |a| {
        assert (a + b)[|p|..] == a[|p|..] + b;
        CountOfSuffix(a[|p|..], b, p);
      } else {
        var n := |p| - |a|;
        assert p[|a|..] <= b && (a + b)[|p|..] == b[n..] && b == b[..n] + b[n..];
        forall k: nat | k < n ensures !(p <= b[..n][k..] + b[n..]) {
          assert (b[..n][k..] + b[n..])[0] == b[k] == p[|a|..][k] == p[|a| + k];
        }
        CountSkips(b[..n], b[n..], p);
      }
    } else {
      assert (a + b)[1..] == a[1..] + b;
      CountOfSuffix(a[1..], b, p);
    }
  }

  /** A pattern's own text counts once, another pattern's not at all. */
  lemma CountPattern(rules: seq<Rule>, i: nat, k: nat, v: string)
    requires Orthogonal(rules) && i < |rules| && k < |rules|
    ensures rules[i] in rules && rules[k] in rules
    ensures Occurrences(rules[i].pattern + v, rules[k].pattern)
         == Occurrences(v, rules[k].pattern) + if i == k then 1 else 0
  {
    assert rules[i] in rules && rules[k] in rules;
    var p := rules[i].pattern;
    if i == k {
      assert (p + v)[|p|..] == v;
    } else {
      forall m: nat | m < |p| ensures !(rules[k].pattern <= p[m..] + v) {
        PatternIsSolid(rules, i, k, m, v);
      }
      CountSkips(p, v, rules[k].pattern);
    }
  }

  lemma NoSelfOverlap(rules: seq<Rule>, k: nat)
    requires Orthogonal(rules) && k < |rules|
    ensures rules[k] in rules && rules[k].pattern != ""
    ensures forall m | 1 <= m < |rules[k].pattern| :: rules[k].pattern[m] != rules[k].pattern[0]
  {
    assert rules[k] in rules;
  }

  lemma PassKeepsPattern(rules: seq<Rule>, j: nat, k: nat, v: string)
    requires Orthogonal(rules) && j < |rules| && k < |rules| && j != k
    ensures rules[j] in rules
    ensures ReplaceAll(rules[k].pattern + v, rules[j].pattern, rules[j].replacement)
         == rules[k].pattern + ReplaceAll(v, rules[j].pattern, rules[j].replacement)
  {
    assert rules[j] in rules;
    forall m: nat | m < |rules[k].pattern| ensures !(rules[j].pattern <= rules[k].pattern[m..] + v) {
      PatternIsSolid(rules, k, j, m, v);
    }
    PassOver(rules[k].pattern, v, rules[j].pattern, rules[j].replacement);
  }

  /** The pass for j leaves at least the occurrences of k. */
  ghost predicate Keeps(s: string, rules: seq<Rule>, j: nat, k: nat)
    requires Orthogonal(rules) && j < |rules| && k < |rules|
  {
    assert rules[j] in rules && rules[k] in rules;
    Occurrences(ReplaceAll(s, rules[j].pattern, rules[j].replacement), rules[k].pattern)
      >= Occurrences(s, rules[k].pattern)
  }

  /** If a pass over p keeps the occurrences of q in the rest of a text, it keeps them when p stands in front, ... */
  lemma KeptBehindReplaced(v: string, rules: seq<Rule>, j: nat, k: nat)
    requires Orthogonal(rules) && j < |rules| && k < |rules| && j != k && rules[j] in rules && rules[k] in rules
    requires Keeps(v, rules, j, k)
    ensures Keeps(rules[j].pattern + v, rules, j, k)
  {
    NoSelfOverlap(rules, k);
    var p, r := rules[j].pattern, rules[j].replacement;
    CountPattern(rules, j, k, v);
    assert (p + v)[|p|..] == v;
    CountOfSuffix(r, ReplaceAll(v, p, r), rules[k].pattern);
  }

  /** ... when q stands in front, ... */
  lemma KeptBehindCounted(v: string, rules: seq<Rule>, j: nat, k: nat)
    requires Orthogonal(rules) && j < |rules| && k < |rules| && j != k && rules[j] in rules && rules[k] in rules
    requires Keeps(v, rules, j, k)
    ensures Keeps(rules[k].pattern + v, rules, j, k)
  {
    CountPattern(rules, k, k, v);
    PassKeepsPattern(rules, j, k, v);
    CountPattern(rules, k, k, ReplaceAll(v, rules[j].pattern, rules[j].replacement));
  }

  /** ... and when neither does. */
  lemma KeptBehindCharacter(s: string, rules: seq<Rule>, j: nat, k: nat)
    requires Orthogonal(rules) && j < |rules| && k < |rules| && j != k && rules[j] in rules && rules[k] in rules
    requires s != "" && !(rules[j].pattern <= s) && !(rules[k].pattern <= s)
    requires Keeps(s[1..], rules, j, k)
    ensures Keeps(s, rules, j, k)
  {
    NoSelfOverlap(rules, k);
    CountOfSuffix([s[0]], ReplaceAll(s[1..], rules[j].pattern, rules[j].replacement), rules[k].pattern);
  }

  /** A pass never loses an occurrence of another placeholder. */
  lemma {:induction false} PassKeepsOthers(s: string, rules: seq<Rule>, j: nat, k: nat)
    requires Orthogonal(rules) && j < |rules| && k < |rules| && j != k
    ensures rules[j] in rules && rules[k] in rules
    ensures Occurrences(ReplaceAll(s, rules[j].pattern, rules[j].replacement), rules[k].pattern)
         >= Occurrences(s, rules[k].pattern)
    decreases |s|
  {
    NoSelfOverlap(rules, j);
    NoSelfOverlap(rules, k);
    var p, q := rules[j].pattern, rules[k].pattern;
    if s == "" {
    } else if p <= s {
      assert s == p + s[|p|..];
      PassKeepsOthers(s[|p|..], rules, j, k);
      KeptBehindReplaced(s[|p|..], rules, j, k);
    } else if q <= s {
      assert s == q + s[|q|..];
      PassKeepsOthers(s[|q|..], rules, j, k);
      KeptBehindCounted(s[|q|..], rules, j, k);
    } else {
      PassKeepsOthers(s[1..], rules, j, k);
      KeptBehindCharacter(s, rules, j, k);
    }
  }

  // ---------------------------------------------------------------- a crossing splits a text

  /** Nothing reaches from what stands before a placeholder into it. */
  lemma NothingReachesIn(s: string, rules: seq<Rule>, i: nat, k: nat, u: nat)
    requires Orthogonal(rules) && OccursAt(s, rules, i, u) && k < |rules|
    ensures StaysIn(s[..u], s[u..], rules[k].pattern) && s == s[..u] + s[u..]
  {
    assert rules[i] in rules && rules[k] in rules;
    var p := rules[k].pattern;
    forall m: nat | m < u && p <= s[..u][m..] + s[u..] ensures |p| <= u - m {
      PrefixOfSum(p, s[..u][m..], s[u..]);
    }
  }

  lemma {:induction false} CountInTwo(a: string, b: string, p: string)
    requires p != "" && StaysIn(a, b, p)
    ensures Occurrences(a + b, p) == Occurrences(a, p) + Occurrences(b, p)
    decreases |a|
  {
    if a == "" {
      assert a + b == b;
    } else {
      StaysInFirst(a, b, p);
      var n := if p <= a then |p| else 1;
      StaysInRest(a, b, p, n);
      CountInTwo(a[n..], b, p);
    }
  }

  lemma {:induction false} NoneInShorter(x: string, p: string)
    requires |x| < |p|
    ensures Occurrences(x, p) == 0
    decreases |x|
  {
    if x != "" {
      NoneInShorter(x[1..], p);
    }
  }

  /** Putting two texts together can only add occurrences of a pattern that does not overlap itself. */
  lemma {:induction false} CountAtLeast(a: string, b: string, p: string)
    requires p != "" && forall m | 1 <= m < |p| :: p[m] != p[0]
    ensures Occurrences(a + b, p) >= Occurrences(a, p) + Occurrences(b, p)
    decreases |a|
  {
    if a == "" {
      assert a + b == b;
    } else if |a| < |p| {
      NoneInShorter(a, p);
      CountOfSuffix(a, b, p);
    } else {
      PrefixInFirst(p, a, b);
      var n := if p <= a then |p| else 1;
      assert (a + b)[n..] == a[n..] + b;
      CountAtLeast(a[n..], b, p);
    }
  }

  lemma PrefixInFirst(p: string, a: string, b: string)
    requires |p| <= |a| && a != ""
    ensures p <= a + b <==> p <= a
    ensures (a + b)[0] == a[0]
  {
    if p <= a + b {
      PrefixOfSum(p, a, b);
    }
  }

  lemma CreatedAtStart(s: string, rules: seq<Rule>, i: nat, j: nat)
    requires Orthogonal(rules) && CrossesAt(s, rules, i, j, 0) && i != j && rules[j].pattern[0] == '0'
    requires rules[i] in rules && rules[j] in rules
    ensures Occurrences(ReplaceAll(s, rules[i].pattern, rules[i].replacement), rules[j].pattern)
          > Occurrences(s, rules[j].pattern)
  {
    var p := rules[i].pattern;
    assert s[0..] == s && s == p + s[|p|..];
    CountPattern(rules, i, j, s[|p|..]);
    CreatedHere(s[|p|..], rules, i, j);
  }

  /** At a crossing a pass creates an occurrence of another placeholder. */
  lemma PassCreates(s: string, rules: seq<Rule>, i: nat, j: nat, u: nat)
    requires Orthogonal(rules) && CrossesAt(s, rules, i, j, u) && i != j && rules[j].pattern[0] == '0'
    ensures rules[i] in rules && rules[j] in rules
    ensures Occurrences(ReplaceAll(s, rules[i].pattern, rules[i].replacement), rules[j].pattern)
          > Occurrences(s, rules[j].pattern)
  {
    NoSelfOverlap(rules, i);
    NoSelfOverlap(rules, j);
    var p, r, q := rules[i].pattern, rules[i].replacement, rules[j].pattern;
    NothingReachesIn(s, rules, i, i, u);
    NothingReachesIn(s, rules, i, j, u);
    PassInTwo(s[..u], s[u..], p, r);
    CountInTwo(s[..u], s[u..], q);
    PassKeepsOthers(s[..u], rules, i, j);
    LaterPosition(s, rules, u, i, j, 0);
    CreatedAtStart(s[u..], rules, i, j);
    CountAtLeast(ReplaceAll(s[..u], p, r), ReplaceAll(s[u..], p, r), q);
  }

  lemma Regroup(r: string, q: string, rest: string)
    requires r != "" && q != "" && r[|r| - 1] == q[0]
    ensures r + (q[1..] + rest) == r[..|r| - 1] + (q + rest)
  {
  }

  /** The occurrence that arises where an address ending in 0 meets the rest of a placeholder. */
  lemma CreatedHere(v: string, rules: seq<Rule>, i: nat, j: nat)
    requires Orthogonal(rules) && i < |rules| && j < |rules| && i != j && rules[i] in rules && rules[j] in rules
    requires rules[j].pattern[0] == '0' && rules[j].pattern[1..] <= v
    requires rules[i].replacement != "" && rules[i].replacement[|rules[i].replacement| - 1] == '0'
    ensures Occurrences(rules[i].replacement + ReplaceAll(v, rules[i].pattern, rules[i].replacement), rules[j].pattern)
          > Occurrences(v, rules[j].pattern)
  {
    NoSelfOverlap(rules, j);
    var p, r, q := rules[i].pattern, rules[i].replacement, rules[j].pattern;
    var tail, v' := q[1..], v[|q| - 1..];
    assert v == tail + v';
    forall m: nat | m < |tail| ensures !(p <= tail[m..] + v') && !(q <= tail[m..] + v') {
      assert tail[m..] == q[m + 1..];
      PatternIsSolid(rules, j, i, m + 1, v');
      PatternIsSolid(rules, j, j, m + 1, v');
    }
    PassOver(tail, v', p, r);
    CountSkips(tail, v', q);
    var after := ReplaceAll(v', p, r);
    Regroup(r, q, after);
    CountOfSuffix(r[..|r| - 1], q + after, q);
    CountPattern(rules, j, j, after);
    PassKeepsOthers(v', rules, i, j);
  }

  // ---------------------------------------------------------------- a crossing shows in some order

  /** The letters that the placeholders named in the order take up in s. */
  function Load(s: string, rules: seq<Rule>, order: seq<nat>): nat
    requires Orthogonal(rules) && Within(order, |rules|)
    decreases |order|
  {
    if order == [] then 0
    else
      assert rules[order[0]] in rules;
      Occurrences(s, rules[order[0]].pattern) * Weight(rules[order[0]].pattern) + Load(s, rules, order[1..])
  }

  lemma {:induction false} LoadGrows(s: string, rules: seq<Rule>, j: nat, order: seq<nat>)
    requires Orthogonal(rules) && Within(order, |rules|) && j < |rules| && j !in order
    ensures rules[j] in rules
    ensures Load(ReplaceAll(s, rules[j].pattern, rules[j].replacement), rules, order) >= Load(s, rules, order)
    decreases |order|
  {
    assert rules[j] in rules;
    if order != [] {
      var k := order[0];
      assert k in order;
      PassKeepsOthers(s, rules, j, k);
      var more := Occurrences(ReplaceAll(s, rules[j].pattern, rules[j].replacement), rules[k].pattern);
      assert more * Weight(rules[k].pattern) >= Occurrences(s, rules[k].pattern) * Weight(rules[k].pattern) by {
        MulAtMost(Occurrences(s, rules[k].pattern), more, Weight(rules[k].pattern));
      }
      LoadGrows(s, rules, j, order[1..]);
    }
  }

  lemma MulAtMost(a: nat, b: nat, c: nat)
    requires a <= b
    ensures a * c <= b * c
  {
    assert (b - a) * c >= 0;
  }

  predicate Weightless(rules: seq<Rule>) { forall i | 0 <= i < |rules| :: Weight(rules[i].replacement) == 0 }

  /** Passes remove at least the letters of all placeholders that were there. */
  lemma {:induction false} PassesWeight(s: string, rules: seq<Rule>, order: seq<nat>)
    requires Orthogonal(rules) && Weightless(rules) && Within(order, |rules|) && Distinct(order)
    ensures Weight(Passes(s, rules, order)) + Load(s, rules, order) <= Weight(s)
    decreases |order|
  {
    if order != [] {
      var j := order[0];
      assert rules[j] in rules && j !in order[1..];
      PassWeight(s, rules[j].pattern, rules[j].replacement);
      PassesWeight(ReplaceAll(s, rules[j].pattern, rules[j].replacement), rules, order[1..]);
      LoadGrows(s, rules, j, order[1..]);
    }
  }

  /** The placeholder at the beginning of a text is counted once if the order names it. */
  lemma {:induction false} LoadOfHead(v: string, rules: seq<Rule>, i: nat, order: seq<nat>)
    requires Orthogonal(rules) && Within(order, |rules|) && Distinct(order) && i < |rules|
    ensures Load(rules[i].pattern + v, rules, order)
         == Load(v, rules, order) + if i in order then Weight(rules[i].pattern) else 0
    decreases |order|
  {
    if order != [] {
      assert order[0] !in order[1..];
      CountPattern(rules, i, order[0], v);
      assert forall n: nat, w: nat :: (n + 1) * w == n * w + w;
      LoadOfHead(v, rules, i, order[1..]);
    }
  }

  lemma {:induction false} LoadOfLiteral(s: string, rules: seq<Rule>, order: seq<nat>)
    requires Orthogonal(rules) && Within(order, |rules|) && s != "" && forall r <- rules :: !(r.pattern <= s)
    ensures Load(s, rules, order) == Load(s[1..], rules, order)
    decreases |order|
  {
    if order != [] {
      assert rules[order[0]] in rules;
      LoadOfLiteral(s, rules, order[1..]);
    }
  }

  /** One simultaneous substitution removes exactly those letters. */
  lemma {:induction false} SimultaneousWeight(s: string, rules: seq<Rule>, order: seq<nat>)
    requires Orthogonal(rules) && Weightless(rules) && Permutation(order, |rules|)
    ensures Weight(Simultaneous(s, rules)) + Load(s, rules, order) == Weight(s)
    decreases |s|
  {
    if s == "" {
      EmptyLoad(rules, order);
    } else {
      var i := Match(s, rules);
      if i < |rules| {
        assert rules[i] in rules;
        var p, v := rules[i].pattern, s[|rules[i].pattern|..];
        assert s == p + v;
        SimultaneousWeight(v, rules, order);
        LoadOfHead(v, rules, i, order);
        WeightOfSum(p, v);
        WeightOfSum(rules[i].replacement, Simultaneous(v, rules));
      } else {
        SimultaneousWeight(s[1..], rules, order);
        LoadOfLiteral(s, rules, order);
        WeightOfSum([s[0]], Simultaneous(s[1..], rules));
      }
    }
  }

  lemma {:induction false} EmptyLoad(rules: seq<Rule>, order: seq<nat>)
    requires Orthogonal(rules) && Within(order, |rules|)
    ensures Load("", rules, order) == 0
    decreases |order|
  {
    if order != [] {
      EmptyLoad(rules, order[1..]);
    }
  }

  /** The numbers below n without i and j. */
  function Others(n: nat, i: nat, j: nat): (order: seq<nat>)
    ensures Distinct(order) && Within(order, n)
    ensures forall k: nat :: k in order <==> k < n && k != i && k != j
  {
    if n == 0 then []
    else if n - 1 == i || n - 1 == j then Others(n - 1, i, j)
    else Others(n - 1, i, j) + [n - 1]
  }

  lemma MoreLoad(before: nat, after: nat, w: nat)
    requires before < after
    ensures after * w >= before * w + w
  {
    MulAtMost(before + 1, after, w);
    assert (before + 1) * w == before * w + w;
  }

  lemma PlaceholderHasWeight(p: string)
    requires IsPlaceholder(p)
    ensures Weight(p) > 0
  {
    assert p == p[..2] + p[2..];
    WeightOfSum(p[..2], p[2..]);
    assert Upper(p[2..][0]);
  }

  /** A growing number of occurrences of j makes the load of an order that names j grow. */
  lemma {:induction false} LoadGrowsStrictly(s: string, rules: seq<Rule>, i: nat, j: nat, order: seq<nat>)
    requires Orthogonal(rules) && Within(order, |rules|) && Distinct(order) && i < |rules| && i !in order && j in order
    requires IsPlaceholder(rules[j].pattern) && rules[i] in rules
    requires Occurrences(ReplaceAll(s, rules[i].pattern, rules[i].replacement), rules[j].pattern)
           > Occurrences(s, rules[j].pattern)
    ensures Load(ReplaceAll(s, rules[i].pattern, rules[i].replacement), rules, order) > Load(s, rules, order)
    decreases |order|
  {
    var once, k := ReplaceAll(s, rules[i].pattern, rules[i].replacement), order[0];
    assert k in order && rules[k] in rules;
    if k == j {
      PlaceholderHasWeight(rules[j].pattern);
      MoreLoad(Occurrences(s, rules[j].pattern), Occurrences(once, rules[j].pattern), Weight(rules[j].pattern));
      LoadGrows(s, rules, i, order[1..]);
    } else {
      PassKeepsOthers(s, rules, i, k);
      MulAtMost(Occurrences(s, rules[k].pattern), Occurrences(once, rules[k].pattern), Weight(rules[k].pattern));
      LoadGrowsStrictly(s, rules, i, j, order[1..]);
    }
  }

  /** The pass for another placeholder steps over a crossing. */
  lemma PassOverCrossing(rules: seq<Rule>, i: nat, j: nat, k: nat, rest: string)
    requires Orthogonal(rules) && i < |rules| && j < |rules| && k < |rules| && k != i
    ensures rules[j] in rules && rules[k] in rules
    ensures ReplaceAll(rules[i].pattern + (rules[j].pattern[1..] + rest), rules[k].pattern, rules[k].replacement)
         == rules[i].pattern
            + (rules[j].pattern[1..] + ReplaceAll(rest, rules[k].pattern, rules[k].replacement))
  {
    assert rules[j] in rules && rules[k] in rules;
    var tail := rules[j].pattern[1..];
    PassKeepsPattern(rules, k, i, tail + rest);
    forall m: nat | m < |tail| ensures !(rules[k].pattern <= tail[m..] + rest) {
      assert tail[m..] == rules[j].pattern[m + 1..];
      PatternIsSolid(rules, j, k, m + 1, rest);
    }
    PassOver(tail, rest, rules[k].pattern, rules[k].replacement);
  }

  /** And so leaves it, at a place that depends on what stands before it. */
  lemma CrossingSurvives(s: string, rules: seq<Rule>, i: nat, j: nat, u: nat, k: nat) returns (v: nat)
    requires Orthogonal(rules) && CrossesAt(s, rules, i, j, u) && k < |rules| && k != i
    ensures rules[k] in rules
    ensures CrossesAt(ReplaceAll(s, rules[k].pattern, rules[k].replacement), rules, i, j, v)
  {
    assert rules[k] in rules;
    var p, r := rules[k].pattern, rules[k].replacement;
    NothingReachesIn(s, rules, i, k, u);
    PassInTwo(s[..u], s[u..], p, r);
    CrossingParts(s, rules, i, j, u);
    var rest := s[u + |rules[i].pattern| + |rules[j].pattern[1..]|..];
    PassOverCrossing(rules, i, j, k, rest);
    v := |ReplaceAll(s[..u], p, r)|;
    PartsCross(ReplaceAll(s[..u], p, r), ReplaceAll(rest, p, r), rules, i, j);
  }

  lemma CrossingParts(s: string, rules: seq<Rule>, i: nat, j: nat, u: nat)
    requires CrossesAt(s, rules, i, j, u)
    ensures u + |rules[i].pattern| + |rules[j].pattern[1..]| <= |s|
    ensures s[u..] == rules[i].pattern + (rules[j].pattern[1..] + s[u + |rules[i].pattern| + |rules[j].pattern[1..]|..])
  {
    var p, q := rules[i].pattern, rules[j].pattern[1..];
    assert s[u..] == p + s[u + |p|..];
    assert s[u + |p|..] == q + s[u + |p| + |q|..];
  }

  lemma PartsCross(a: string, b: string, rules: seq<Rule>, i: nat, j: nat)
    requires i < |rules| && j < |rules| && rules[j].pattern != ""
    requires rules[i].replacement != "" && rules[i].replacement[|rules[i].replacement| - 1] == '0'
    ensures CrossesAt(a + (rules[i].pattern + (rules[j].pattern[1..] + b)), rules, i, j, |a|)
  {
    var p, q := rules[i].pattern, rules[j].pattern[1..];
    var s := a + (p + (q + b));
    assert s[|a|..] == p + (q + b);
    assert s[|a| + |p|..] == q + b;
  }

  /** Passes of which the one for i comes before the one for j remove more letters than the placeholders take
      up, where i's address completes j. */
  lemma {:induction false} CrossingWeight(s: string, rules: seq<Rule>, i: nat, j: nat, u: nat, order: seq<nat>)
    requires Orthogonal(rules) && Weightless(rules) && CrossesAt(s, rules, i, j, u)
    requires IsPlaceholder(rules[j].pattern)
    requires Within(order, |rules|) && Distinct(order) && Before(order, i, j)
    ensures Weight(Passes(s, rules, order)) + Load(s, rules, order) < Weight(s)
    decreases |order|
  {
    var k, rest := order[0], order[1..];
    assert rules[k] in rules && k !in rest;
    var once := ReplaceAll(s, rules[k].pattern, rules[k].replacement);
    PassWeight(s, rules[k].pattern, rules[k].replacement);
    if k == i {
      PassCreates(s, rules, i, j, u);
      BeforeFirst(order, i, j);
      LoadGrowsStrictly(s, rules, i, j, rest);
      PassesWeight(once, rules, rest);
    } else {
      var v := CrossingSurvives(s, rules, i, j, u, k);
      BeforeRest(order, i, j);
      CrossingWeight(once, rules, i, j, v, rest);
      LoadGrows(s, rules, k, rest);
    }
  }

  lemma BeforeFirst(order: seq<nat>, i: nat, j: nat)
    requires Distinct(order) && Before(order, i, j) && order[0] == i
    ensures i != j && j in order[1..] && i !in order[1..]
  {
    var a, b :| 0 <= a < b < |order| && order[a] == i && order[b] == j;
    assert order[1..][b - 1] == j;
  }

  lemma BeforeRest(order: seq<nat>, i: nat, j: nat)
    requires Before(order, i, j) && order[0] != i
    ensures Before(order[1..], i, j)
  {
    var a, b :| 0 <= a < b < |order| && order[a] == i && order[b] == j;
    assert order[1..][a - 1] == i && order[1..][b - 1] == j;
  }

  lemma DistinctInFront(k: nat, order: seq<nat>)
    requires Distinct(order) && k !in order
    ensures Distinct([k] + order)
  {
    forall a, b | 0 <= a < b < |[k] + order| ensures ([k] + order)[a] != ([k] + order)[b] {
      assert ([k] + order)[b] == order[b - 1] && order[b - 1] in order;
    }
  }

  lemma FirstTwo(n: nat, i: nat, j: nat)
    requires i < n && j < n && i != j
    ensures Permutation([i] + ([j] + Others(n, i, j)), n)
    ensures Before([i] + ([j] + Others(n, i, j)), i, j)
  {
    var others := Others(n, i, j);
    var order := [i] + ([j] + others);
    DistinctInFront(j, others);
    DistinctInFront(i, [j] + others);
    assert order[0] == i && order[1] == j;
    forall k: nat | k < n ensures k in order {
      assert k == i || k == j || k in others;
    }
    forall m | 0 <= m < |order| ensures order[m] < n {
      assert order[m] == i || order[m] == j || order[m] in others;
    }
  }

  ghost predicate AnyOrderWorks(s: string, rules: seq<Rule>)
    requires Orthogonal(rules)
  {
    forall order | Permutation(order, |rules|) :: Passes(s, rules, order) == Simultaneous(s, rules)
  }

  /** Where an address runs into a placeholder whose pass is still to come, the passes leave fewer letters
      than the simultaneous substitution. */
  lemma CrossingShows(s: string, rules: seq<Rule>, i: nat, j: nat, u: nat, order: seq<nat>)
    requires PlaceholderRules(rules) && Orthogonal(rules) && Weightless(rules)
    requires CrossesAt(s, rules, i, j, u) && Permutation(order, |rules|) && Before(order, i, j)
    ensures Passes(s, rules, order) != Simultaneous(s, rules)
  {
    CrossingWeight(s, rules, i, j, u, order);
    SimultaneousWeight(s, rules, order);
  }

  lemma AddressesAreWeightless(rules: seq<Rule>)
    requires forall i | 0 <= i < |rules| :: IsInserted(rules[i].replacement)
    ensures Weightless(rules)
  {
    forall i | 0 <= i < |rules| ensures Weight(rules[i].replacement) == 0 {
      AddressIsWeightless(rules[i].replacement);
    }
  }

  lemma AddressIsWeightless(r: string)
    requires IsInserted(r)
    ensures Weight(r) == 0
  {
    forall k | 0 <= k < |r| ensures !Upper(r[k]) {
      if k >= 2 {
        assert HexDigit(r[k]);
      }
    }
    NoUpperNoWeight(r);
  }

  /** Given an address for every placeholder, passes in a given order yield the simultaneous substitution if
      and only if no address that ends in 0 runs into a placeholder whose pass comes later. */
  lemma OrderWorksExactly(s: string, rules: seq<Rule>, order: seq<nat>)
    requires PlaceholderRules(rules) && Orthogonal(rules) && Permutation(order, |rules|)
    requires forall i | 0 <= i < |rules| :: IsInserted(rules[i].replacement)
    ensures Passes(s, rules, order) == Simultaneous(s, rules) <==> NoCrossing(s, rules, Pending(order))
  {
    if NoCrossing(s, rules, Pending(order)) {
      OrderIsSimultaneous(s, rules, order);
    } else {
      var i: nat, j: nat, u: nat :| CrossesAt(s, rules, i, j, u) && Before(order, i, j);
      AddressesAreWeightless(rules);
      CrossingShows(s, rules, i, j, u, order);
    }
  }

  /** They yield it in every order if and only if no address that ends in 0 runs into another placeholder. */
  lemma OrderIsIrrelevantExactly(s: string, rules: seq<Rule>)
    requires PlaceholderRules(rules) && Orthogonal(rules)
    requires forall i | 0 <= i < |rules| :: IsInserted(rules[i].replacement)
    ensures AnyOrderWorks(s, rules) <==> NoCrossing(s, rules, Other)
  {
    if NoCrossing(s, rules, Other) {
      forall order | Permutation(order, |rules|)
        ensures Passes(s, rules, order) == Simultaneous(s, rules)
      {
        AnyOrderIsSimultaneous(s, rules, order);
      }
    } else {
      var i: nat, j: nat, u: nat :| CrossesAt(s, rules, i, j, u) && i != j;
      AddressesAreWeightless(rules);
      SomeOrderFails(s, rules, i, j, u);
    }
  }

  /** An order that runs i first and j next. */
  lemma SomeOrderFails(s: string, rules: seq<Rule>, i: nat, j: nat, u: nat)
    requires PlaceholderRules(rules) && Orthogonal(rules) && Weightless(rules)
    requires CrossesAt(s, rules, i, j, u) && i != j
    ensures !AnyOrderWorks(s, rules)
  {
    FirstTwo(|rules|, i, j);
    CrossingShows(s, rules, i, j, u, [i] + ([j] + Others(|rules|, i, j)));
  }

  // ---------------------------------------------------------------- telling placeholders apart

  /** Some characters by which the placeholders in use can be told apart: the first two after 0x; the ones at
      6 and 7, where FLOWTOKEN, FLOWIDTABLE, FLOWSTORAGE and FLOWSERVICE part; and the one at 9, where
      STAKINGPROXY and STAKINGCOLLECTION do. With five characters for each placeholder the twenty-eight pairs
      need no comparison of whole texts. */
  function Key(p: string): string
    requires |p| >= 10
  {
    [p[2], p[3], p[6], p[7], p[9]]
  }

  predicate Keyed(p: string, key: string) { IsPlaceholder(p) && |p| >= 10 && Key(p) == key }

  lemma KeysTellApart(p: string, q: string, k: string, l: string)
    requires Keyed(p, k) && Keyed(q, l) && k != l
    ensures !(p <= q)
  {
    KeyOfPrefix(p, q);
  }

  lemma KeyOfPrefix(p: string, q: string)
    requires |p| >= 10 && |q| >= 10
    ensures p <= q ==> Key(p) == Key(q)
  {
  }

  /** Placeholders with pairwise different keys are prefix-free. */
  lemma KeyedPlaceholders(places: seq<string>, keys: seq<string>)
    requires |keys| == |places|
    requires forall i | 0 <= i < |places| :: Keyed(places[i], keys[i])
    requires forall i, j | 0 <= i < |keys| && 0 <= j < |keys| && i != j :: keys[i] != keys[j]
    ensures Placeholders(places)
  {
    forall i, j | 0 <= i < |places| && 0 <= j < |places| && i != j
      ensures !(places[i] <= places[j])
    {
      KeysTellApart(places[i], places[j], keys[i], keys[j]);
    }
  }

  predicate Placeholders(places: seq<string>) {
    && (forall i | 0 <= i < |places| :: IsPlaceholder(places[i]))
    && (forall i, j | 0 <= i < |places| && 0 <= j < |places| && i != j :: !(places[i] <= places[j]))
  }

  // ---------------------------------------------------------------- addresses

  /** withHexPrefix, which panics on a one-character address, here None. */
  function WithHexPrefix(address: string): Option<string> {
    if address == "" then Some("")
    else if |address| == 1 then None
    else if address[0..2] == "0x" then Some(address)
    else Some("0x" + address)
  }

  /** All of the address, behind 0x if it does not begin with that itself. */
  predicate Written(r: string, address: string) {
    && "0x" <= r
    && |r| == |address| + (if "0x" <= address then 0 else 2)
    && r[|r| - |address|..] == address
  }

  /** A missing address is inserted as nothing, one character is too short, and everything else is written out. */
  lemma HexPrefix(address: string)
    ensures address == "" ==> WithHexPrefix(address) == Some("")
    ensures |address| == 1 <==> WithHexPrefix(address) == None
    ensures |address| >= 2 ==> Written(WithHexPrefix(address).value, address)
  {
    if |address| >= 2 {
      assert address[0..2] == "0x" <==> "0x" <= address;
    }
  }

  /** At least one hexadecimal digit after 0x, or at least two without it. */
  predicate IsAddress(address: string) {
    IsInserted(address) || (|address| >= 2 && forall k | 0 <= k < |address| :: HexDigit(address[k]))
  }

  lemma AddressIsInserted(address: string)
    requires IsAddress(address)
    ensures WithHexPrefix(address).Some? && IsInserted(WithHexPrefix(address).value)
  {
    if IsInserted(address) {
      assert address[0..2] == "0x";
    } else {
      assert HexDigit(address[1]) && address[0..2] != "0x";
    }
  }

  /** What is inserted for an address; nothing is, where withHexPrefix panics. */
  function Inserted(address: string): string {
    if WithHexPrefix(address).Some? then WithHexPrefix(address).value else ""
  }

  /** One ReplaceAll of a chain, panicking if the address does. */
  function Fill(code: Option<string>, placeholder: string, address: string): Option<string>
    requires placeholder != ""
  {
    match (code, WithHexPrefix(address))
    case (Some(c), Some(a)) => Some(ReplaceAll(c, placeholder, a))
    case _ => None
  }

  // ---------------------------------------------------------------- chains of passes

  /** Each placeholder with what is inserted for it. */
  function RulesFor(places: seq<string>, addresses: seq<string>): (rules: seq<Rule>)
    requires |places| == |addresses|
    ensures |rules| == |places|
    ensures forall i | 0 <= i < |places| :: rules[i] == Rule(places[i], Inserted(addresses[i]))
  {
    if places == [] then [] else [Rule(places[0], Inserted(addresses[0]))] + RulesFor(places[1..], addresses[1..])
  }

  lemma RulesForPlaceholders(places: seq<string>, addresses: seq<string>)
    requires |places| == |addresses| && Placeholders(places)
    ensures PlaceholderRules(RulesFor(places, addresses)) && Orthogonal(RulesFor(places, addresses))
  {
    PlaceholdersAreOrthogonal(RulesFor(places, addresses));
  }

  predicate NonEmpty(places: seq<string>) { forall i | 0 <= i < |places| :: places[i] != "" }

  /** The chain of passes from the i-th placeholder on. */
  function Chain(code: Option<string>, places: seq<string>, addresses: seq<string>, i: nat): Option<string>
    requires |places| == |addresses| && i <= |places| && NonEmpty(places)
    decreases |places| - i
  {
    if i == |places| then code else Chain(Fill(code, places[i], addresses[i]), places, addresses, i + 1)
  }

  /** The order in which a chain lists its passes. */
  function From(i: nat, n: nat): (order: seq<nat>)
    requires i <= n
    ensures |order| == n - i && forall k | 0 <= k < n - i :: order[k] == i + k
    decreases n - i
  {
    if i == n then [] else [i] + From(i + 1, n)
  }

  lemma FromZero(n: nat)
    ensures Permutation(From(0, n), n)
  {
    forall k: nat | k < n ensures k in From(0, n) {
      assert From(0, n)[k] == k;
    }
  }

  lemma {:induction false} PassesInTwo(s: string, rules: seq<Rule>, first: seq<nat>, second: seq<nat>)
    requires Orthogonal(rules) && Within(first, |rules|) && Within(second, |rules|) && Within(first + second, |rules|)
    ensures Passes(s, rules, first + second) == Passes(Passes(s, rules, first), rules, second)
    decreases |first|
  {
    if first == [] {
      assert first + second == second;
    } else {
      assert rules[first[0]] in rules;
      assert (first + second)[0] == first[0] && (first + second)[1..] == first[1..] + second;
      PassesInTwo(ReplaceAll(s, rules[first[0]].pattern, rules[first[0]].replacement), rules, first[1..], second);
    }
  }

  /** A rule that the order does not name makes no difference. */
  lemma {:induction false} UnusedRule(s: string, rules: seq<Rule>, extra: Rule, order: seq<nat>)
    requires Orthogonal(rules) && Orthogonal(rules + [extra]) && Within(order, |rules|)
    ensures Passes(s, rules + [extra], order) == Passes(s, rules, order)
    decreases |order|
  {
    if order != [] {
      assert rules[order[0]] in rules && (rules + [extra])[order[0]] == rules[order[0]];
      assert rules[order[0]] in rules + [extra];
      UnusedRule(ReplaceAll(s, rules[order[0]].pattern, rules[order[0]].replacement), rules, extra, order[1..]);
    }
  }

  lemma {:induction false} NoneStaysNone(places: seq<string>, addresses: seq<string>, i: nat)
    requires |places| == |addresses| && i <= |places| && NonEmpty(places)
    ensures Chain(None, places, addresses, i) == None
    decreases |places| - i
  {
    if i < |places| {
      NoneStaysNone(places, addresses, i + 1);
    }
  }

  lemma FirstPass(code: string, places: seq<string>, addresses: seq<string>, i: nat)
    requires |places| == |addresses| && i < |places| && NonEmpty(places)
    requires Orthogonal(RulesFor(places, addresses))
    ensures Passes(code, RulesFor(places, addresses), From(i, |places|))
         == Passes(ReplaceAll(code, places[i], Inserted(addresses[i])), RulesFor(places, addresses),
                   From(i + 1, |places|))
  {
    assert From(i, |places|)[1..] == From(i + 1, |places|);
  }

  /** A chain panics exactly on a one-character address, and is otherwise one pass for each rule. */
  lemma {:induction false} ChainIsPasses(code: string, places: seq<string>, addresses: seq<string>, i: nat)
    requires |places| == |addresses| && i <= |places| && NonEmpty(places)
    requires Orthogonal(RulesFor(places, addresses))
    ensures Chain(Some(code), places, addresses, i) ==
              if exists k | i <= k < |places| :: |addresses[k]| == 1 then None
              else Some(Passes(code, RulesFor(places, addresses), From(i, |places|)))
    decreases |places| - i
  {
    if i < |places| {
      FirstPass(code, places, addresses, i);
      if |addresses[i]| == 1 {
        NoneStaysNone(places, addresses, i + 1);
      } else {
        ChainIsPasses(ReplaceAll(code, places[i], Inserted(addresses[i])), places, addresses, i + 1);
      }
    }
  }

  /** Addresses wherever the text needs them, none of one character, and no address running into a
      placeholder of concern. */
  ghost predicate Suitable(code: string, places: seq<string>, addresses: seq<string>, c: Concern)
    requires |places| == |addresses|
  {
    && (forall k | 0 <= k < |addresses| :: |addresses[k]| != 1)
    && AddressesGiven(code, RulesFor(places, addresses))
    && NoCrossing(code, RulesFor(places, addresses), c)
  }

  /** A chain over a suitable text is one simultaneous substitution, and so is every other order of passes. */
  lemma ChainIsSimultaneous(code: string, places: seq<string>, addresses: seq<string>, order: seq<nat>)
    requires |places| == |addresses| && Placeholders(places) && Permutation(order, |places|)
    requires Suitable(code, places, addresses, Other)
    ensures Orthogonal(RulesFor(places, addresses))
    ensures Chain(Some(code), places, addresses, 0) == Some(Simultaneous(code, RulesFor(places, addresses)))
    ensures Passes(code, RulesFor(places, addresses), order) == Simultaneous(code, RulesFor(places, addresses))
  {
    RulesForPlaceholders(places, addresses);
    ChainIsPasses(code, places, addresses, 0);
    FromZero(|places|);
    AnyOrderIsSimultaneous(code, RulesFor(places, addresses), From(0, |places|));
    AnyOrderIsSimultaneous(code, RulesFor(places, addresses), order);
  }

  /** After it no placeholder is left, and the chain leaves its own result alone. */
  lemma ChainIsFinal(code: string, places: seq<string>, addresses: seq<string>)
    requires |places| == |addresses| && Placeholders(places) && Suitable(code, places, addresses, Every)
    ensures var done := Chain(Some(code), places, addresses, 0);
            done.Some? && Free(done.value, RulesFor(places, addresses)) && Chain(done, places, addresses, 0) == done
  {
    RulesForPlaceholders(places, addresses);
    ChainIsPasses(code, places, addresses, 0);
    FromZero(|places|);
    NoneLeft(code, RulesFor(places, addresses), From(0, |places|), From(0, |places|));
    ChainIsPasses(Passes(code, RulesFor(places, addresses), From(0, |places|)), places, addresses, 0);
  }

  predicate AllAddresses(addresses: seq<string>) { forall k | 0 <= k < |addresses| :: IsAddress(addresses[k]) }

  lemma AllInserted(places: seq<string>, addresses: seq<string>)
    requires |places| == |addresses| && AllAddresses(addresses)
    ensures forall i | 0 <= i < |places| :: IsInserted(RulesFor(places, addresses)[i].replacement)
  {
    forall i | 0 <= i < |places| ensures IsInserted(RulesFor(places, addresses)[i].replacement) {
      AddressIsInserted(addresses[i]);
    }
  }

  /** No address that ends in 0 runs into a placeholder further down the chain. */
  ghost predicate NoCrossingAhead(code: string, rules: seq<Rule>) {
    forall i: nat, j: nat, u: nat | CrossesAt(code, rules, i, j, u) :: i >= j
  }

  lemma AheadIsPending(code: string, rules: seq<Rule>)
    ensures NoCrossingAhead(code, rules) <==> NoCrossing(code, rules, Pending(From(0, |rules|)))
  {
    var order := From(0, |rules|);
    forall i: nat, j: nat, u: nat | CrossesAt(code, rules, i, j, u) ensures i < j <==> Before(order, i, j) {
      assert order[i] == i && order[j] == j;
    }
  }

  /** With an address for everything, a chain is one simultaneous substitution if and only if no address that
      ends in 0 runs into a placeholder further down the chain. */
  lemma ChainExactly(code: string, places: seq<string>, addresses: seq<string>)
    requires |places| == |addresses| && Placeholders(places) && AllAddresses(addresses)
    ensures Orthogonal(RulesFor(places, addresses))
    ensures Chain(Some(code), places, addresses, 0) == Some(Simultaneous(code, RulesFor(places, addresses)))
       <==> NoCrossingAhead(code, RulesFor(places, addresses))
  {
    RulesForPlaceholders(places, addresses);
    AllInserted(places, addresses);
    NoneTooShort(addresses);
    ChainIsPasses(code, places, addresses, 0);
    FromZero(|places|);
    OrderWorksExactly(code, RulesFor(places, addresses), From(0, |places|));
    AheadIsPending(code, RulesFor(places, addresses));
  }

  lemma NoneTooShort(addresses: seq<string>)
    requires AllAddresses(addresses)
    ensures forall k | 0 <= k < |addresses| :: |addresses[k]| != 1
  {
  }

  /** And the order of passes is irrelevant exactly without crossings into other placeholders. */
  lemma ChainOrderExactly(code: string, places: seq<string>, addresses: seq<string>)
    requires |places| == |addresses| && Placeholders(places) && AllAddresses(addresses)
    ensures Orthogonal(RulesFor(places, addresses))
    ensures AnyOrderWorks(code, RulesFor(places, addresses)) <==> NoCrossing(code, RulesFor(places, addresses), Other)
  {
    RulesForPlaceholders(places, addresses);
    AllInserted(places, addresses);
    OrderIsIrrelevantExactly(code, RulesFor(places, addresses));
  }

  lemma InsertedEnds(address: string)
    requires IsAddress(address) && address != ""
    ensures Inserted(address) != "" && Inserted(address)[|Inserted(address)| - 1] == address[|address| - 1]
  {
    AddressIsInserted(address);
  }

  /** Such a crossing: an address ending in 0 right in front of a later placeholder without its leading 0. */
  lemma CrossingText(places: seq<string>, addresses: seq<string>, i: nat, j: nat)
    requires |places| == |addresses| && Placeholders(places) && AllAddresses(addresses)
    requires i < j < |places| && addresses[i] != "" && addresses[i][|addresses[i]| - 1] == '0'
    ensures Orthogonal(RulesFor(places, addresses)) && places[j] != ""
    ensures var code := places[i] + places[j][1..];
            Chain(Some(code), places, addresses, 0) != Some(Simultaneous(code, RulesFor(places, addresses)))
  {
    assert IsPlaceholder(places[j]);
    InsertedEnds(addresses[i]);
    var code, rules := places[i] + places[j][1..], RulesFor(places, addresses);
    PartsCross("", "", rules, i, j);
    assert "" + (places[i] + (places[j][1..] + "")) == code;
    assert CrossesAt(code, rules, i, j, 0);
    ChainExactly(code, places, addresses);
  }

  // ---------------------------------------------------------------- one placeholder in a text

  /** No placeholder stands in the text. */
  predicate NoPlaceholder(text: string, places: seq<string>) {
    forall p <- places, k: nat | k <= |text| :: !(p <= text[k..])
  }

  lemma NoPlaceholderIsFree(text: string, places: seq<string>, addresses: seq<string>)
    requires |places| == |addresses| && NoPlaceholder(text, places)
    ensures Free(text, RulesFor(places, addresses))
  {
    forall r, k: nat | r in RulesFor(places, addresses) && k <= |text| ensures !(r.pattern <= text[k..]) {
      var i :| 0 <= i < |places| && RulesFor(places, addresses)[i] == r;
      assert places[i] in places;
    }
  }

  /** Nothing starts in front of a placeholder that does not stand there by itself. */
  lemma NothingInFront(u: string, w: string, rules: seq<Rule>, k: nat, j: nat, t: nat)
    requires Orthogonal(rules) && Free(u, rules) && k < |rules| && j < |rules| && t < |u|
    ensures !(rules[j].pattern <= u[t..] + (rules[k].pattern + w))
  {
    assert rules[k] in rules && rules[j] in rules;
    var p, x, rest := rules[j].pattern, u[t..], rules[k].pattern + w;
    assert rest[0] == rules[k].pattern[0];
    if p <= x + rest {
      PrefixOfSum(p, x, rest);
    }
  }

  lemma FreeRest(s: string, rules: seq<Rule>)
    requires s != "" && Free(s, rules)
    ensures Free(s[1..], rules) && Match(s, rules) == |rules|
  {
    forall r, k: nat | r in rules && k <= |s[1..]| ensures !(r.pattern <= s[1..][k..]) {
      assert s[1..][k..] == s[k + 1..];
    }
    assert s[0..] == s;
    MatchesNothing(s, rules);
  }

  lemma {:induction false} SimultaneousOnFree(s: string, rules: seq<Rule>)
    requires Orthogonal(rules) && Free(s, rules)
    ensures Simultaneous(s, rules) == s
    decreases |s|
  {
    if s != "" {
      FreeRest(s, rules);
      SimultaneousOnFree(s[1..], rules);
    }
  }

  lemma MatchesNothing(s: string, rules: seq<Rule>)
    requires forall r <- rules :: !(r.pattern <= s)
    ensures Match(s, rules) == |rules|
  {
    assert forall i | 0 <= i < |rules| :: rules[i] in rules;
  }

  lemma MatchesPlaceholder(w: string, rules: seq<Rule>, k: nat)
    requires Orthogonal(rules) && k < |rules|
    ensures Match(rules[k].pattern + w, rules) == k
  {
    var p := rules[k].pattern;
    var i := Match(p + w, rules);
    assert p[0..] == p && rules[k] in rules;
    if i < |rules| && i != k {
      PatternIsSolid(rules, k, i, 0, w);
    }
  }

  lemma HeadAndRest(u: string, x: string)
    requires u != ""
    ensures (u + x)[0] == u[0] && (u + x)[1..] == u[1..] + x && u + x == [u[0]] + (u[1..] + x)
  {
  }

  lemma NothingAtStart(u: string, w: string, rules: seq<Rule>, k: nat)
    requires Orthogonal(rules) && k < |rules| && u != "" && Free(u, rules)
    ensures Match(u + (rules[k].pattern + w), rules) == |rules|
  {
    assert u[0..] == u;
    forall r | r in rules ensures !(r.pattern <= u + (rules[k].pattern + w)) {
      var j :| 0 <= j < |rules| && rules[j] == r;
      NothingInFront(u, w, rules, k, j, 0);
    }
    MatchesNothing(u + (rules[k].pattern + w), rules);
  }

  lemma SimultaneousStep(s: string, rules: seq<Rule>)
    requires Orthogonal(rules) && s != "" && Match(s, rules) == |rules|
    ensures Simultaneous(s, rules) == [s[0]] + Simultaneous(s[1..], rules)
  {
  }

  /** Where one placeholder stands alone, one substitution fills in its address and leaves the rest. */
  lemma {:induction false} SimultaneousAround(u: string, w: string, rules: seq<Rule>, k: nat)
    requires Orthogonal(rules) && k < |rules| && Free(u, rules) && Free(w, rules)
    ensures Simultaneous(u + (rules[k].pattern + w), rules) == u + (rules[k].replacement + w)
    decreases |u|
  {
    if u == "" {
      SimultaneousAtStart(w, rules, k);
      assert u + (rules[k].pattern + w) == rules[k].pattern + w;
      assert u + (rules[k].replacement + w) == rules[k].replacement + w;
    } else {
      NothingAtStart(u, w, rules, k);
      FreeRest(u, rules);
      SimultaneousStep(u + (rules[k].pattern + w), rules);
      HeadAndRest(u, rules[k].pattern + w);
      HeadAndRest(u, rules[k].replacement + w);
      SimultaneousAround(u[1..], w, rules, k);
    }
  }

  lemma SimultaneousAtStart(w: string, rules: seq<Rule>, k: nat)
    requires Orthogonal(rules) && k < |rules| && Free(w, rules)
    ensures Simultaneous(rules[k].pattern + w, rules) == rules[k].replacement + w
  {
    assert rules[k] in rules;
    assert (rules[k].pattern + w)[|rules[k].pattern|..] == w;
    MatchesPlaceholder(w, rules, k);
    SimultaneousOnFree(w, rules);
  }

  lemma NoneElsewhere(u: string, w: string, rules: seq<Rule>, k: nat, j: nat, t: nat)
    requires Orthogonal(rules) && k < |rules| && j < |rules| && Free(u, rules) && Free(w, rules)
    requires t <= |u + (rules[k].pattern + w)|
    ensures j != k || t != |u| ==> !(rules[j].pattern <= (u + (rules[k].pattern + w))[t..])
  {
    assert rules[k] in rules && rules[j] in rules;
    var p := rules[k].pattern;
    var s := u + (p + w);
    if t < |u| {
      assert s[t..] == u[t..] + (p + w);
      NothingInFront(u, w, rules, k, j, t);
    } else if t < |u| + |p| {
      assert s[t..] == p[t - |u|..] + w;
      if t > |u| || j != k {
        PatternIsSolid(rules, k, j, t - |u|, w);
      }
    } else {
      assert s[t..] == w[t - |u| - |p|..];
    }
  }

  /** Then it is the only one that stands in the text. */
  lemma OnlyOneStands(u: string, w: string, rules: seq<Rule>, k: nat, j: nat, t: nat)
    requires Orthogonal(rules) && k < |rules| && Free(u, rules) && Free(w, rules)
    requires OccursAt(u + (rules[k].pattern + w), rules, j, t)
    ensures j == k && t == |u|
  {
    NoneElsewhere(u, w, rules, k, j, t);
  }

  /** The address does not end in 0, or what follows the k-th placeholder is not the rest of a later one. */
  predicate NothingCompleted(places: seq<string>, address: string, w: string, k: nat) {
    address == "" || address[|address| - 1] != '0'
    || forall j | k < j < |places| :: places[j] == "" || !(places[j][1..] <= w)
  }

  lemma NothingAhead(u: string, w: string, places: seq<string>, addresses: seq<string>, k: nat)
    requires |places| == |addresses| && Placeholders(places) && k < |places| && IsAddress(addresses[k])
    requires NoPlaceholder(u, places) && NoPlaceholder(w, places) && NothingCompleted(places, addresses[k], w, k)
    ensures NoCrossingAhead(u + (places[k] + w), RulesFor(places, addresses))
    ensures AddressesGiven(u + (places[k] + w), RulesFor(places, addresses))
  {
    var rules, s := RulesFor(places, addresses), u + (places[k] + w);
    RulesForPlaceholders(places, addresses);
    NoPlaceholderIsFree(u, places, addresses);
    NoPlaceholderIsFree(w, places, addresses);
    AddressIsInserted(addresses[k]);
    InsertedEnds(addresses[k]);
    forall i: nat, t: nat | OccursAt(s, rules, i, t) ensures i == k && t == |u| {
      OnlyOneStands(u, w, rules, k, i, t);
    }
    forall i: nat, j: nat, t: nat | CrossesAt(s, rules, i, j, t) ensures i >= j {
      assert OccursAt(s, rules, i, t);
      assert s[|u| + |places[k]|..] == w;
      assert IsPlaceholder(places[j]);
    }
  }

  /** A chain writes out the address of a placeholder that stands alone, and leaves the rest of the text. */
  lemma ChainFillsIn(u: string, w: string, places: seq<string>, addresses: seq<string>, k: nat)
    requires |places| == |addresses| && Placeholders(places) && k < |places| && IsAddress(addresses[k])
    requires forall i | 0 <= i < |addresses| :: |addresses[i]| != 1
    requires NoPlaceholder(u, places) && NoPlaceholder(w, places) && NothingCompleted(places, addresses[k], w, k)
    ensures NonEmpty(places) && Written(Inserted(addresses[k]), addresses[k])
    ensures Chain(Some(u + (places[k] + w)), places, addresses, 0) == Some(u + (Inserted(addresses[k]) + w))
  {
    var rules, code := RulesFor(places, addresses), u + (places[k] + w);
    RulesForPlaceholders(places, addresses);
    NoPlaceholderIsFree(u, places, addresses);
    NoPlaceholderIsFree(w, places, addresses);
    NothingAhead(u, w, places, addresses, k);
    AheadIsPending(code, rules);
    FromZero(|places|);
    OrderIsSimultaneous(code, rules, From(0, |places|));
    SimultaneousAround(u, w, rules, k);
    ChainIsPasses(code, places, addresses, 0);
    AddressIsInserted(addresses[k]);
    HexPrefix(addresses[k]);
  }

  predicate WordCharacter(c: char) { 'a' <= c <= 'z' || 'A' <= c <= 'Z' || '0' <= c <= '9' }

  /** Every placeholder in the text ends at a character that is not a letter or digit, or at its end. */
  ghost predicate PlaceholdersEnd(s: string, rules: seq<Rule>) {
    forall i: nat, u: nat | OccursAt(s, rules, i, u) ::
      var rest := s[u + |rules[i].pattern|..];
      rest == "" || !WordCharacter(rest[0])
  }

  /** That is how placeholders stand in templates, and it rules out every crossing. */
  lemma EndedPlaceholdersDoNotCross(s: string, rules: seq<Rule>)
    requires PlaceholderRules(rules) && PlaceholdersEnd(s, rules)
    ensures NoCrossing(s, rules, Every)
  {
    forall i: nat, j: nat, u: nat | OccursAt(s, rules, i, u) && j < |rules|
      ensures !CrossesAt(s, rules, i, j, u)
    {
      assert IsPlaceholder(rules[j].pattern);
      assert rules[j].pattern[1..][0] == 'x';
    }
  }
}
