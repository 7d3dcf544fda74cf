/** Contract sources: the staking collection with its six placeholders, and its test version, in which
    every access(self) is made public. */
module Contracts {
  import opened Options
  import opened Substitution
  import opened AddressRules

  const FUNGIBLE_TOKEN := "0xFUNGIBLETOKENADDRESS"
  const FLOW_TOKEN := "0xFLOWTOKENADDRESS"
  const ID_TABLE := "0xFLOWIDTABLESTAKINGADDRESS"
  const STAKING_PROXY := "0xSTAKINGPROXYADDRESS"
  const LOCKED_TOKENS := "0xLOCKEDTOKENSADDRESS"
  const STORAGE_FEES := "0xFLOWSTORAGEFEESADDRESS"
  const PRIVATE := "access(self)"
  const PUBLIC := "pub"

  function PlaceholdersInOrder(): (places: seq<string>)
    ensures |places| == 6 && NonEmpty(places)
  {
    [FUNGIBLE_TOKEN, FLOW_TOKEN, ID_TABLE, STAKING_PROXY, LOCKED_TOKENS, STORAGE_FEES]
  }

  function KeysInOrder(): seq<string> { ["FUIBE", "FLTOE", "FLIDA", "STINP", "LOEDO", "FLSTR"] }

  lemma FungibleTokenKey() ensures Keyed(FUNGIBLE_TOKEN, "FUIBE") {}
  lemma FlowTokenKey() ensures Keyed(FLOW_TOKEN, "FLTOE") {}
  lemma IDTableKey() ensures Keyed(ID_TABLE, "FLIDA") {}
  lemma StakingProxyKey() ensures Keyed(STAKING_PROXY, "STINP") {}
  lemma LockedTokensKey() ensures Keyed(LOCKED_TOKENS, "LOEDO") {}
  lemma StorageFeesKey() ensures Keyed(STORAGE_FEES, "FLSTR") {}

  lemma ContractPlaceholders()
    ensures Placeholders(PlaceholdersInOrder())
  {
    FungibleTokenKey();
    FlowTokenKey();
    IDTableKey();
    StakingProxyKey();
    LockedTokensKey();
    StorageFeesKey();
    KeyedPlaceholders(PlaceholdersInOrder(), KeysInOrder());
  }

  /** FlowStakingCollection for the given contract text and addresses, in the order of its parameters:
      fungible token, flow token, id table, staking proxy, locked tokens, storage fees. */
  function StakingCollection(code: string, addresses: seq<string>): Option<string>
    requires |addresses| == 6
  {
    var c1 := Fill(Some(code), FUNGIBLE_TOKEN, addresses[0]);
    var c2 := Fill(c1, FLOW_TOKEN, addresses[1]);
    var c3 := Fill(c2, ID_TABLE, addresses[2]);
    var c4 := Fill(c3, STAKING_PROXY, addresses[3]);
    var c5 := Fill(c4, LOCKED_TOKENS, addresses[4]);
    Fill(c5, STORAGE_FEES, addresses[5])
  }

  /** TESTFlowStakingCollection: the same, and then the visibility is opened up. */
  function TestStakingCollection(code: string, addresses: seq<string>): Option<string>
    requires |addresses| == 6
  {
    match StakingCollection(code, addresses)
    case Some(c) => Some(OpenUp(c))
    case None => None
  }

  function OpenUp(code: string): string { ReplaceAll(code, PRIVATE, PUBLIC) }

  const VISIBILITY := Rule(PRIVATE, PUBLIC)

  // ---------------------------------------------------------------- the visibility rewrite

  lemma PrivateText()
    ensures |PRIVATE| == 12
    ensures PRIVATE[0] == 'a' && PRIVATE[1] == 'c' && PRIVATE[2] == 'c' && PRIVATE[3] == 'e' && PRIVATE[4] == 's'
    ensures forall m | 1 <= m < |PRIVATE| :: PRIVATE[m] !in {'a', '0', 'p', 'x'} && !Upper(PRIVATE[m])
    ensures |PUBLIC| == 3 && forall k | 0 <= k < |PUBLIC| :: PUBLIC[k] != 'a' && PUBLIC[k] != '0'
    ensures PUBLIC[0] == 'p'
  {
  }

  lemma {:induction false} VisibilityIsSafe(s: string, rules: seq<Rule>)
    requires rules == [VISIBILITY] && Orthogonal(rules)
    ensures HolesIn(Parse(s, rules), 1) && Safe(Parse(s, rules), rules, Every)
    decreases |s|
  {
    PrivateText();
    if s != "" {
      var i := Match(s, rules);
      if i < 1 {
        var v := s[|PRIVATE|..];
        VisibilityIsSafe(v, rules);
        ParseRender(v, rules);
        assert Parse(s, rules)[1..] == Parse(v, rules);
        forall k: nat | k < |PUBLIC| ensures !(PRIVATE <= PUBLIC[k..] + v) {
          assert (PUBLIC[k..] + v)[0] == PUBLIC[k];
        }
      } else {
        VisibilityIsSafe(s[1..], rules);
        assert Parse(s, rules)[1..] == Parse(s[1..], rules);
      }
    }
  }

  /** Whatever the text, nothing private is left in it, not even where `pub` meets its surroundings. */
  lemma NothingPrivate(s: string)
    ensures forall k: nat | k <= |OpenUp(s)| :: !(PRIVATE <= OpenUp(s)[k..])
  {
    PrivateText();
    var rules := [VISIBILITY];
    var all: set<nat> := {0};
    assert Orthogonal(rules) && StartsFresh(rules, 0);
    VisibilityIsSafe(s, rules);
    ParseRender(s, rules);
    assert HolesFresh(Parse(s, rules), rules);
    OnePass(Parse(s, rules), rules, {}, 0, Every);
    assert {} + all == all;
    FilledIsFree(Parse(s, rules), rules, all);
    assert VISIBILITY in rules;
  }

  // ---------------------------------------------------------------- the rewrite and the addresses

  lemma TogetherOrthogonal(rules: seq<Rule>)
    requires PlaceholderRules(rules)
    ensures Orthogonal(rules + [VISIBILITY]) && Orthogonal(rules)
    ensures StartsFresh(rules + [VISIBILITY], |rules|)
    ensures forall i: nat | i < |rules| && IsInserted(rules[i].replacement) :: StartsFresh(rules + [VISIBILITY], i)
  {
    PrivateText();
    PlaceholdersAreOrthogonal(rules);
    var all := rules + [VISIBILITY];
    forall j | 0 <= j < |all|
      ensures all[j].pattern != "" && all[j].pattern[0] in {'0', 'a'}
      ensures forall m | 1 <= m < |all[j].pattern| :: all[j].pattern[m] !in {'0', 'a', 'p'}
    {
      assert j < |rules| ==> IsPlaceholder(all[j].pattern);
    }
    forall i, j | 0 <= i < |all| && 0 <= j < |all| && i != j ensures !(all[i].pattern <= all[j].pattern) {
      if i < |rules| && j < |rules| {
        assert !(rules[i].pattern <= rules[j].pattern);
      } else {
        assert i < |rules| ==> IsPlaceholder(all[i].pattern);
        assert j < |rules| ==> IsPlaceholder(all[j].pattern);
      }
    }
  }

  /** access(self) cannot start in an address that ends at a character that is not a letter or digit. */
  lemma NoVisibilityInAddress(r: string, k: nat, rest: string)
    requires IsInserted(r) && k < |r| && (rest == "" || !WordCharacter(rest[0]))
    ensures !(PRIVATE <= r[k..] + rest)
  {
    PrivateText();
    var x := r[k..];
    if PRIVATE <= x + rest {
      PrefixOfSum(PRIVATE, x, rest);
    }
  }

  lemma {:induction false} TogetherSafe(s: string, rules: seq<Rule>, all: seq<Rule>)
    requires PlaceholderRules(rules) && all == rules + [VISIBILITY] && Orthogonal(all)
    requires AddressesGiven(s, rules) && PlaceholdersEnd(s, rules)
    ensures HolesIn(Parse(s, all), |all|) && HolesFresh(Parse(s, all), all) && Safe(Parse(s, all), all, Every)
    decreases |s|
  {
    TogetherOrthogonal(rules);
    if s != "" {
      var i := Match(s, all);
      if i < |all| {
        var v := s[|all[i].pattern|..];
        assert all[i] in all;
        RestEnds(s, rules, |all[i].pattern|);
        TogetherSafe(v, rules, all);
        ParseRender(v, all);
        assert Parse(s, all)[1..] == Parse(v, all);
        assert s[0..] == s && (i < |rules| ==> OccursAt(s, rules, i, 0));
        forall j: nat, k: nat | j < |all| && k < |all[i].replacement|
          ensures !(all[j].pattern <= all[i].replacement[k..] + v)
        {
          TogetherSolid(s, rules, all, i, j, k);
        }
      } else {
        RestEnds(s, rules, 1);
        TogetherSafe(s[1..], rules, all);
        assert Parse(s, all)[1..] == Parse(s[1..], all);
      }
    }
  }

  lemma RestEnds(s: string, rules: seq<Rule>, n: nat)
    requires n <= |s| && AddressesGiven(s, rules) && PlaceholdersEnd(s, rules)
    ensures AddressesGiven(s[n..], rules) && PlaceholdersEnd(s[n..], rules)
  {
    forall i: nat, u: nat | OccursAt(s[n..], rules, i, u)
      ensures OccursAt(s, rules, i, n + u)
      ensures s[n..][u + |rules[i].pattern|..] == s[n + u + |rules[i].pattern|..]
    {
      LaterPosition(s, rules, n, i, i, u);
    }
  }

  /** What is inserted at the beginning of a text starts neither a placeholder nor access(self). */
  lemma TogetherSolid(s: string, rules: seq<Rule>, all: seq<Rule>, i: nat, j: nat, k: nat)
    requires PlaceholderRules(rules) && all == rules + [VISIBILITY]
    requires AddressesGiven(s, rules) && PlaceholdersEnd(s, rules)
    requires i < |all| && all[i].pattern <= s && j < |all| && k < |all[i].replacement|
    ensures !(all[j].pattern <= all[i].replacement[k..] + s[|all[i].pattern|..])
  {
    PrivateText();
    var q, r, v := all[j].pattern, all[i].replacement, s[|all[i].pattern|..];
    assert j < |rules| ==> IsPlaceholder(q);
    assert (r[k..] + v)[0] == r[k];
    if i < |rules| {
      assert s[0..] == s && OccursAt(s, rules, i, 0);
      if j < |rules| {
        if q <= r[k..] + v {
          OnlyAtFinalZero(q, r, k, v);
        }
      } else {
        NoVisibilityInAddress(r, k, v);
      }
    }
  }

  /** Making everything public commutes with filling in the addresses, for contract texts whose
      placeholders end at a character that is not a letter or digit. */
  lemma VisibilityCommutes(code: string, addresses: seq<string>)
    requires |addresses| == 6 && forall k | 0 <= k < 6 :: |addresses[k]| != 1
    requires AddressesGiven(code, RulesFor(PlaceholdersInOrder(), addresses))
    requires PlaceholdersEnd(code, RulesFor(PlaceholdersInOrder(), addresses))
    ensures TestStakingCollection(code, addresses) == StakingCollection(OpenUp(code), addresses)
  {
    ContractPlaceholders();
    StakingCollectionIsChain(code, addresses);
    StakingCollectionIsChain(OpenUp(code), addresses);
    ChainCommutes(code, PlaceholdersInOrder(), addresses);
  }

  lemma ChainCommutes(code: string, places: seq<string>, addresses: seq<string>)
    requires |places| == |addresses| && Placeholders(places) && forall k | 0 <= k < |addresses| :: |addresses[k]| != 1
    requires AddressesGiven(code, RulesFor(places, addresses)) && PlaceholdersEnd(code, RulesFor(places, addresses))
    ensures var first := Chain(Some(code), places, addresses, 0);
            first.Some? && Chain(Some(OpenUp(code)), places, addresses, 0) == Some(OpenUp(first.value))
  {
    var n, rules := |places|, RulesFor(places, addresses);
    var all, order := rules + [VISIBILITY], From(0, n);
    RulesForPlaceholders(places, addresses);
    TogetherOrthogonal(rules);
    ChainIsPasses(code, places, addresses, 0);
    ChainIsPasses(OpenUp(code), places, addresses, 0);
    TogetherSafe(code, rules, all);
    FromZero(n);
    PutLast(n, order);
    SafeForLess(Parse(code, all), all, Every, Pending(order + [n]));
    SafeForLess(Parse(code, all), all, Every, Pending([n] + order));
    PassesAreSimultaneous(code, all, order + [n]);
    PassesAreSimultaneous(code, all, [n] + order);
    PassesInTwo(code, all, order, [n]);
    PassesInTwo(code, all, [n], order);
    UnusedRule(code, rules, VISIBILITY, order);
    UnusedRule(OpenUp(code), rules, VISIBILITY, order);
    OnePassAlone(Passes(code, rules, order), all, n);
    OnePassAlone(code, all, n);
  }

  lemma PutLast(n: nat, order: seq<nat>)
    requires Permutation(order, n)
    ensures Permutation(order + [n], n + 1) && Permutation([n] + order, n + 1)
  {
    forall k: nat | k < n + 1 ensures k in order + [n] && k in [n] + order {
      assert k == n || k in order;
    }
  }

  lemma OnePassAlone(s: string, all: seq<Rule>, n: nat)
    requires Orthogonal(all) && n < |all| && all[n] == VISIBILITY
    ensures Passes(s, all, [n]) == OpenUp(s)
  {
    assert [n][1..] == [];
    assert Passes(OpenUp(s), all, []) == OpenUp(s);
  }

  lemma StakingCollectionIsChain(code: string, addresses: seq<string>)
    requires |addresses| == 6
    ensures StakingCollection(code, addresses) == Chain(Some(code), PlaceholdersInOrder(), addresses, 0)
  {
    var ps := PlaceholdersInOrder();
    var c1 := Fill(Some(code), ps[0], addresses[0]);
    var c2 := Fill(c1, ps[1], addresses[1]);
    var c3 := Fill(c2, ps[2], addresses[2]);
    var c4 := Fill(c3, ps[3], addresses[3]);
    var c5 := Fill(c4, ps[4], addresses[4]);
    assert Chain(c5, ps, addresses, 5) == Fill(c5, ps[5], addresses[5]);
    assert Chain(c3, ps, addresses, 3) == Chain(c4, ps, addresses, 4) == Chain(c5, ps, addresses, 5);
    assert Chain(c2, ps, addresses, 2) == Chain(c3, ps, addresses, 3);
    assert Chain(Some(code), ps, addresses, 0) == Chain(c1, ps, addresses, 1) == Chain(c2, ps, addresses, 2);
  }

  /** Nothing private is left in the test contract, whatever the contract text and the addresses. */
  lemma TestContractIsPublic(code: string, addresses: seq<string>)
    requires |addresses| == 6
    ensures var made := TestStakingCollection(code, addresses);
            made.Some? ==> forall k: nat | k <= |made.value| :: !(PRIVATE <= made.value[k..])
  {
    if StakingCollection(code, addresses).Some? {
      NothingPrivate(StakingCollection(code, addresses).value);
    }
  }

  /** The contract's six passes are one simultaneous substitution, in any order, after which no
      placeholder is left. */
  lemma CollectionIsSimultaneous(code: string, addresses: seq<string>, order: seq<nat>)
    requires |addresses| == 6 && Permutation(order, 6)
    requires Suitable(code, PlaceholdersInOrder(), addresses, Every)
    ensures var rules := RulesFor(PlaceholdersInOrder(), addresses);
            && Orthogonal(rules)
            && StakingCollection(code, addresses) == Some(Simultaneous(code, rules))
            && Passes(code, rules, order) == Simultaneous(code, rules)
            && Free(Simultaneous(code, rules), rules)
  {
    ContractPlaceholders();
    StakingCollectionIsChain(code, addresses);
    ChainIsSimultaneous(code, PlaceholdersInOrder(), addresses, order);
    ChainIsFinal(code, PlaceholdersInOrder(), addresses);
  }

  /** With an address for everything, they are so in their own order if and only if no address that ends in 0
      runs into a placeholder that is replaced later. */
  lemma CollectionExactly(code: string, addresses: seq<string>)
    requires |addresses| == 6 && AllAddresses(addresses)
    ensures var rules := RulesFor(PlaceholdersInOrder(), addresses);
            && Orthogonal(rules)
            && (StakingCollection(code, addresses) == Some(Simultaneous(code, rules))
                <==> forall i: nat, j: nat, u: nat | CrossesAt(code, rules, i, j, u) :: i >= j)
  {
    ContractPlaceholders();
    StakingCollectionIsChain(code, addresses);
    ChainExactly(code, PlaceholdersInOrder(), addresses);
  }

  // ---------------------------------------------------------------- each placeholder gets its own address

  /** The k-th placeholder stands alone between u and w, its address is one, no other is of one character, and
      its address completes no later placeholder. */
  predicate StandsAlone(u: string, w: string, addresses: seq<string>, k: nat)
    requires |addresses| == 6 && k < 6
  {
    && NoPlaceholder(u, PlaceholdersInOrder()) && NoPlaceholder(w, PlaceholdersInOrder())
    && (forall i | 0 <= i < 6 :: |addresses[i]| != 1)
    && IsAddress(addresses[k])
    && NothingCompleted(PlaceholdersInOrder(), addresses[k], w, k)
  }

  lemma FillsIn(u: string, place: string, w: string, addresses: seq<string>, k: nat) returns (r: string)
    requires |addresses| == 6 && k < 6 && StandsAlone(u, w, addresses, k) && PlaceholdersInOrder()[k] == place
    ensures Written(r, addresses[k]) && StakingCollection(u + (place + w), addresses) == Some(u + (r + w))
  {
    ContractPlaceholders();
    ChainFillsIn(u, w, PlaceholdersInOrder(), addresses, k);
    StakingCollectionIsChain(u + (place + w), addresses);
    r := Inserted(addresses[k]);
  }

  /** Each address is written out, all of it, for the placeholder of its parameter. */
  lemma FillsFungibleToken(u: string, w: string, addresses: seq<string>) returns (r: string)
    requires |addresses| == 6 && StandsAlone(u, w, addresses, 0)
    ensures Written(r, addresses[0])
    ensures StakingCollection(u + ("0xFUNGIBLETOKENADDRESS" + w), addresses) == Some(u + (r + w))
  {
    r := FillsIn(u, FUNGIBLE_TOKEN, w, addresses, 0);
  }

  lemma FillsFlowToken(u: string, w: string, addresses: seq<string>) returns (r: string)
    requires |addresses| == 6 && StandsAlone(u, w, addresses, 1)
    ensures Written(r, addresses[1])
    ensures StakingCollection(u + ("0xFLOWTOKENADDRESS" + w), addresses) == Some(u + (r + w))
  {
    r := FillsIn(u, FLOW_TOKEN, w, addresses, 1);
  }

  lemma FillsIDTable(u: string, w: string, addresses: seq<string>) returns (r: string)
    requires |addresses| == 6 && StandsAlone(u, w, addresses, 2)
    ensures Written(r, addresses[2])
    ensures StakingCollection(u + ("0xFLOWIDTABLESTAKINGADDRESS" + w), addresses) == Some(u + (r + w))
  {
    r := FillsIn(u, ID_TABLE, w, addresses, 2);
  }

  lemma FillsStakingProxy(u: string, w: string, addresses: seq<string>) returns (r: string)
    requires |addresses| == 6 && StandsAlone(u, w, addresses, 3)
    ensures Written(r, addresses[3])
    ensures StakingCollection(u + ("0xSTAKINGPROXYADDRESS" + w), addresses) == Some(u + (r + w))
  {
    r := FillsIn(u, STAKING_PROXY, w, addresses, 3);
  }

  lemma FillsLockedTokens(u: string, w: string, addresses: seq<string>) returns (r: string)
    requires |addresses| == 6 && StandsAlone(u, w, addresses, 4)
    ensures Written(r, addresses[4])
    ensures StakingCollection(u + ("0xLOCKEDTOKENSADDRESS" + w), addresses) == Some(u + (r + w))
  {
    r := FillsIn(u, LOCKED_TOKENS, w, addresses, 4);
  }

  lemma FillsStorageFees(u: string, w: string, addresses: seq<string>) returns (r: string)
    requires |addresses| == 6 && StandsAlone(u, w, addresses, 5)
    ensures Written(r, addresses[5])
    ensures StakingCollection(u + ("0xFLOWSTORAGEFEESADDRESS" + w), addresses) == Some(u + (r + w))
  {
    r := FillsIn(u, STORAGE_FEES, w, addresses, 5);
  }

  predicate NothingPrivateIn(text: string) { forall k: nat | k <= |text| :: !("access(self)" <= text[k..]) }

  lemma NothingPrivateIsFree(text: string)
    requires NothingPrivateIn(text)
    ensures Free(text, [VISIBILITY])
  {
  }

  lemma VisibilityIsOrthogonal()
    ensures Orthogonal([VISIBILITY]) && StartsFresh([VISIBILITY], 0) && VISIBILITY in [VISIBILITY]
  {
    PrivateText();
  }

  /** Opening up is one simultaneous substitution. */
  lemma OpenUpIsSimultaneous(code: string)
    ensures Orthogonal([VISIBILITY]) && OpenUp(code) == Simultaneous(code, [VISIBILITY])
  {
    var rules := [VISIBILITY];
    VisibilityIsOrthogonal();
    VisibilityIsSafe(code, rules);
    ParseRender(code, rules);
    assert HolesFresh(Parse(code, rules), rules);
    SafeForLess(Parse(code, rules), rules, Every, Pending([0]));
    PassesAreSimultaneous(code, rules, [0]);
    OnePassAlone(code, rules, 0);
  }

  /** Making everything public turns an access(self) that stands alone into pub, and leaves the rest. */
  lemma OpensUp(u: string, w: string)
    requires NothingPrivateIn(u) && NothingPrivateIn(w)
    ensures OpenUp(u + ("access(self)" + w)) == u + ("pub" + w)
  {
    VisibilityIsOrthogonal();
    NothingPrivateIsFree(u);
    NothingPrivateIsFree(w);
    SimultaneousAround(u, w, [VISIBILITY], 0);
    OpenUpIsSimultaneous(u + (PRIVATE + w));
  }
}
