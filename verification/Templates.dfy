/** Transaction templates: replaceAddresses and its eight placeholders. */
module Templates {
  import opened Options
  import opened Substitution
  import opened AddressRules

  const FUNGIBLE_TOKEN := "0xFUNGIBLETOKENADDRESS"
  const FLOW_TOKEN := "0xFLOWTOKENADDRESS"
  const ID_TABLE := "0xIDENTITYTABLEADDRESS"
  const LOCKED_TOKENS := "0xLOCKEDTOKENADDRESS"
  const STAKING_PROXY := "0xSTAKINGPROXYADDRESS"
  const STORAGE_FEES := "0xFLOWSTORAGEFEESADDRESS"
  const SERVICE_ACCOUNT := "0xFLOWSERVICEADDRESS"
  const STAKING_COLLECTION := "0xSTAKINGCOLLECTIONADDRESS"

  datatype Environment = Environment(
    fungibleToken: string,
    flowToken: string,
    idTable: string,
    lockedTokens: string,
    stakingProxy: string,
    storageFees: string,
    serviceAccount: string)

  /** The chain of passes. The staking collection gets the address of the locked tokens. */
  function ReplaceAddresses(code: string, env: Environment): Option<string> {
    var c1 := Fill(Some(code), FUNGIBLE_TOKEN, env.fungibleToken);
    var c2 := Fill(c1, FLOW_TOKEN, env.flowToken);
    var c3 := Fill(c2, ID_TABLE, env.idTable);
    var c4 := Fill(c3, LOCKED_TOKENS, env.lockedTokens);
    var c5 := Fill(c4, STAKING_PROXY, env.stakingProxy);
    var c6 := Fill(c5, STORAGE_FEES, env.storageFees);
    var c7 := Fill(c6, STAKING_COLLECTION, env.lockedTokens);
    Fill(c7, SERVICE_ACCOUNT, env.serviceAccount)
  }

  /** The placeholders in the order of the chain, and what this environment gives for each. */
  function PlaceholdersInOrder(): (places: seq<string>)
    ensures |places| == 8 && NonEmpty(places)
  {
    [FUNGIBLE_TOKEN, FLOW_TOKEN, ID_TABLE, LOCKED_TOKENS,
     STAKING_PROXY, STORAGE_FEES, STAKING_COLLECTION, SERVICE_ACCOUNT]
  }

  function AddressesInOrder(env: Environment): (addresses: seq<string>)
    ensures |addresses| == 8
  {
    [env.fungibleToken, env.flowToken, env.idTable, env.lockedTokens,
     env.stakingProxy, env.storageFees, env.lockedTokens, env.serviceAccount]
  }

  function KeysInOrder(): seq<string> { ["FUIBE", "FLTOE", "IDTIY", "LOEDO", "STINP", "FLSTR", "STINC", "FLSEV"] }

  lemma FungibleTokenKey() ensures Keyed(FUNGIBLE_TOKEN, "FUIBE") {}
  lemma FlowTokenKey() ensures Keyed(FLOW_TOKEN, "FLTOE") {}
  lemma IDTableKey() ensures Keyed(ID_TABLE, "IDTIY") {}
  lemma LockedTokensKey() ensures Keyed(LOCKED_TOKENS, "LOEDO") {}
  lemma StakingProxyKey() ensures Keyed(STAKING_PROXY, "STINP") {}
  lemma StorageFeesKey() ensures Keyed(STORAGE_FEES, "FLSTR") {}
  lemma StakingCollectionKey() ensures Keyed(STAKING_COLLECTION, "STINC") {}
  lemma ServiceAccountKey() ensures Keyed(SERVICE_ACCOUNT, "FLSEV") {}

  lemma TemplatePlaceholders()
    ensures Placeholders(PlaceholdersInOrder())
  {
    FungibleTokenKey();
    FlowTokenKey();
    IDTableKey();
    LockedTokensKey();
    StakingProxyKey();
    StorageFeesKey();
    StakingCollectionKey();
    ServiceAccountKey();
    KeyedPlaceholders(PlaceholdersInOrder(), KeysInOrder());
  }

  lemma ReplaceAddressesIsChain(code: string, env: Environment)
    ensures ReplaceAddresses(code, env) == Chain(Some(code), PlaceholdersInOrder(), AddressesInOrder(env), 0)
  {
    var ps, as_ := PlaceholdersInOrder(), AddressesInOrder(env);
    var c1 := Fill(Some(code), ps[0], as_[0]);
    var c2 := Fill(c1, ps[1], as_[1]);
    var c3 := Fill(c2, ps[2], as_[2]);
    var c4 := Fill(c3, ps[3], as_[3]);
    var c5 := Fill(c4, ps[4], as_[4]);
    var c6 := Fill(c5, ps[5], as_[5]);
    var c7 := Fill(c6, ps[6], as_[6]);
    assert Chain(c7, ps, as_, 7) == Fill(c7, ps[7], as_[7]);
    assert Chain(c4, ps, as_, 4) == Chain(c5, ps, as_, 5) == Chain(c6, ps, as_, 6) == Chain(c7, ps, as_, 7);
    assert Chain(c1, ps, as_, 1) == Chain(c2, ps, as_, 2) == Chain(c3, ps, as_, 3) == Chain(c4, ps, as_, 4);
  }

  /** What this environment inserts for each of the eight placeholders. */
  function EnvironmentRules(env: Environment): seq<Rule> { RulesFor(PlaceholdersInOrder(), AddressesInOrder(env)) }

  ghost predicate Fits(code: string, env: Environment, c: Concern) {
    Suitable(code, PlaceholdersInOrder(), AddressesInOrder(env), c)
  }

  /** The eight passes are one simultaneous substitution, and so are they in any other order. */
  lemma ReplacementIsSimultaneous(code: string, env: Environment, order: seq<nat>)
    requires Fits(code, env, Other) && Permutation(order, 8)
    ensures Orthogonal(EnvironmentRules(env))
    ensures ReplaceAddresses(code, env) == Some(Simultaneous(code, EnvironmentRules(env)))
    ensures Passes(code, EnvironmentRules(env), order) == Simultaneous(code, EnvironmentRules(env))
  {
    TemplatePlaceholders();
    ReplaceAddressesIsChain(code, env);
    ChainIsSimultaneous(code, PlaceholdersInOrder(), AddressesInOrder(env), order);
  }

  /** No placeholder survives, and replacing again changes nothing. */
  lemma ReplacementIsFinal(code: string, env: Environment)
    requires Fits(code, env, Every)
    ensures ReplaceAddresses(code, env).Some?
    ensures Free(ReplaceAddresses(code, env).value, EnvironmentRules(env))
    ensures ReplaceAddresses(ReplaceAddresses(code, env).value, env) == ReplaceAddresses(code, env)
  {
    TemplatePlaceholders();
    ReplaceAddressesIsChain(code, env);
    ChainIsFinal(code, PlaceholdersInOrder(), AddressesInOrder(env));
    ReplaceAddressesIsChain(ReplaceAddresses(code, env).value, env);
  }

  predicate FullyAddressed(env: Environment) { AllAddresses(AddressesInOrder(env)) }

  /** With an address for everything, replaceAddresses is one simultaneous substitution if and only if no
      address that ends in 0 runs into a placeholder that is replaced later. */
  lemma ReplacementExactly(code: string, env: Environment)
    requires FullyAddressed(env)
    ensures Orthogonal(EnvironmentRules(env))
    ensures ReplaceAddresses(code, env) == Some(Simultaneous(code, EnvironmentRules(env)))
       <==> forall i: nat, j: nat, u: nat | CrossesAt(code, EnvironmentRules(env), i, j, u) :: i >= j
  {
    TemplatePlaceholders();
    ReplaceAddressesIsChain(code, env);
    ChainExactly(code, PlaceholdersInOrder(), AddressesInOrder(env));
  }

  /** And every order of the eight passes gives it if and only if none runs into another placeholder. */
  lemma TemplateOrderExactly(code: string, env: Environment)
    requires FullyAddressed(env)
    ensures Orthogonal(EnvironmentRules(env))
    ensures AnyOrderWorks(code, EnvironmentRules(env))
       <==> forall i: nat, j: nat, u: nat | CrossesAt(code, EnvironmentRules(env), i, j, u) :: i == j
  {
    TemplatePlaceholders();
    ChainOrderExactly(code, PlaceholdersInOrder(), AddressesInOrder(env));
  }

  /** For instance, with a fungible token address ending in 0 in front of xFLOWTOKENADDRESS,
      replaceAddresses is no simultaneous substitution. */
  lemma TemplateThatDependsOnOrder(env: Environment)
    requires FullyAddressed(env) && env.fungibleToken != "" && env.fungibleToken[|env.fungibleToken| - 1] == '0'
    ensures Orthogonal(EnvironmentRules(env)) && FLOW_TOKEN != ""
    ensures var code := FUNGIBLE_TOKEN + FLOW_TOKEN[1..];
            ReplaceAddresses(code, env) != Some(Simultaneous(code, EnvironmentRules(env)))
  {
    TemplatePlaceholders();
    var places := PlaceholdersInOrder();
    assert places[0] == FUNGIBLE_TOKEN && places[1] == FLOW_TOKEN;
    CrossingText(places, AddressesInOrder(env), 0, 1);
    ReplaceAddressesIsChain(places[0] + places[1][1..], env);
  }

  // ---------------------------------------------------------------- each placeholder gets its own address

  /** The k-th placeholder stands alone between u and w, its address is one, no other is of one character, and
      its address completes no later placeholder. */
  predicate StandsAlone(u: string, w: string, env: Environment, k: nat)
    requires k < 8
  {
    && NoPlaceholder(u, PlaceholdersInOrder()) && NoPlaceholder(w, PlaceholdersInOrder())
    && (forall i | 0 <= i < 8 :: |AddressesInOrder(env)[i]| != 1)
    && IsAddress(AddressesInOrder(env)[k])
    && NothingCompleted(PlaceholdersInOrder(), AddressesInOrder(env)[k], w, k)
  }

  lemma FillsIn(u: string, place: string, address: string, w: string, env: Environment, k: nat) returns (r: string)
    requires k < 8 && StandsAlone(u, w, env, k)
    requires PlaceholdersInOrder()[k] == place && AddressesInOrder(env)[k] == address
    ensures Written(r, address) && ReplaceAddresses(u + (place + w), env) == Some(u + (r + w))
  {
    TemplatePlaceholders();
    ChainFillsIn(u, w, PlaceholdersInOrder(), AddressesInOrder(env), k);
    ReplaceAddressesIsChain(u + (place + w), env);
    r := Inserted(address);
  }

  /** The address of each field is written out, all of it, for the placeholder of that name. */
  lemma FillsFungibleToken(u: string, w: string, env: Environment) returns (r: string)
    requires StandsAlone(u, w, env, 0)
    ensures Written(r, env.fungibleToken)
    ensures ReplaceAddresses(u + ("0xFUNGIBLETOKENADDRESS" + w), env) == Some(u + (r + w))
  {
    r := FillsIn(u, FUNGIBLE_TOKEN, env.fungibleToken, w, env, 0);
  }

  lemma FillsFlowToken(u: string, w: string, env: Environment) returns (r: string)
    requires StandsAlone(u, w, env, 1)
    ensures Written(r, env.flowToken)
    ensures ReplaceAddresses(u + ("0xFLOWTOKENADDRESS" + w), env) == Some(u + (r + w))
  {
    r := FillsIn(u, FLOW_TOKEN, env.flowToken, w, env, 1);
  }

  lemma FillsIDTable(u: string, w: string, env: Environment) returns (r: string)
    requires StandsAlone(u, w, env, 2)
    ensures Written(r, env.idTable)
    ensures ReplaceAddresses(u + ("0xIDENTITYTABLEADDRESS" + w), env) == Some(u + (r + w))
  {
    r := FillsIn(u, ID_TABLE, env.idTable, w, env, 2);
  }

  lemma FillsLockedTokens(u: string, w: string, env: Environment) returns (r: string)
    requires StandsAlone(u, w, env, 3)
    ensures Written(r, env.lockedTokens)
    ensures ReplaceAddresses(u + ("0xLOCKEDTOKENADDRESS" + w), env) == Some(u + (r + w))
  {
    r := FillsIn(u, LOCKED_TOKENS, env.lockedTokens, w, env, 3);
  }

  lemma FillsStakingProxy(u: string, w: string, env: Environment) returns (r: string)
    requires StandsAlone(u, w, env, 4)
    ensures Written(r, env.stakingProxy)
    ensures ReplaceAddresses(u + ("0xSTAKINGPROXYADDRESS" + w), env) == Some(u + (r + w))
  {
    r := FillsIn(u, STAKING_PROXY, env.stakingProxy, w, env, 4);
  }

  lemma FillsStorageFees(u: string, w: string, env: Environment) returns (r: string)
    requires StandsAlone(u, w, env, 5)
    ensures Written(r, env.storageFees)
    ensures ReplaceAddresses(u + ("0xFLOWSTORAGEFEESADDRESS" + w), env) == Some(u + (r + w))
  {
    r := FillsIn(u, STORAGE_FEES, env.storageFees, w, env, 5);
  }

  /** The staking collection's placeholder gets the locked tokens' address. */
  lemma FillsStakingCollection(u: string, w: string, env: Environment) returns (r: string)
    requires StandsAlone(u, w, env, 6)
    ensures Written(r, env.lockedTokens)
    ensures ReplaceAddresses(u + ("0xSTAKINGCOLLECTIONADDRESS" + w), env) == Some(u + (r + w))
  {
    r := FillsIn(u, STAKING_COLLECTION, env.lockedTokens, w, env, 6);
  }

  lemma FillsServiceAccount(u: string, w: string, env: Environment) returns (r: string)
    requires StandsAlone(u, w, env, 7)
    ensures Written(r, env.serviceAccount)
    ensures ReplaceAddresses(u + ("0xFLOWSERVICEADDRESS" + w), env) == Some(u + (r + w))
  {
    r := FillsIn(u, SERVICE_ACCOUNT, env.serviceAccount, w, env, 7);
  }
}
