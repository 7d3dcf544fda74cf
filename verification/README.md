# Flow core contracts: staking ledger, address substitution, asset index

This project models, in Dafny, what the Flow core contracts repository does with tokens, with template
texts and with embedded files, and proves what these parts promise over all inputs and all runs.

**The staking ledger** (`contracts/FlowIDTableStaking.cdc`). Node operators and delegators hold tokens in
five vaults (committed, staked, unstaking, unstaked, rewarded) and have a counter of staked tokens that
they asked to unstake. An administrator closes the auction with a list of approved nodes, pays rewards and
moves tokens once an epoch. `Ledger` is the state, `Steps` says for every transaction when it goes through
and what it leaves behind, and `StakingTable.IDTable` is the contract as a class, with the loops over nodes
and delegators in `NodePasses` and the operations on one holder's vaults in `Vaults`. Each of these methods
is proved against `Steps`, for every order in which a dictionary may yield its keys, and with every UFix64
addition and subtraction checked. Only for moving tokens does that order decide whether the transaction goes
through, so there it is a parameter (`Orders`). `Promises` says in plain amounts what each transaction does,
independently of how `Steps` defines it. The theorems are in `Invariants`, `Runs`, `Epochs`, `Rewards` and
`Moving`, and `Examples` has the concrete tables. They speak about runs: any number of attempted transactions
in any order, where an attempt that aborts changes nothing. Amounts are integers that count units of 10^-8
(`Fixed`).

**Address substitution** (`lib/go/templates/templates.go`, `lib/go/contracts/contracts.go`). A chain of
`ReplaceAll` passes fills placeholders such as `0xFLOWTOKENADDRESS`. `Substitution` is the theory of such
passes for arbitrary orthogonal patterns, `AddressRules` the case of placeholders and hexadecimal addresses,
`Templates` and `Contracts` the two packages with their own constants.

**The asset index** (`lib/go/contracts/internal/assets/assets.go`). `AssetIndex` relates the flat table of
assets to the tree of directories, for any tree that represents any table, and then for the ten embedded
contracts.

**The fee vault** (`contracts/FlowFees.cdc`) is `FeeVault`.

## Where the code differs from what it says

- Removing a node takes only the node's own stake out of its role's total, not its delegators' stake. The
  totals are therefore exact if and only if no removed node had a staked delegator: `Runs.DriftLaw` gives
  the exact excess, `Runs.RemovalKeepsTotals` the condition, `Examples.RemovalCanBreakTotals` an example.
- With such an excess an epoch cannot always be closed. `Moving.EpochCanClose` says exactly when it can in a
  given order of nodes and delegators: the next stakes must fit, and so must every addition on the way, since
  what is committed is added to the totals before requests are taken out. `Moving.EpochAlwaysCloses` says
  exactly when it can in every order, in terms of the worst one. `Examples.MoveCanRunOutOfRoom` is a run of
  eight transactions from deployment after which the next stakes do not fit, `Examples.MoveCanRunOutOnTheWay`
  one of twelve after which they do and the tokens still cannot be moved in any order. Without an excess an
  epoch can be closed with any list and in any order.
- The comment on `unstakeAll` says that it also unstakes the delegators' tokens. The code only touches the
  operator's vaults, and the model follows the code: `Epochs.UnstakeAllSparesDelegators`. If the auction is
  closed next, the delegators follow exactly under the condition of `Epochs.UnstakeAllThenClose`;
  `Examples.DelegatorCanStay` is a table in which one does not.
- Staking "unstaked" tokens after a request to unstake does not always restore the vaults;
  `Epochs.RequestThenRestake` says exactly when it does, `Examples.RestakingCanServeAnotherRequest` is a
  table in which it does not.
- `replaceAddresses` is not always one simultaneous substitution: an address that ends in 0 in front of the
  rest of a placeholder that is replaced later completes that placeholder. `Templates.ReplacementExactly` says
  exactly when it is one, `Templates.TemplateThatDependsOnOrder` gives a template and a family of environments
  for which it is not, and `AddressRules.OrderWorksExactly` is the condition for every other order of passes.
  `AddressRules.EndedPlaceholdersDoNotCross` covers every text whose placeholders end at a character that is
  not a letter or digit, as they do in the repository.
- `RestoreAssets` accepts names with backslashes, but creates the directory of a file by looking for slashes
  only, so a file named with a backslash is written only if its directory exists
  (`AssetIndex.BackslashedNames`); names without backslashes are always written
  (`AssetIndex.OrdinaryNamesAreRestored`).
- The template placeholder of the staking collection is filled with the address of the locked tokens; the
  environment has no address of its own for it.

## Model

| member | source | states |
|---|---|---|
| Runs.InitialInvariant | contracts/FlowIDTableStaking.cdc:1146-1172 | a newly deployed table satisfies the invariant, with exact role totals |
| Runs.InvariantAlways | contracts/FlowIDTableStaking.cdc:397-949 | the invariant holds after every run from any state that satisfies it: requests covered by stakes, metadata distinct and claimed exactly, totals never below the real stake, supply equal to tokens in the table and outside |
| Invariants.InvariantKept | contracts/FlowIDTableStaking.cdc:397-949 | every attempted transaction, successful or aborted, keeps the invariant |
| Invariants.ActEffect | contracts/FlowIDTableStaking.cdc:397-662 | whatever a holder does, its tokens only enter or leave as stated, staked and unstaking do not change, and it never requests more than it has staked |
| Promises.UseGoesThrough | contracts/FlowIDTableStaking.cdc:397-531 | for every holder and action the exact condition in plain amounts: staking and unstaking need an open auction, withdrawing does not |
| Promises.UseChangesCommitment | lib/go/test/flow_idtable_staking_test.go:1560-1584 | committed + staked - requested rises by what is staked, from wherever it is taken, falls by a request, and is 0 after unstaking everything; rewarded falls exactly for staking and withdrawing rewards |
| Promises.UseChangesVaults | contracts/FlowIDTableStaking.cdc:397-531 | which vaults the amount goes through: requests are cancelled before unstaked is used, and served from committed first |
| Promises.UseChangesNothingElse | contracts/FlowIDTableStaking.cdc:397-531 | nobody else's vaults and nothing else but what is outside changes |
| Promises.ScreeningGoesThrough | contracts/FlowIDTableStaking.cdc:692-751 | the auction can be closed exactly if every role that occurs, but access nodes', has a minimum |
| Promises.ScreeningDecides | contracts/FlowIDTableStaking.cdc:692-751 | closing keeps a node's and its delegators' vaults if and only if it is approved with a commitment above 0 for an access node and at least the minimum for others, or was on its way out; otherwise everything committed is refunded and everything staked requested |
| Promises.PayingDecides | contracts/FlowIDTableStaking.cdc:755-822 | for any cut, each delegator of a paid node gets its truncated gross reward less the truncated cut of it, the operator its own gross reward and all those cuts, and nobody else anything |
| Promises.PayingIsMinted | contracts/FlowIDTableStaking.cdc:778-794 | what is paid is minted and comes off the minter's allowance |
| Promises.NothingStakedNothingPaid | contracts/FlowIDTableStaking.cdc:763-767 | with nothing staked paying changes nothing |
| Promises.MovingDecides | contracts/FlowIDTableStaking.cdc:829-901 | a move needs a closed auction and opens the next; for every holder committed becomes staked, requested unstaking, and unstaking unstaked |
| Promises.RegisteringDecides | contracts/FlowIDTableStaking.cdc:149-182 | a node registers exactly with the right lengths and role and metadata nobody else has, and enters with its tokens committed and nothing else |
| Promises.DelegatingDecides | contracts/FlowIDTableStaking.cdc:970-997 | a delegator registers exactly with a node that is no access node and commits its minimum, and gets the next id and empty vaults |
| Promises.RemovingDecides | contracts/FlowIDTableStaking.cdc:193-213 | removal hands over every token, takes the node's own stake out of its role's total, and changes nothing else but the claims |
| Promises.SettingDecides | contracts/FlowIDTableStaking.cdc:904-949 | which settings are accepted, and that each changes nothing else |
| Invariants.Conserves | contracts/FlowIDTableStaking.cdc:193-901 | one transaction changes the tokens of the table by its deposit and minted rewards less its withdrawal and refund |
| Invariants.OutsideFollows | contracts/FlowToken.cdc:60-83 | what leaves the table is held outside, and only rewards change the total supply |
| Runs.RunConserves | lib/go/test/flow_idtable_staking_test.go:755-974 | over any run the tokens in the table change by exactly the run's deposits, minted rewards, withdrawals and refunds, and the supply by the minted rewards |
| Invariants.MoveEffect | contracts/FlowIDTableStaking.cdc:829-901 | moving tokens conserves them and changes what a role has staked by what it had committed and requested |
| Invariants.ScreenEffect | contracts/FlowIDTableStaking.cdc:707-751 | closing the auction keeps every sum that expelling a holder keeps |
| Invariants.PayNodeSplits | contracts/FlowIDTableStaking.cdc:776-820 | operator's and delegators' shares add up to the gross rewards minted for the node, to the last unit |
| Invariants.PayEffect | contracts/FlowIDTableStaking.cdc:755-822 | paying adds exactly the minted rewards to the table and leaves all stakes alone |
| Invariants.RemovalDrift | contracts/FlowIDTableStaking.cdc:193-213 | removing a node lets its role's total exceed the real stake by its delegators' stake |
| Invariants.DriftOnlyByRemoval | contracts/FlowIDTableStaking.cdc:193-893 | no other transaction lets a role's total drift from the real stake |
| Runs.DriftLaw | lib/go/test/flow_idtable_staking_test.go:1686-1745 | over any run a total exceeds the real stake by exactly the delegators' stake of removed nodes |
| Runs.TotalsLaw | contracts/FlowIDTableStaking.cdc:1119-1129 | every role's total and the network total are the real stakes plus that excess |
| Runs.RemovalKeepsTotals | contracts/FlowIDTableStaking.cdc:193-213 | a removal keeps an exact total exact if and only if none of the node's delegators has anything staked |
| Examples.RemovalCanBreakTotals | contracts/FlowIDTableStaking.cdc:193-213 | a concrete table in which a removal leaves a total above the stake of an empty table |
| Invariants.RegisterClaims | contracts/FlowIDTableStaking.cdc:157-182 | registering unclaimed metadata keeps metadata distinct and adds exactly it to the claims |
| Invariants.RemoveClaims | contracts/FlowIDTableStaking.cdc:672-681 | removal takes exactly the node's metadata out of the claims |
| Invariants.ClaimsStayExact | contracts/FlowIDTableStaking.cdc:934-949 | claims equal the live nodes' pairwise distinct metadata after every step, and rebuilding them after an upgrade establishes it |
| Epochs.RemovalFreesMetadata | lib/go/test/flow_idtable_staking_test.go:709-753 | a removed node can register again at once with the same metadata |
| Epochs.MetadataIsTaken | lib/go/test/flow_idtable_staking_test.go:583-633 | nobody can register with the id or any metadata of a node that is in the table |
| Epochs.EndAuctionSettles | contracts/FlowIDTableStaking.cdc:692-751 | when the auction ends every node is approved and above its minimum, or on its way out with all its delegators |
| Epochs.SettledAlways | contracts/FlowIDTableStaking.cdc:692-901 | that stays so whatever happens until the auction or the rules change |
| Epochs.EpochSettlement | lib/go/test/flow_idtable_staking_test.go:1243-1289 | after the following move everybody is staked with their commitment, and only approved nodes whose own stake meets the minimum, and their delegators, have anything staked |
| Epochs.BetweenMoves | lib/go/test/flow_idtable_staking_test.go:1643-1684 | between moves a holder's staked and unstaking vaults do not change and unstaked gains only from committed |
| Epochs.UnstakingDelay | lib/go/test/flow_idtable_staking_test.go:1643-1822 | over any run with at most one move, what was staked is still staked or unstaking, and what a holder took out of unstaked came from elsewhere |
| Epochs.TwoMovesRelease | lib/go/test/flow_idtable_staking_test.go:1800-1822 | what is requested before one move is in unstaked after the next |
| Epochs.FloorStays | contracts/FlowIDTableStaking.cdc:468-474 | one transaction cannot take an operator with delegators below its role's minimum, unless it unstakes everything, is not approved, or the minimums change |
| Epochs.FloorAlways | lib/go/test/flow_idtable_staking_test.go:1530-1558 | the same over whole runs |
| Epochs.UnstakeAllSparesDelegators | contracts/FlowIDTableStaking.cdc:495-510 | unstaking everything leaves the delegators' vaults as they were, so that the node is on its way out if and only if they already were |
| Epochs.UnstakeAllThenClose | contracts/FlowIDTableStaking.cdc:495-751 | after it and closing the auction, the node and its delegators are on their way out if and only if the node is not approved, is an access node or has a positive minimum, or the delegators already were |
| Examples.DelegatorCanStay | contracts/FlowIDTableStaking.cdc:495-510 | a valid table in which the operator unstakes everything and its delegator stays |
| Epochs.RequestThenRestake | lib/go/test/flow_idtable_staking_test.go:1968-1987 | an accepted request can be taken back, which restores the commitment, and restores everything if and only if nothing was requested before, nothing was committed, or nothing asked for |
| Examples.RestakingCanServeAnotherRequest | contracts/FlowIDTableStaking.cdc:412-435 | a valid table in which an accepted request, taken back, leaves the vaults different |
| Rewards.MintsAtMostPayout | contracts/FlowIDTableStaking.cdc:755-822 | paying never mints more than the payout |
| Rewards.MintsAlmostPayout | lib/go/test/flow_idtable_staking_test.go:1291-1356 | when nobody who counts is left out, the shortfall is below one unit per holder plus S/10^8 for a total stake S |
| Moving.MoveNeverUnderflows | contracts/FlowIDTableStaking.cdc:841-893 | in every valid table no withdrawal and no subtraction of a move underflows |
| Moving.MoveEndsExactly | contracts/FlowIDTableStaking.cdc:829-901 | with the auction closed, the totals after a move fit if and only if the next stakes and the excess left by removals fit, in each role and in the network |
| Moving.MoveFitsExactly | contracts/FlowIDTableStaking.cdc:829-901 | tokens can be moved in a given order if and only if that is so and every addition on the way fits |
| Moving.EveryOrderExactly | contracts/FlowIDTableStaking.cdc:834-893 | the additions fit in every order of nodes and delegators if and only if each fits after all other nodes and delegators that let the total rise |
| Moving.MoveAlwaysFitsExactly | contracts/FlowIDTableStaking.cdc:829-901 | tokens can be moved in every order if and only if the next stakes fit and so does that worst order |
| Moving.EpochCanClose | transactions/idTableStaking/admin/end_epoch.cdc:20-29 | an epoch can be closed with a given approved list and order if and only if what the nodes that stay are committed to fits on top of the excess and every addition on the way does |
| Moving.EpochAlwaysCloses | transactions/idTableStaking/admin/end_epoch.cdc:20-29 | it can be closed with the list in every order if and only if the worst order fits too; with exact totals it always can |
| Moving.ExactTotalsLeaveRoom | contracts/FlowIDTableStaking.cdc:829-901 | exact totals leave room for every commitment |
| Moving.RoomForEveryOrder | contracts/FlowIDTableStaking.cdc:834-893 | with room for every commitment a move goes through in whatever order nodes and delegators are visited |
| Examples.MoveCanRunOutOfRoom | contracts/FlowIDTableStaking.cdc:193-213 | eight transactions that go through from deployment lead to a valid table with the auction closed in which tokens cannot be moved in any order |
| Examples.MoveCanRunOutOnTheWay | contracts/FlowIDTableStaking.cdc:838-887 | twelve transactions that go through from deployment lead to a valid table in which the next stakes fit and tokens still cannot be moved in any order |
| Examples.PublishedRewards | lib/go/test/flow_idtable_staking_test.go:1748-1798 | for example, the truncated rewards and cuts of one published epoch are the amounts that the repository's tests expect |
| Rewards.CutsAlwaysFit | contracts/FlowIDTableStaking.cdc:796-802 | a cut of at most 1.0 never exceeds the reward it is taken from |
| Rewards.PayingCanProceed | contracts/FlowIDTableStaking.cdc:755-822 | allowance and room for the payout suffice for paying |
| Vaults.CommitUnstaked | contracts/FlowIDTableStaking.cdc:412-435 | cancels pending requests first and takes the rest from unstaked; refused exactly when both do not suffice |
| Vaults.CommitRewarded | contracts/FlowIDTableStaking.cdc:438-448 | commits rewarded tokens; refused exactly when there are too few |
| Vaults.EnoughToUnstake | contracts/FlowIDTableStaking.cdc:461-466 | decides whether staked and committed tokens cover the request and earlier ones |
| Vaults.TakeRequest | contracts/FlowIDTableStaking.cdc:475-493 | serves a request from committed first and leaves the rest as a request |
| Vaults.TakeEverything | contracts/FlowIDTableStaking.cdc:502-510 | refunds everything committed and requests everything staked |
| Vaults.ReleaseUnstaked | contracts/FlowIDTableStaking.cdc:513-520 | lets out of unstaked what it holds and refuses more |
| Vaults.ReleaseRewarded | contracts/FlowIDTableStaking.cdc:523-530 | lets out of rewarded what it holds and refuses more |
| NodePasses.ExpelOne | contracts/FlowIDTableStaking.cdc:719-746 | the loop over one node's delegators expels it and all of them |
| NodePasses.MoveOneHolder | contracts/FlowIDTableStaking.cdc:840-857 | the three transfers of one holder in their order |
| NodePasses.MoveOne | contracts/FlowIDTableStaking.cdc:834-893 | moves a node and its delegators, in a given order, and its role's total; goes through exactly if the total has room at every addition on the way |
| NodePasses.MoveTable | contracts/FlowIDTableStaking.cdc:834-894 | moves every node in a given order; goes through exactly if the totals have room at every addition on the way |
| NodePasses.PayOneDelegator | contracts/FlowIDTableStaking.cdc:789-812 | mints and splits one delegator's reward; fails exactly if it cannot be minted or the cut exceeds it |
| NodePasses.PayOne | contracts/FlowIDTableStaking.cdc:771-820 | pays one node and its delegators |
| NodePasses.PayTable | contracts/FlowIDTableStaking.cdc:770-821 | pays every node, in any order; fails exactly if a cut exceeds its reward or the rewards cannot all be minted |
| NodePasses.ScreenTable | contracts/FlowIDTableStaking.cdc:707-751 | keeps or expels every node, in any order; aborts exactly if a role has no minimum |
| NodePasses.TotalStaked | contracts/FlowIDTableStaking.cdc:1119-1129 | sums the totals of all roles but access nodes, unless that overflows |
| NodePasses.CollectTokens | contracts/FlowIDTableStaking.cdc:193-211 | hands over every token of a node and its delegators |
| NodePasses.CollectClaims | contracts/FlowIDTableStaking.cdc:936-944 | collects exactly the live nodes' metadata |
| StakingTable.IDTable.constructor | contracts/FlowIDTableStaking.cdc:1146-1172 | the table as deployed |
| StakingTable.IDTable.StakeNewTokens | contracts/FlowIDTableStaking.cdc:397-409 | commits new tokens of an operator or delegator |
| StakingTable.IDTable.StakeUnstakedTokens | contracts/FlowIDTableStaking.cdc:412-435 | commits unstaked tokens after cancelling requests |
| StakingTable.IDTable.StakeRewardedTokens | contracts/FlowIDTableStaking.cdc:438-448 | commits rewarded tokens |
| StakingTable.IDTable.RequestUnstakingOf | contracts/FlowIDTableStaking.cdc:451-493 | requests to unstake, with the floor for operators that have delegators |
| StakingTable.IDTable.UnstakeAllOf | contracts/FlowIDTableStaking.cdc:497-510 | unstakes everything of the operator |
| StakingTable.IDTable.WithdrawUnstakedTokens | contracts/FlowIDTableStaking.cdc:513-520 | withdraws unstaked tokens |
| StakingTable.IDTable.WithdrawRewardedTokens | contracts/FlowIDTableStaking.cdc:523-530 | withdraws rewarded tokens |
| StakingTable.IDTable.AddNodeRecord | contracts/FlowIDTableStaking.cdc:954-966 | registers a node under every condition on its id, role, lengths and unclaimed metadata, and claims it |
| StakingTable.IDTable.RegisterNewDelegator | contracts/FlowIDTableStaking.cdc:970-997 | registers a delegator with a fresh id at a node above its minimum that is not an access node |
| StakingTable.IDTable.RemoveNodeOf | contracts/FlowIDTableStaking.cdc:672-681 | removes and destroys a record |
| StakingTable.IDTable.SetClaimedMetadata | contracts/FlowIDTableStaking.cdc:934-949 | rebuilds the claims once after an upgrade |
| StakingTable.IDTable.StartStakingAuction | contracts/FlowIDTableStaking.cdc:685-688 | opens the auction |
| StakingTable.IDTable.EndStakingAuction | contracts/FlowIDTableStaking.cdc:692-697 | screens all nodes and closes the auction |
| StakingTable.IDTable.RemoveUnapprovedNodes | contracts/FlowIDTableStaking.cdc:707-751 | screens all nodes |
| StakingTable.IDTable.PayEpochRewards | contracts/FlowIDTableStaking.cdc:755-822 | pays the epoch's rewards; nothing changes when nothing is staked |
| StakingTable.IDTable.MoveEpochTokens | contracts/FlowIDTableStaking.cdc:829-901 | moves everybody's tokens in a given order and opens the next auction; goes through exactly if the auction is closed and the totals have room, at every addition on the way and for the network at the end |
| StakingTable.IDTable.SetMinimumStakeRequirements | contracts/FlowIDTableStaking.cdc:904-911 | accepts any five minimums |
| StakingTable.IDTable.SetEpochTokenPayout | contracts/FlowIDTableStaking.cdc:914-918 | sets the payout |
| StakingTable.IDTable.SetCutPercentage | contracts/FlowIDTableStaking.cdc:921-930 | accepts a cut strictly between 0 and 1 |
| Substitution.ParseRender | lib/go/templates/templates.go:50-101 | every text is a template whose holes are exactly its placeholders |
| Substitution.OnePass | lib/go/templates/templates.go:52-56 | one ReplaceAll pass fills exactly the holes of its own placeholder, whatever passes came before |
| Substitution.PassesAreSimultaneous | lib/go/templates/templates.go:50-101 | if insertions create no pattern whose pass is still to come, passes in a given order are one simultaneous substitution |
| Substitution.FilledIsFree | lib/go/templates/templates.go:50-101 | if they create none at all, no pattern is left |
| AddressRules.HexPrefix | lib/go/templates/templates.go:38-48 | every address of two or more characters is written out in full behind 0x, one character is refused, nothing stays nothing |
| AddressRules.AddressIsInserted | lib/go/templates/templates.go:38-48 | an address with or without 0x is inserted as 0x and hexadecimal digits |
| AddressRules.NoCrossingIsSafe | lib/go/templates/templates.go:16-48 | an inserted address creates a placeholder of concern only where its final 0 meets the rest of one |
| AddressRules.AnyOrderIsSimultaneous | lib/go/templates/templates.go:50-101 | without such a crossing the passes are one simultaneous substitution in any order |
| AddressRules.PassCreates | lib/go/templates/templates.go:50-101 | at a crossing a pass creates an occurrence of another placeholder |
| AddressRules.PassesWeight | lib/go/templates/templates.go:50-101 | any passes remove at least the letters of the placeholders that were there |
| AddressRules.SimultaneousWeight | lib/go/templates/templates.go:50-101 | the simultaneous substitution removes exactly those letters |
| AddressRules.OrderWorksExactly | lib/go/templates/templates.go:50-101 | given all addresses, passes in a given order are one simultaneous substitution if and only if no address ending in 0 runs into a placeholder whose pass comes later |
| AddressRules.OrderIsIrrelevantExactly | lib/go/templates/templates.go:50-101 | given all addresses, the order of passes is irrelevant if and only if no address ending in 0 runs into another placeholder |
| AddressRules.ChainIsPasses | lib/go/templates/templates.go:50-101 | a chain of passes panics exactly on a one-character address and is otherwise one pass for each placeholder |
| AddressRules.ChainExactly | lib/go/templates/templates.go:50-101 | given all addresses, a chain is one simultaneous substitution if and only if no address ending in 0 runs into a placeholder further down the chain |
| AddressRules.SimultaneousAround | lib/go/templates/templates.go:50-101 | where one placeholder stands alone, one substitution fills in its address and leaves the rest of the text |
| AddressRules.ChainFillsIn | lib/go/templates/templates.go:50-101 | a chain writes out all of the address of a placeholder that stands alone and leaves the rest, unless the address completes a later one |
| AddressRules.ChainIsFinal | lib/go/templates/templates.go:50-101 | after a chain no placeholder is left, and repeating it changes nothing |
| AddressRules.EndedPlaceholdersDoNotCross | lib/go/templates/templates.go:16-25 | placeholders that end at a character that is not a letter or digit never cross |
| Templates.TemplatePlaceholders | lib/go/templates/templates.go:16-25 | the eight placeholders have the shape of placeholders, and none is the beginning of another |
| Templates.ReplaceAddressesIsChain | lib/go/templates/templates.go:50-101 | replaceAddresses is the chain over the eight placeholders in this order |
| Templates.ReplacementIsSimultaneous | lib/go/templates/templates.go:50-101 | its eight passes, in this or any order, are one simultaneous substitution |
| Templates.ReplacementIsFinal | lib/go/templates/templates.go:50-101 | no placeholder survives it, and it leaves its own result alone |
| Templates.ReplacementExactly | lib/go/templates/templates.go:50-101 | for a fully addressed environment replaceAddresses is one simultaneous substitution if and only if no address ending in 0 runs into a placeholder that is replaced later |
| Templates.TemplateOrderExactly | lib/go/templates/templates.go:50-101 | for a fully addressed environment every order of the eight passes is one if and only if no address runs into another placeholder |
| Templates.TemplateThatDependsOnOrder | lib/go/templates/templates.go:50-101 | a template and a family of environments for which replaceAddresses is no simultaneous substitution |
| Templates.FillsFungibleToken | lib/go/templates/templates.go:50-101 | the fungible token address is written out for its placeholder, and the text around it stays |
| Templates.FillsFlowToken | lib/go/templates/templates.go:50-101 | the flow token address is written out for its placeholder, and the text around it stays |
| Templates.FillsIDTable | lib/go/templates/templates.go:50-101 | the identity table address is written out for its placeholder, and the text around it stays |
| Templates.FillsLockedTokens | lib/go/templates/templates.go:50-101 | the locked tokens address is written out for its placeholder, and the text around it stays |
| Templates.FillsStakingProxy | lib/go/templates/templates.go:50-101 | the staking proxy address is written out for its placeholder, and the text around it stays |
| Templates.FillsStorageFees | lib/go/templates/templates.go:50-101 | the storage fees address is written out for its placeholder, and the text around it stays |
| Templates.FillsStakingCollection | lib/go/templates/templates.go:50-101 | the locked tokens (for the staking collection) address is written out for its placeholder, and the text around it stays |
| Templates.FillsServiceAccount | lib/go/templates/templates.go:50-101 | the service account address is written out for its placeholder, and the text around it stays |
| Contracts.ContractPlaceholders | lib/go/contracts/contracts.go:42-51 | the six placeholders of the staking collection have that shape and are prefix-free |
| Contracts.CollectionIsSimultaneous | lib/go/contracts/contracts.go:193-211 | its six passes, in any order, are one simultaneous substitution after which no placeholder is left |
| Contracts.CollectionExactly | lib/go/contracts/contracts.go:193-211 | with all six addresses the function is one simultaneous substitution if and only if no address ending in 0 runs into a placeholder that is replaced later |
| Contracts.FillsFungibleToken | lib/go/contracts/contracts.go:193-211 | the fungible token address is written out for its placeholder, and the text around it stays |
| Contracts.FillsFlowToken | lib/go/contracts/contracts.go:193-211 | the flow token address is written out for its placeholder, and the text around it stays |
| Contracts.FillsIDTable | lib/go/contracts/contracts.go:193-211 | the id table address is written out for its placeholder, and the text around it stays |
| Contracts.FillsStakingProxy | lib/go/contracts/contracts.go:193-211 | the staking proxy address is written out for its placeholder, and the text around it stays |
| Contracts.FillsLockedTokens | lib/go/contracts/contracts.go:193-211 | the locked tokens address is written out for its placeholder, and the text around it stays |
| Contracts.FillsStorageFees | lib/go/contracts/contracts.go:193-211 | the storage fees address is written out for its placeholder, and the text around it stays |
| Contracts.OpensUp | lib/go/contracts/contracts.go:231 | an access(self) that stands alone becomes pub, and the text around it stays |
| Contracts.NothingPrivate | lib/go/contracts/contracts.go:231 | making everything public leaves no access(self) in any text |
| Contracts.TestContractIsPublic | lib/go/contracts/contracts.go:214-234 | the test contract never contains access(self), whatever the text and the addresses |
| Contracts.VisibilityCommutes | lib/go/contracts/contracts.go:214-234 | making everything public commutes with filling in the six addresses |
| AssetIndex.CanonicalIs | lib/go/contracts/internal/assets/assets.go:405 | a canonical name is the name with slashes for backslashes, character by character |
| AssetIndex.SplitJoin | lib/go/contracts/internal/assets/assets.go:405 | splitting a name undoes joining its segments |
| AssetIndex.AssetDir | lib/go/contracts/internal/assets/assets.go:401-421 | succeeds exactly on a directory of the tree and lists its children without duplicates |
| AssetIndex.DirectoryMeaning | lib/go/contracts/internal/assets/assets.go:389-421 | in terms of the table: exactly the root and the proper directory prefixes of names are directories |
| AssetIndex.EntriesMeaning | lib/go/contracts/internal/assets/assets.go:389-421 | what is listed is exactly the next segments of the names below |
| AssetIndex.NoDirectoryIsAnAsset | lib/go/contracts/internal/assets/assets.go:395-400 | listing an asset's own name fails |
| AssetIndex.Disk.RestoreAsset | lib/go/contracts/internal/assets/assets.go:444-462 | creates the directories that filepath.Dir finds and writes one asset to its path; fails exactly for an unknown name or when the file's directory is still missing |
| AssetIndex.Disk.RestoreAssets | lib/go/contracts/internal/assets/assets.go:465-479 | terminates and, for any name, writes exactly the assets at or below it, each once; fails exactly for a name that stands for nothing or a file whose directory is missing; the directories made are exactly those the files lie in |
| AssetIndex.WithParentsAre | lib/go/contracts/internal/assets/assets.go:453 | making a directory makes exactly all directories on the way to it |
| AssetIndex.OrdinaryNamesAreRestored | lib/go/contracts/internal/assets/assets.go:444-479 | a name without backslashes is restored exactly if it stands for something, whatever directories exist |
| AssetIndex.BackslashedNames | lib/go/contracts/internal/assets/assets.go:453-457 | a file of a directory, named with a backslash, is written only if that directory exists already |
| AssetIndex.RestoredFilesAreAssets | lib/go/contracts/internal/assets/assets.go:465-484 | from the root every asset is restored, distinct assets to distinct paths, with the bytes that Asset gives |
| AssetIndex.TwoLevelsRepresent | lib/go/contracts/internal/assets/assets.go:423-441 | a tree with one directory represents the table that lists its assets |
| AssetIndex.EmbeddedContracts | lib/go/contracts/internal/assets/assets.go:372-441 | the embedded tree of the ten contracts represents their table |
| FeeVault.BalanceAfter | contracts/FlowFees.cdc:15-30 | one more event changes the balance by its amount and keeps a log covered exactly if the balance stays in range |
| FeeVault.BalanceIsDifference | contracts/FlowFees.cdc:15-30 | for every log the balance is the sum of the deposits less the sum of the withdrawals |
| FeeVault.NeverOverdrawn | contracts/FlowFees.cdc:15-30 | at any time in a covered log no more was withdrawn than deposited |
| FeeVault.FlowFees.Deposit | contracts/FlowFees.cdc:15-20 | adds the amount to the vault and logs it; aborts exactly on overflow |
| FeeVault.FlowFees.Withdraw | contracts/FlowFees.cdc:26-30 | takes the amount from the vault and logs it; aborts exactly when the vault holds too little, so every prefix of the log has a non-negative balance |

## Left out

- Records as objects: Cadence resources are linear, so records and vaults have no second reference; they are values in the table's map fields, and what Dafny objects would add (aliasing, identity) is not modelled.
- Between removeNode and the destruction of the returned record somebody could hold it; the model removes and destroys in one step, as the removal transaction does.
- Events of the staking contract and of FlowToken vaults; the read-only info structs, the proposed and staked node lists and the getters.
- The minter is taken to be in storage; without it paying rewards aborts even when nothing is staked.
- The older contract that is upgraded from: it appears only as a valid table without recorded claims.
- Capabilities, accounts, signatures and the storage of staker and delegator objects; whoever calls is taken to hold the object.
- FlowFees.init, FlowStorageFees, FlowServiceAccount, LockedTokens, StakingProxy and FlowStakingCollection.
- Decompression, digests, modification times, permissions and file system errors other than a missing directory.
- AssetIndex.Disk.RestoreAssets: filepath.Join and filepath.Dir are modelled with slashes as separators, on the clean names on which they are called; a destination directory is given as its segments.
- Package functions of contracts.go other than the staking collection's two, and the script getters of the templates package, which are the same chains over fewer placeholders.
- The manifest generator, whose list is fixed and whose hashes are opaque.
