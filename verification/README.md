# Inazuma Core: a verified model of the ledger

Inazuma Core is a proof-of-stake layer-one node. This project models the part of it
that decides what the chain's state is, and proves what the node relies on:

- **Ledger.** Transactions, slashes, liveness, rewards and the shielded pool as functions
  from tables to tables (`Tables`, `Ledger`). For one step: exactly when a transaction is
  accepted (`Acceptance`), what it does to every account, token, contract and storage slot
  (`Effects`, `TokenMoves`, `Calls`), and what the end of a block does (`EndOfBlock`,
  `Validators`). Over every chain that starts at genesis: conservation and bookkeeping
  (`Frames`, `Conservation`, `Issuance`, `Books`, `TokenBooks`, `Liveness`, `WellTyped`), the
  shielded pool and its proofs (`Pool`, `Spends`, `FieldText`, `Nullifiers`), and that only
  double signers are slashed (`Guilt`).
- **Execution in place.** A database whose tables and Merkle nodes are written through a
  nested undo journal (`Journal`, `SparseTree`, `SparseProof`, `MerkleState`, `Store`), what a root
  says of the tables behind it (`LeafText`, `RootBinding`, `RootFacts`), and the
  methods that run transactions and blocks on it (`Staking`, `Slashing`, `Chain`, `Blocks`). Each
  method is proved equal to the ledger function it implements, so the chain theorems are
  theorems about the running node.
- **Restart and snapshot** (`Restarts`, `Snapshot`, `SnapshotRuns`), and where 128-bit products
  are exact (`Widths`).
- **Finality votes** (`Consensus`, `Convergence`, `Watch`, `VoteTracker`).
- **Smaller cores**: mempool, note commitment tree, contract host, signing encodings, leader
  election, base fee (`Mempool`, `NoteTree`, `Host`, `Signing`, `Election`, `Fees`).

Conventions. Strings are byte strings. SHA-256, Poseidon, signature checks, proof checks,
decoders and the contract engine are function-valued parameters about which nothing is
assumed, so soundness results name the two inputs that would have to collide. Amounts are
naturals. Checked and saturating operations and plain u128 products are written out, products
with the wrap-around of a release build; plain sums are naturals, and
`Issuance.AmountsFitIn128Bits` and `Widths.NoProductWrapsOnAnyRun` say when neither can wrap. The
clock, the network and the header acceptance rules are parameters. The tables are one
map of rows keyed by table and key. The source has one journal over all tables; here the rows
and the Merkle nodes each have one, and their frames open and close together. A row named
`SealK` stands for what the Merkle tree holds under its three shielded leaves. Statements about
Merkle roots of tables assume that no two leaves ever written share a 128-bit path
(`MerkleState.NoClash`), which fails only if two of these leaves hash different strings to the same
128 bits (`MerkleState.ClashIsCollision`); nothing else is assumed of the hash. Statements about one transaction
or block may ask for `Books.StakersExact`, `TokenBooks.TokensBalanced` or `WellTyped.Typed`, which
every chain from genesis keeps (`Books.StakersExactOnEveryRun`,
`TokenBooks.TokensBalanceOnEveryRun`, `WellTyped.TypedOnEveryRun`).

## Results that differ from what the code or its documentation says

- A transaction conserves value exactly when its debit does not saturate
  (`Conservation.TxConservesIff`); `Conservation.TotalApplyTx` shows the saturated case needs
  more coins than exist.
- A queued double-vote proof can be reported exactly when both votes spell the public key
  alike (`Consensus.ProofVerifiesIff`); for every two conflicting votes that spell it differently
  some run queues a proof nobody can use (`Consensus.SpellingDefeatsProof`).
- src/shielded.rs:15 promises that a nullifier appears at most once in chain history. What never
  repeats is the string it is spelled with (`Pool.PoolOnEveryRun`), while the proof speaks of the
  decoded element. An accepted spend is accepted again exactly when its nullifiers come in two
  other, different, unburned spellings and the pool still covers the payout
  (`Nullifiers.RespentIff`); a space after each is such a pair
  (`Nullifiers.SpacedSpendIsTakenAgain`). If every burned string is the one its element is written
  with, no element is burned twice (`Nullifiers.NoElementBurnedTwice`), and that can be read off
  the text (`FieldText.ReadThenWriteIff`).
- One header signed in two ways is taken as a proof of two blocks, because the hash covers the
  signature: exactly when both signatures verify and the hashes differ
  (`Guilt.OneHeaderSignedTwiceIff`). src/slashing.rs:6-7 speaks of two different blocks. Two votes that
  convict are always two different messages (`Guilt.GuiltIsTwoMessages`).
- A batch hands out a sender's queue from its lowest nonce exactly when no later nonce pays
  more (`Mempool.StartsAtLowestIff`, with the example `Mempool.LaterNonceAlone`); the comment at
  src/mempool.rs:103-104 promises it always.
- Rebuilding the Merkle tree reproduces the incrementally kept one on every chain except at
  genesis when the pool is active from height zero (`Restarts.RebuildIsWhatWasKept`).
- A failed snapshot import leaves the store wiped exactly when the damaged table decodes or
  nothing but contract code was loaded before it (`Snapshot.Import`, with the file
  `Snapshot.DamagedFileLeavesAnAccount`). The comment at src/snapshot.rs:122-123 promises a wipe on
  any failure.
- A snapshot carries the tables of its filed height exactly when that height is the tip
  (`SnapshotRuns.TablesMatchFiledHeightIff`, with the chain `SnapshotRuns.SnapshotOfTwoBlocks`). The
  comment at src/snapshot.rs:61-62 promises it always.
- A snapshot import restores the exporter's state exactly when the shielded leaves are those of
  the filed height. If they are not, it still passes below the root upgrade, and above it only on
  a collision (`SnapshotRuns.ExportThenImportOnEveryRun`).
- The two-thirds test can be trusted for every validator set of a given total stake exactly
  when twice that total fits in 128 bits (`Consensus.TrustworthyIff`, with the sets
  `Consensus.WrappedMinority`), and it is the two-thirds test exactly when three times that total
  fits (`Consensus.ExactIff`); in between, a unanimous vote fails it (`Consensus.UnanimityFails`).
- One block moves the base fee by at most 12% exactly when it is no fuller than a block may be
  (`Fees.StepIsBoundedIff`); the controller itself does not bound the block size.
- The protocol document gives a minimum fee of 1 rai and a tree of depth 256, and comments speak of
  12.5% fee steps; the code, and this model, use 1000 rai, depth 128 and 12%. The comment at
  src/poseidon.rs:197 speaks of little-endian digits; the code reads and writes the most
  significant first. The protocol document also has the importer open a savepoint per
  transaction; the code does not, and
  `Blocks.ProduceThenImport` shows that it need not.

## Model

| member | source | states |
|---|---|---|
| Issuance.SupplyIsConserved | src/chain.rs:625-935 | On every chain from genesis: supply + pool + burned slashes + leaks = allocation + reward x height, for every mix of transactions, reverted calls, slashes and leaks |
| Issuance.AmountsFitIn128Bits | src/types.rs:247-250 | While issuance stays below 2^128 - 1, no account's holdings can reach it |
| Widths.NoProductWrapsOnAnyRun | src/staking.rs:157-163 | On every chain whose allocation and issuance, times the shared reward, fit in 128 bits, the tables are small wherever the code multiplies |
| Widths.SlashProductsExact | src/slashing.rs:256-275 | In small tables every slash, leak and bounty product is the product of the integers |
| Widths.RewardProductsExact | src/staking.rs:139-163 | In small tables every reward share is exact and three times the active stake fits in 128 bits |
| Widths.ActiveStakeWithinTotal | src/consensus.rs:149-151 | The stake votes are weighed against never exceeds what the tables hold |
| Issuance.DowntimeIdInjective | src/slashing.rs:417-430 | Downtime records of different heights or validators never overwrite each other, so no burn is lost from the sum |
| Issuance.EvidenceIsNotDowntime | src/slashing.rs:105-122 | Equivocation records and downtime records never share an id |
| Issuance.TotalRecordLiveness | src/slashing.rs:345-456 | Charging misses, leaking and jailing move value only into burns and leaks |
| Issuance.TotalPayRewards | src/staking.rs:139-173 | A block issues exactly the block reward, whatever the rounding of the shares |
| Conservation.TxConservesIff | src/chain.rs:654-671 | A transaction takes exactly its fee out of the tables if and only if its debit does not saturate |
| Effects.TxMoves | src/chain.rs:654-838 | For every accepted transfer, bond, unbond, unjail, token, deploy or shielded transaction and every account: the sender loses the cost and one nonce, the named recipient, new contract or unshield target gains exactly the amount, bonds and locked entries move as stated, and nobody else changes |
| Effects.DebitIsCost | src/chain.rs:654-668 | A debit is value plus fee plus creation cost, cut off at 128 bits |
| Effects.ReportMoves | src/slashing.rs:239-303 | An accepted report cuts the proven offender's stake and every unbonding entry by the percentage, tombstones it, pays a tenth to another reporter, files the rest as burned, and changes nobody else |
| Effects.BurnPctIs | src/slashing.rs:198-208 | The burn is three times the offender's whole percentage of all stake, at least five and at most a hundred |
| Effects.CutEntries | src/slashing.rs:256-275 | A cut takes its share of each unbonding entry and keeps its release height |
| Effects.KeptEntries | src/slashing.rs:256-275 | Exactly the entries left at zero are dropped |
| Effects.GenesisFunds | src/chain.rs:385-395 | At genesis every account holds exactly what the allocation gives it |
| Acceptance.PaymentAcceptedIff | src/chain.rs:651-722 | A transfer or bond is accepted if and only if it carries the next nonce and the balance covers it; an unbond also needs the stake |
| Acceptance.UnjailAcceptedIff | src/slashing.rs:307-335 | A validator leaves jail if and only if no fault put it there and its time is up or absence is no longer jailed |
| Acceptance.ReportAcceptedIff | src/slashing.rs:210-303 | A report is accepted if and only if its proof stands, is recent and new, and names an untombstoned validator with stake or unbonding left |
| Acceptance.CreateAcceptedIff | src/tokens.rs:95-214 | A token is made if and only if symbol, name and decimals are in order and its id is new |
| Acceptance.MintAcceptedIff | src/tokens.rs:115-230 | A mint is accepted if and only if the creator of a mintable token mints a positive amount to a valid address within 128 bits |
| Acceptance.TokenTransferAcceptedIff | src/tokens.rs:139-247 | A token transfer is accepted if and only if the sender holds a positive amount of a known token and the valid recipient has room |
| Acceptance.BurnAcceptedIff | src/tokens.rs:160-260 | A burn is accepted if and only if the sender holds a positive amount of a known token |
| Acceptance.DeployAcceptedIff | src/chain.rs:738-749 | A deploy is accepted if and only if its code is valid wasm and its address is free |
| Acceptance.CallAcceptedIff | src/chain.rs:763-827 | A call is accepted, whatever its run comes to, if and only if contract and code are there and the arguments decode |
| Acceptance.ShieldAcceptedIff | src/chain.rs:58-94 | A shield is accepted if and only if it makes one non-zero note from a positive amount the pool has room for |
| Acceptance.SpendTxAcceptedIff | src/chain.rs:58-125 | A private transfer or unshield is accepted if and only if its payload is in shape and the spend itself is acceptable |
| TokenMoves.TxMovesTokens | src/tokens.rs:181-260 | Every token balance and supply moves as the transaction says; only the creator of a mintable token raises its supply; nothing changes a token's terms |
| TokenMoves.SupplyIsItsCreators | src/tokens.rs:115-137 | Over every run of blocks a supply is what it was plus its own creator's mints minus burns, and a fixed supply never grows |
| Calls.CallMoves | src/chain.rs:763-827 | An accepted call runs the stored code on the contract's storage and credited balance; if it ends well, the contract's storage and every balance are those of the in-place run; if not, all storage is as before and only the fee is gone |
| Calls.ExecuteIsInPlace | src/contracts.rs:263-364 | What the engine hands over is exactly the in-place run |
| Calls.OnlyCallsWriteStorage | src/chain.rs:672-838 | No other kind of transaction writes any contract's storage |
| Calls.DeployFiles | src/chain.rs:738-762 | A deploy stores the code under its hash and the contract under its address as its creator's, and no other contract changes |
| Calls.CallFiles | src/chain.rs:789-827 | A call counts itself on the contract's record and its receipt says how it ended; codes and other contracts are untouched |
| Calls.FuelIs | src/contracts.rs:118-123 | A fee buys 400 units of fuel per rai, between a million and two billion |
| EndOfBlock.FinishPays | src/staking.rs:139-207 | At the end of a block each balance grows by exactly its due unbonds, its reward and, for the producer, the fees |
| EndOfBlock.ReleaseMoves | src/staking.rs:184-207 | Every account, listed or not, gets back exactly its due entries |
| EndOfBlock.ReleaseSplits | src/staking.rs:184-207 | Entries due by the height are paid, later ones stay |
| EndOfBlock.LivenessMoves | src/slashing.rs:345-456 | The silent leaders are charged one miss each with its jail, burn or leak, the producer is cleared, and nobody else changes |
| EndOfBlock.RewardsMove | src/staking.rs:139-173 | Each validator gets its rounded share by stake, the leader the commission, the dust and the fees, and nobody else anything |
| EndOfBlock.StoredIsIndexed | src/state.rs:893-904 | A stored block makes its transactions findable at its height, and no others |
| EndOfBlock.BaseFeeOnEveryRun | src/fees.rs:24-39 | On every chain the stored base fee is the controller run over the block sizes |
| Validators.ActiveIff | src/staking.rs:49-60 | An account may seal if and only if it has the minimum stake, was never caught and is not kept out by jail |
| Validators.ValidatorSetIs | src/staking.rs:49-78 | The set lists each electable account once, in address order, with its stake; below the cap that is everybody in good standing |
| Validators.CapKeepsHighest | src/staking.rs:62-78 | Past the cap exactly a hundred stay, each ranked above everybody left out |
| WellTyped.TypedOnEveryRun | src/state.rs:633-746 | On every chain each row holds the kind of value its key calls for, under its own name |
| Guilt.VerifyIff | src/slashing.rs:124-176 | A block proof verifies if and only if it holds two headers signed by the producer's key under their own different hashes at one height; a vote proof if and only if it holds two votes signed by the voter's key |
| Guilt.TombstonedAreGuilty | src/slashing.rs:1-8 | On every chain an account is tombstoned only if a key of it signed two blocks or two votes at one height |
| Guilt.HonestAreNeverSlashed | src/slashing.rs:1-8 | A validator that signs one header and one vote per height is never tombstoned, and no proof against it verifies |
| Guilt.GuiltIsTwoMessages | src/slashing.rs:5-8 | Convicting votes are two different messages; convicting headers too, unless one message was signed in two ways |
| Guilt.OneHeaderSignedTwiceIff | src/types.rs:648-652 | One header signed in two ways convicts if and only if both signatures verify and the hashes differ |
| Guilt.HeaderBytesInjective | src/types.rs:633-646 | A header signature covers every field but hash and signature |
| Guilt.IdNamesOffence | src/slashing.rs:104-122 | Proofs filed under one id are of one kind, validator, height and pair of hashes |
| Conservation.TotalApplyTx | src/chain.rs:625-838 | Below the 128-bit limit every transaction kind takes exactly its fee out of the tables |
| Conservation.TotalApplyReport | src/slashing.rs:239-303 | A slash splits confiscated stake between burn record and bounty, and mints nothing |
| Conservation.TransfersNeverOverspend | src/chain.rs:813-822 | Transfers adding up to at most the balance always commit, self-transfers included |
| Conservation.CallNeverOverspends | src/chain.rs:763-827 | The "contract overspent" error cannot be reached by any contract run |
| Conservation.ScanSupply | src/state.rs:850-859 | One scan of the account table, in any order, gives the supply the conservation law counts |
| Ledger.DistributedBounded | src/staking.rs:153-168 | Rounded-down reward shares never add up to more than the shared pot, so the dust subtraction cannot underflow |
| Books.StakersExactOnEveryRun | src/state.rs:736-746 | On every chain the staker index is exactly the accounts with stake or unbonding entries |
| Books.TotalStakedIsFullScan | src/state.rs:861-881 | Summing over the staker index equals summing over all accounts |
| Books.TombstoneIsForever | src/slashing.rs:239-303 | A tombstoned validator is in no later validator set of any chain |
| Books.NoTransactionRunsTwice | src/chain.rs:651-654 | Over a whole chain each sender's nonces strictly increase, so no signed transaction runs twice |
| TokenBooks.TokensBalanceOnEveryRun | src/state.rs:633-686 | On every chain each token's supply is the sum of its balances and its holder count the number of non-zero balances |
| Liveness.NoMaturedUnbondSurvives | src/staking.rs:184-207 | After a block no account holds an unbond due at its height |
| Liveness.NothingMaturedOnEveryRun | src/staking.rs:184-207 | The same at every point of every chain |
| Liveness.UsedIsLeast | src/slashing.rs:353-367 | The attempt found is the least one that elects the producer, or none does |
| Liveness.MissesAreExact | src/slashing.rs:345-383 | One miss each to exactly the leaders of earlier attempts, and to nobody else |
| Pool.PoolOnEveryRun | src/chain.rs:843-960 | On every chain: leaves are the included commitments in order, no nullifier string repeats, the pool is what went in minus what came out, every anchor is the root of a leaf prefix, and after an active block the current root is an anchor |
| Spends.SpendsAreProven | src/chain.rs:884-935 | On every chain each included spend carries a proof that verifies, under the one key the chain installs, against its anchor, nullifiers, commitments and payout, and its anchor is the root of a prefix of the commitments of earlier blocks |
| Spends.SpendAcceptedIff | src/chain.rs:874-935 | A spend is accepted if and only if its proof verifies, its anchor is sealed, its nullifiers are two different unburned strings, and a payout has a valid recipient and is covered |
| Nullifiers.RespentIff | src/chain.rs:843-935 | An accepted spend, its nullifiers spelled otherwise, is accepted again if and only if the two new strings differ, neither is burned, and the pool covers the payout |
| Nullifiers.SpacedSpendIsTakenAgain | src/state.rs:273-284 | A plainly spelled spend is accepted again with a space after each nullifier |
| Nullifiers.NoElementBurnedTwice | src/shielded.rs:14-16 | On every chain whose burned strings are all canonical, no decoded nullifier is burned twice |
| FieldText.WriteThenRead | src/poseidon.rs:198-211 | An element written as text reads back as itself |
| FieldText.ReadThenWriteIff | src/poseidon.rs:198-211 | A text reads and writes back as itself if and only if it is 64 lower-case digits of a number below the order |
| FieldText.SpacedReadsTheSame | src/poseidon.rs:198-204 | Every text and the text with a space after it read alike |
| Pool.LeavesAppendOnly | src/state.rs:243-266 | A longer chain's leaf list extends a shorter one's |
| Pool.FieldLeavesAlign | src/chain.rs:949-956 | Every stored commitment decodes, so store positions are tree positions |
| Journal.RunRefines | src/journal.rs:43-94 | Over every run the stack of undo maps refines a stack of full copies |
| Journal.RollbackRestoresBegin | src/journal.rs:43-94 | Begin, any well-nested work with inner commits, rollback: tables and outer savepoints are as before |
| Journal.FoldInto | src/journal.rs:53-62 | Folding a finished frame into its parent keeps the older value of every key |
| Journal.SetBack | src/journal.rs:75-94 | Restoring remembered values gives the same table in any order |
| Journal.Journaled.BeginFrame | src/journal.rs:43-45 | Opens a savepoint that must restore the current table |
| Journal.Journaled.Record | src/journal.rs:64-73 | Remembers a key once per frame and disturbs no savepoint |
| Journal.Journaled.Insert | src/state.rs:159-162 | A journaled write keeps every savepoint restorable |
| Journal.Journaled.Remove | src/state.rs:164-167 | A journaled delete keeps every savepoint restorable |
| Journal.Journaled.CommitFrame | src/journal.rs:53-62 | Closes a savepoint and leaves the outer ones restorable |
| Journal.Journaled.RollbackFrame | src/journal.rs:75-94 | Restores exactly the copy taken at the matching begin |
| SparseTree.HistoryOk | src/smt.rs:119-158 | After any sequence of sets and deletes every stored or defaulted node is the from-scratch hash under its prefix |
| SparseTree.RootDependsOnlyOnLiveLeaves | src/smt.rs:143-162 | Histories that leave the same live leaves have the same root |
| SparseTree.DeleteUndoesInsert | src/smt.rs:130-158 | After any history, clearing a key gives the root of the history that never wrote it |
| SparseTree.NodeIdInjective | src/smt.rs:63-72 | A masked prefix names exactly one node |
| SparseTree.Set | src/smt.rs:143-158 | The in-place update along one path, through the journal, is the specified leaf write |
| SparseProof.Proof | src/smt.rs:171-185 | The emitted siblings and bitmap decompress to the true siblings of the path |
| SparseProof.VerifyProof | src/smt.rs:195-243 | The verifier loop accepts exactly what the recursive definition accepts, malformed input included |
| SparseProof.ProofsVerify | src/smt.rs:171-243 | The tree's own proof is accepted with the current value, or with absence |
| SparseProof.ProveThenVerify | src/smt.rs:171-243 | Calling the prover and then the verifier accepts, for every reachable tree, key, and value or absence |
| SparseProof.WrongValueCollides | src/smt.rs:195-243 | Any other accepted value exhibits a collision at a named level or leaf |
| MerkleState.TrackingTreeHasTableRoot | src/state.rs:367-431 | A tree that tracks the rows has the root computed from the tables alone; order, overwrites, deletions and rollbacks leave no trace |
| MerkleState.TableRootDependsOnLeafRows | src/state.rs:395-431 | Rows without a leaf do not reach the root |
| MerkleState.LiveNamesTracked | src/state.rs:395-431 | The reference leaf map holds every live row's hash and nothing else |
| MerkleState.PreimageInjective | src/smt.rs:37-43 | Leaves whose first key part holds no colon hash different strings |
| MerkleState.ClashIsCollision | src/smt.rs:37-49 | If two such leaves share a path, two leaves of the set hash different strings to the same 128 bits |
| RootBinding.RootBindsLeaf | src/state.rs:367-431 | Tables with one root hold the same bytes under a leaf, or a collision at that leaf or at a named node above it is exhibited |
| RootBinding.RootDeterminesLeaves | src/state.rs:395-431 | Without such collisions, two tables have one root if and only if every leaf holds the same bytes |
| LeafText.AccountLeafReads | src/state.rs:367-379 | An account leaf determines balance, nonce, stake, unbonding total and rewards |
| LeafText.TokenLeafReads | src/state.rs:381-387 | A token leaf determines symbol, decimals, supply, creator and mintability |
| LeafText.ContractLeafReads | src/state.rs:389-391 | A contract leaf determines code hash, creator and height of creation |
| RootFacts.OneRootOneLedger | src/state.rs:367-431 | Tables with one Merkle root agree on every balance, nonce, stake, reward, token, token balance, contract and storage slot, or a leaf of theirs shows a collision |
| RootFacts.ChainsWithOneRootAgree | src/state.rs:232-238 | Two chains ending in one state root past the upgrade end in one ledger, or a collision is named |
| RootFacts.DigestDecidesLedger | src/state.rs:232-238 | Before the upgrade the digest is taken of rows that decide the ledger, every note and every nullifier |
| Store.Database.constructor | src/state.rs:68-101 | An empty database is consistent |
| Store.Database.Begin | src/state.rs:125-127 | One savepoint covers tables and tree |
| Store.Database.Commit | src/state.rs:130-132 | Keeps the writes; outer savepoints keep their meaning |
| Store.Database.Abort | src/state.rs:135-138 | Tables, nodes and leaves are exactly those at the matching begin |
| Store.Database.Write | src/state.rs:159-167 | A row write and its leaf updates keep tree and tables consistent, now and at every savepoint |
| Store.Database.SetAccount | src/state.rs:736-746 | Account row, staker index and leaf move together |
| Store.Database.SetTokenBalance | src/state.rs:633-645 | A zero balance removes row and leaf |
| Store.Database.CreditToken | src/state.rs:653-668 | Exactly the specified rows, and an error exactly on balance or supply overflow |
| Store.Database.DebitToken | src/state.rs:671-686 | Exactly the specified rows, and an error exactly when the balance is short |
| Store.Database.SetStorage | src/state.rs:542-554 | Contract storage row and leaf move together |
| Store.Database.AppendLeaf | src/state.rs:248-257 | Appends at the next position |
| Store.Database.BurnNullifier | src/state.rs:273-284 | Burns once; false and no change when already spent |
| Store.Database.PutBlock | src/state.rs:893-915 | Block, transaction index and tip are stored and no leaf is touched |
| Store.Database.StakeAccounts | src/state.rs:870-881 | Lists the staker index in address order |
| Store.Database.Rebuild | src/state.rs:395-420 | Rebuilding in any order gives a consistent tree whose leaves are the live rows |
| Store.Database.RootAt | src/state.rs:232-238 | The root read from the incrementally kept nodes is the root of the tables from scratch; `RootFacts.OneRootOneLedger` says what that root determines |
| Chain.BuildMerkleState | src/state.rs:395-431 | The rebuilt tree tracks the tables, with shielded leaves exactly at active heights |
| Chain.PoolRowsDecideSeal | src/state.rs:358-365 | The shielded leaves are a function of the pool's own rows |
| Staking.ValidatorSet | src/staking.rs:49-78 | Filter, sort, truncate and sort back gives exactly the accounts outranked by fewer than 100 others, in address order |
| Staking.RankIsIndex | src/staking.rs:66-76 | In rank order the accounts that outrank the one at index i number i |
| Staking.PayRewards | src/staking.rs:139-173 | The reward loop, wrapping products included, computes the specified payout |
| Staking.Retain | src/staking.rs:190-200 | Keeps the locked entries and returns the sum of the matured ones |
| Staking.ReleaseUnbonded | src/staking.rs:184-207 | Reading all accounts up front gives the same tables as releasing one after another |
| Slashing.CutUnbonds | src/slashing.rs:256-264 | Cuts every entry with the wrapping product of a release build, drops those cut to nothing, and returns what was taken |
| Slashing.TotalStaked | src/state.rs:861-868 | The loop sums the stake of every indexed account |
| Slashing.ApplyReport | src/slashing.rs:239-303 | The in-place slash is the specified one, wrapping products and error cases included; `Effects.ReportMoves` and `Guilt.VerifyIff` say what it does and to whom |
| Ledger.BurnPctBounded | src/slashing.rs:200-208 | The burn is between 5 and 100 percent, whatever the stakes |
| Slashing.ApplyUnjail | src/slashing.rs:307-338 | Leaves jail exactly when the rules allow |
| Slashing.FindAttempt | src/slashing.rs:353-367 | The search loop finds the least winning attempt |
| Slashing.FindMissed | src/slashing.rs:369-378 | The loop collects the distinct earlier leaders in order |
| Slashing.Charge | src/slashing.rs:380-438 | One miss with its leak or jail, wrapping products included, as specified on either side of the fork |
| Slashing.RecordLiveness | src/slashing.rs:345-456 | The in-place liveness update, wrapping products included, is the specified one |
| Chain.ApplyCreate | src/tokens.rs:181-214 | In-place token creation meets its specification, errors included |
| Chain.ApplyMint | src/tokens.rs:216-230 | In-place mint meets its specification, errors included |
| Chain.ApplyTokenTransfer | src/tokens.rs:232-247 | In-place transfer meets its specification; a self-transfer changes nothing |
| Chain.ApplyBurn | src/tokens.rs:249-259 | In-place burn meets its specification, errors included |
| Chain.ApplyDeploy | src/chain.rs:738-762 | In-place deploy meets its specification, errors included |
| Chain.ApplyCall | src/chain.rs:763-827 | In-place call meets its specification, which `Calls.CallMoves` pins: storage and balances of the in-place run on success, refund on revert |
| Chain.PayTransfers | src/chain.rs:813-822 | The transfer loop fails exactly when the specified sequence does |
| Chain.ApplySpend | src/chain.rs:867-932 | In-place spend meets its specification, every check in order; `Spends.SpendAcceptedIff` says which those are |
| Chain.ApplyShielded | src/chain.rs:843-935 | In-place shielded execution meets its specification |
| Chain.CurrentRoot | src/chain.rs:949-956 | Decoding and level-by-level hashing gives the root of the full note tree |
| Chain.SealShieldedRoot | src/chain.rs:940-960 | In-place sealing meets its specification |
| Chain.ApplyTx | src/chain.rs:625-838 | Executing in place succeeds exactly when the ledger function does, with the same tables and fee; `Effects.TxMoves`, `Effects.ReportMoves` and `Calls.CallMoves` say what those are for every account |
| Chain.FinishBlock | src/chain.rs:1066-1071 | Release, liveness, rewards and seal, in that order |
| Chain.StoreBlock | src/chain.rs:1092-1096 | Stores the block and steps the base fee without touching a leaf |
| Blocks.InitGenesis | src/chain.rs:381-414 | Runs once, rejects bad addresses, and leaves the genesis tables |
| Blocks.IncludeTxs | src/chain.rs:1048-1064 | Savepoint, apply, commit or abort: what stays is what the kept transactions alone produce |
| Blocks.WholeBatchKept | src/chain.rs:1048-1064 | A batch that runs as a whole is kept whole |
| Blocks.DroppedFails | src/chain.rs:1048-1064 | A transaction is left out only if it fails on the tables after those kept before it |
| Blocks.ProduceBlock | src/chain.rs:1048-1097 | The tables equal executing only the included transactions, and the header carries their root |
| Blocks.ImportTxs | src/chain.rs:1200-1206 | Without savepoints, fails exactly when some transaction does |
| Blocks.ImportBlock | src/chain.rs:1113-1131 | A block is taken exactly when it is importable; a rejected one leaves tables, nodes and savepoints as before |
| Blocks.ProduceThenImport | src/chain.rs:1048-1231 | From equal tables, whatever else either node wrote and undid, the importer takes the produced block and both end in the same tables |
| Restarts.RebuildIsWhatWasKept | src/state.rs:395-431 | On every chain a rebuild at the tip changes nothing, if and only if some block was executed or the pool is not active at genesis |
| Snapshot.Export | src/snapshot.rs:63-118 | Succeeds exactly when the block is stored and the checkpoint agrees; carries every state table and the root |
| Snapshot.ResetChain | src/state.rs:1012-1046 | Leaves only code, base fee and the finalized floor, with a consistent empty tree |
| Snapshot.RawRestore | src/state.rs:1098-1111 | Replaces one table and no other row |
| Snapshot.Import | src/snapshot.rs:124-206 | Exactly when import succeeds, what it installs, what each kind of failure leaves behind, and that a failure leaves the store wiped if and only if the damaged table decodes or nothing but contract code was loaded before it |
| Snapshot.LoadedIsWipedIff | src/snapshot.rs:167-179 | Tables loaded into a wiped store are in wiped form if and only if nothing but contract code ends up in them |
| Snapshot.DamagedFileLeavesAnAccount | src/snapshot.rs:168-174 | A file with one readable account before an undecodable table leaves that account behind |
| Snapshot.SameStateSameRoot | src/state.rs:232-238 | The same state has the same root before and after the root upgrade |
| Snapshot.LoadedIsRebuilt | src/snapshot.rs:167-186 | Loading an export gives the state a rebuild of the exporter's tables would give |
| Snapshot.ExportThenImport | src/snapshot.rs:63-206 | With the stored block in order, export then import into any store passes the root check if and only if rebuilding the shielded leaves keeps the exporter's root, and then installs the rebuilt state |
| SnapshotRuns.ExportThenImportOnEveryRun | src/snapshot.rs:63-206 | On every chain from genesis, whatever height is final: the export succeeds; import restores the same state when the shielded leaves are those of the filed height; otherwise it passes below the root upgrade with those leaves added or missing, and above it only on a collision; the restored tip is the exporter's if and only if the filed height is the tip |
| SnapshotRuns.StoredOnEveryRun | src/state.rs:893-922 | On every chain the block stored at each height is the chain's block of that height under its own header hash |
| SnapshotRuns.RebuildAtFiledHeightIff | src/snapshot.rs:63-69 | Rebuilding the exported tables at the filed height changes nothing if and only if no activation lies between it and the tip and a chain active from the start has a block |
| SnapshotRuns.LegacyRootIgnoresSeal | src/state.rs:232-238 | Below the root upgrade the root does not depend on the shielded leaves |
| SnapshotRuns.MerkleRootShowsSeal | src/state.rs:232-238 | From the upgrade on, tables with and without the shielded leaves have one root only on a collision |
| SnapshotRuns.TablesMatchFiledHeightIff | src/snapshot.rs:63-100 | On every chain the exported tables are those of the height they are filed under if and only if that height is the tip |
| SnapshotRuns.SnapshotOfTwoBlocks | src/snapshot.rs:61-69 | Two empty blocks that every node accepting their headers imports, the first final: filed under height one, carrying the tables of height two |
| Consensus.SoundOnEveryRun | src/consensus.rs:84-175 | On every run, under changing validator sets, each counted vote is a signed vote for the stored block and each proof is two signed conflicting votes |
| Consensus.FinalMeansQuorum | src/consensus.rs:148-173 | If twice the stake fits in 128 bits, a height reported final has counted votes above two thirds of stake, all for the stored hash |
| Consensus.ConflictingFinalityIsAccountable | src/consensus.rs:84-175 | If twice the stake fits in 128 bits, two trackers finalizing different hashes share double-signers above a third of stake, each with its pair of votes |
| Consensus.QuorumsOverlap | src/consensus.rs:156-166 | Two quorums share more than a third of the stake |
| Consensus.TrustworthyIff | src/consensus.rs:160-166 | The 128-bit test implies a two-thirds quorum for every set of a given total stake if and only if twice that total fits in 128 bits |
| Consensus.WrappedMinority | src/consensus.rs:160-166 | For every larger total, a set in which a minority passes the test |
| Consensus.ReachedIsQuorum | src/consensus.rs:160-166 | When three times the stake fits, the test and the two-thirds rule agree |
| Consensus.ExactIff | src/consensus.rs:160-166 | The test agrees with the two-thirds rule for every set of a given total stake if and only if three times that total fits in 128 bits |
| Consensus.UnanimityFails | src/consensus.rs:160-166 | When twice the stake fits and three times it does not, even a vote of every validator fails the test |
| Consensus.ProofsNeverNameTheHonest | src/consensus.rs:90-98 | No queued proof names a validator that signs one hash per height |
| Watch.SecondVoteIsCaught | src/consensus.rs:90-98 | On every run, once a vote was counted, the same voter's signed vote for another hash at that height is queued as a proof, until a height 64 above is final |
| Watch.RunRemembers | src/consensus.rs:166-174 | On every run a counted vote stays counted for its hash until a height 64 above is final |
| Watch.BoundedOnEveryRun | src/consensus.rs:227-237 | On every run the proof queue holds at most 65 proofs of different offences and the buffer at most 8192 votes for different slots |
| Consensus.ProofVerifiesIff | src/slashing.rs:144-176 | On every run a queued proof verifies if and only if both votes spell the public key alike |
| Consensus.SpellingDefeatsProof | src/consensus.rs:33-41 | For any two conflicting votes of one voter that spell its key differently, some run queues them as a proof, and the proof does not verify |
| Consensus.ConflictIsQueued | src/consensus.rs:84-98 | Every two conflicting votes of one voter are queued as a proof by some run |
| Convergence.FinalizedIsGreatestDecided | src/consensus.rs:84-265 | While the slots voted ahead of the tip never exceed the buffer and three times the stake fits in 128 bits: whatever the order of deliveries, duplicates and arrivals, the finalized height is the greatest stored height whose delivered votes exceed two thirds |
| Convergence.Converge | src/consensus.rs:84-265 | Under the same conditions, nodes that saw the same votes and blocks in any order agree on finality |
| VoteTracker.Tracker.Push | src/consensus.rs:227-236 | Deduplicates by id and drops the oldest beyond the cap |
| VoteTracker.Tracker.Hold | src/consensus.rs:110-142 | Buffers one vote per validator key and height, within the cap |
| VoteTracker.Tracker.Tally | src/consensus.rs:150-174 | Counts a vote, finalizes when the 128-bit test passes and trims the window |
| VoteTracker.Tracker.Add | src/consensus.rs:84-175 | The in-place step is the specified transition, outcome included |
| VoteTracker.Tracker.ReplayPending | src/consensus.rs:245-265 | Replaying the buffer is the specified transition |
| VoteTracker.Tracker.Arrived | src/consensus.rs:245-265 | Storing the next block and replaying its votes is the arrival step of the runs |
| VoteTracker.Tracker.VotesAbove | src/consensus.rs:199-211 | Serves only counted votes, sorted, none twice, and omits only the newest beyond the limit |
| VoteTracker.OnlyReportsFinal | src/consensus.rs:162-173 | The finalized height moves only up, only when reported, and to what is reported |
| Evidence.EvidenceIsSymmetric | src/slashing.rs:105-176 | Which half comes first changes neither verdict nor id |
| Evidence.VoteBytesInjective | src/consensus.rs:29-51 | A vote signature covers one height and one hash |
| Mempool.SortByFee | src/mempool.rs:109-116 | Orders every entry by fee, then nonce, then arrival |
| Mempool.Select | src/mempool.rs:103-146 | Per sender a run of next nonces from its best-paying entry; at every point of the batch a sender not yet in it is outbid by all entries taken; short of the maximum only when nothing left continues a run |
| Mempool.BatchNoncesAreConsecutive | src/mempool.rs:117-146 | Each sender's chosen nonces are consecutive and increasing |
| Mempool.StartsAtLowestIff | src/mempool.rs:103-137 | A queue is handed out from its lowest nonce if and only if no later nonce pays more |
| Mempool.LaterNonceAlone | src/mempool.rs:103-137 | A pool on which every selection takes nonce 5 alone and leaves nonce 4 |
| Mempool.Pool.Insert | src/mempool.rs:60-71 | Appends and keeps hash set and counters exact |
| Mempool.Pool.PendingFor | src/mempool.rs:56-58 | The counter is the number of queued entries of the sender |
| Mempool.Pool.TakeBatch | src/mempool.rs:103-169 | Loses and duplicates nothing, highest fee first between senders, returns selection order, keeps the indexes exact |
| Mempool.FindTails | src/mempool.rs:83-89 | Finds each sender's highest nonce, last in storage order |
| Mempool.Cheapest | src/mempool.rs:90-93 | The cheapest tail, newest on ties, in whatever order tails are met |
| Mempool.Pool.EvictCheapestBelow | src/mempool.rs:81-101 | Evicts exactly the cheapest tail below the newcomer, and turns every gapless queue into a gapless prefix |
| Mempool.Pool.RemoveHashes | src/mempool.rs:172-189 | Drops exactly the named entries and keeps the indexes exact |
| Mempool.Pool.Clear | src/mempool.rs:191-195 | Empties the pool with exact indexes |
| NoteTree.ZeroSubtreeRoot | src/shielded.rs:83-89 | Root of an all-zero subtree |
| NoteTree.RootFromLeaves | src/shielded.rs:97-117 | Equals the root of the full depth-32 zero-padded tree, for every leaf list |
| NoteTree.MerklePath | src/shielded.rs:120-155 | A path of length 32 holding the true siblings, and an error exactly out of range |
| NoteTree.VerifyPath | src/shielded.rs:158-171 | Accepts exactly when the path climbs to the root |
| NoteTree.PathsVerify | src/shielded.rs:120-171 | The honest path of every position below 2^32 verifies |
| NoteTree.ProveThenVerify | src/shielded.rs:97-171 | Path then verification accepts for every leaf of every list of at most 2^32 leaves |
| NoteTree.WrongLeafCollides | src/shielded.rs:158-171 | A different leaf that verifies exhibits a collision on its path |
| Host.OverlayIsInPlace | src/contracts.rs:325-343 | For any host calls: replies, final storage and payments are those of updating in place, and transfers plus remainder equal the balance |
| Host.ContractHost.ReadStorage | src/contracts.rs:197-204 | Reads through the overlay |
| Host.ContractHost.WriteStorage | src/contracts.rs:473-505 | Writes to the overlay within limits; a trap changes nothing |
| Host.ContractHost.Pay | src/contracts.rs:506-534 | Reserves a payment within the balance; a refusal changes nothing |
| Signing.CanonicalSigningBytes | src/types.rs:511-554 | The appending encoder builds the specified preimage |
| Signing.CanonicalInjective | src/types.rs:511-554 | The v2 preimage is injective on whole transactions with fields under 2^32 bytes |
| Signing.LegacyInjective | src/types.rs:469-509 | The legacy preimage is injective on every field it covers, across its payload shapes, when fields are unambiguous |
| Signing.PreimagesDisjoint | src/types.rs:486-554 | No v2 preimage equals a legacy one |
| Election.ElectLeader | src/staking.rs:113-135 | The cursor loop elects the slice holding the draw and never reaches its fallback |
| Election.ElectionIsProportional | src/staking.rs:113-135 | Exactly `stake` of the `total` draws elect each validator |
| Election.LeaderIsStaked | src/staking.rs:113-135 | Any leader holds stake |
| Fees.RunStaysInBand | src/fees.rs:24-39 | Over any block sequence the fee stays between floor and ceiling |
| Fees.StepIsBoundedIff | src/fees.rs:24-39 | A block moves every fee by at most 12 percent if and only if it is no fuller than a block may be |
| Fees.MonotoneInSize | src/fees.rs:24-39 | A larger block never gives a lower fee |
| Fees.MonotoneInFee | src/fees.rs:24-39 | A higher fee never leads to a lower next fee |
| Fees.RunMonotone | src/fees.rs:24-39 | Both, over whole sequences |
| Fees.OverThenUnderNeverRaises | src/fees.rs:24-39 | k over target then k under never raises the fee |
| Fees.SwingsNeverRaise | src/fees.rs:24-39 | Nor does any sequence of such swings |
| Fees.FullBlocksReachCeiling | src/fees.rs:24-39 | 140 full blocks reach the ceiling from any fee |
| Fees.EmptyBlocksReachFloor | src/fees.rs:24-39 | 120 empty blocks reach the floor from any fee |
| Decimal.DecInjective | src/state.rs:367-379 | Distinct numbers print differently |

## Left out

- Sockets, RPC, logging, the command line, throttles and file guards: no ledger logic.
- Ed25519, SHA-256, Poseidon arithmetic, the order of its field, Groth16 and WASM execution: parameters of the model.
- Transaction admission, halting, the sign guard, timestamps and the leader window: read-only gates, here the `accepts` parameter of `Blocks.ImportBlock`.
- The transaction list root: odd levels repeat the last node, so it is not injective; it is a parameter.
- WellTyped.TypedOnEveryRun: assumes that addresses, code hashes and token symbols hold no bar, because what produces them is a parameter of the model.
- Blocks.ProduceThenImport: states agreement about execution, not that the importer's acceptance rules pass, because the producer does not re-check the fee floor.
- Blocks.InitGenesis: states the resulting tables for an empty store only, because that is where it runs.
- Snapshot.Import: entries are decoded rows; the checkpoint, the pruning mark and the tree version flag in the metadata table are not modelled.
- Store.Database.Write: a storage or balance row is keyed by its two parts; that joining them with a colon could name two pairs alike is excluded by the no-shared-path premise; valid addresses and token ids hold no colon.
- Concurrent access to the store by vote threads, and chain resets during a run: steps are sequential.
- The validator set seen by the vote tracker is a parameter of each step; block hashes are stored contiguously from genesis, so pruned history is not modelled.
- Decimal parsing and formatting of token units, the admission fee floor and reporting queries over tables: they decide no state.
