# Opaq: verified model

Opaq is a UTXO privacy pool. A Solana program holds token vaults, an incremental Merkle tree of note
commitments and an append-only nullifier register; a Solidity pool mirrors it, and an operator mirrors
burns from one chain to the other. This project models that system in Dafny and proves what it promises:
the tree is the full tree, notes are spent once, every vault covers what it owes, nothing is minted twice,
and the byte formats between the parts mean the same on both ends.

`dafny verify dfyconfig.toml` checks everything.

## How it is organised

| file | content |
|---|---|
| `Merkle.dfy` | the zero-padded tree, the frontier-and-ring state, and their agreement, for any hash |
| `HostTree.dfy`, `AccountTree.dfy`, `EvmPool.dfy` | the three implementations of that state, in place |
| `Lockstep.dfy` | the three implementations run side by side |
| `Digests.dfy`, `Circuits.dfy` | field elements, membership, and the five circuits |
| `Registers.dfy`, `Accounts.dfy` | nullifiers and attestations, abstractly and as account bytes |
| `Pool.dfy` | the Solana instructions as transitions, and every run of them |
| `History.dfy`, `Acceptance.dfy` | what each accepted instruction does and what runs add up to; when each is accepted and how it is refused |
| `Encoding.dfy`, `Program.dfy` | what the account bytes stand for, and the program that executes the instructions on those bytes |
| `MintLedger.dfy` | the balance-ledger destination of `burn` |
| `Accounting.dfy`, `Bridge.dfy`, `ChainIds.dfy` | value sums, interleaved runs, conservation and its exact condition |
| `Crossing.dfy`, `Rivals.dfy` | every attested burn can be claimed by its burner, and the one way it cannot |
| `Wallet.dfy`, `Payments.dfy` | witness construction and note discovery; who holds what after a payment |
| `Wire.dfy`, `Attestor.dfy`, `Rlp.dfy` | instruction bytes, provider agreement, RLP |
| `Operator.dfy` | from what the attestor accepts to an operator who mirrors |
| `Bytes.dfy`, `Wrappers.dfy` | fixed-width integers, buffers, results and options |

Modelling decisions:

- Poseidon is a free constructor per arity over field elements (`Digests.Digest`): equal digests have equal
  preimages, and no hash output is a small integer. The tree theory in `Merkle.dfy` does not use this; it
  holds for every hash. `Digests.Eval` interprets terms with any concrete hash, which ties the term-level
  pool to the byte-level trees.
- A proof is its witness. Verification accepts exactly when the circuit relation holds, and anybody may choose
  any witness.
- Amounts are added modulo the BN254 scalar prime, as in the circuits.
- A failed instruction or reverted call leaves the state unchanged. Where the code writes before it fails, the
  handler undoes its writes, as the runtime does.
- The program compares 32-byte words, the abstract pool compares terms. No encoding is injective on all terms, so
  `Program` asks that the hash separates the finitely many digests that the run at hand compares, and nothing more.
- Inserted leaves, accepted burns and mints are kept as history next to the account state.
- Every lemma carries `{:induction false}`: no proof relies on automatic induction.
- `Bridge.HonestRun` asks one thing only: an attestation signed by an operator repeats a tuple that some pool
  has recorded. `Operator` derives it from what the attestor canister checks. Everything about double minting is proved without it.

Results worth knowing:

- Cross-chain conservation needs the EVM chain id to differ from 101, the id that the Solana program gives itself.
  `ChainIds.ConservationExactly` shows that this condition is exact, with a six-step run for the equal case.
- `list-unspent` does not write every note it could. The first memo that decrypts to an amount or a blinding at or
  above the field prime aborts the scan, and the notes behind it are lost to that call. The
  program does not read memos, so one is enough. `Wallet.ListUnspent` says that the scan ends exactly there, `Wallet.AbortLosesNotes`
  and `Wallet.AbortInput` give the two memos.
- A note that keeps its owner and blinding as it crosses keeps its commitment, so its nullifier is the same on both
  pools. Burned again for the pool it has reached, it is recorded but refused in every continuation
  (`Rivals.LostBurn`). `Crossing.EvmClaimExactly` and `Crossing.SolanaClaimExactly` say exactly when a burn can still
  be claimed.
- An inserted empty leaf does not move the root, so `Merkle.RootWindow` speaks of prefixes, and
  `Digests.RootEviction` says exactly when an old root is gone.

## Model

| member | source | states |
|---|---|---|
| Merkle.ClimbSound | crates/common/src/tree.rs:82-96 | the level loop keeps the frontier describing the leaf list, level by level, and carries the node above the new leaf |
| Merkle.RootSplits | crates/common/src/tree.rs:121-134 | the root hashes the root over the first half of the places with the root over the second, left before right; absent leaves are zero |
| Merkle.InsertReflects | crates/common/src/tree.rs:70-102 | after an insert the frontier, the ring, the cursor and the index describe the extended list, and the new root is the full padded tree's |
| Merkle.BuildReflects | crates/common/src/tree.rs:70-102 | incremental equals full for every leaf list the tree has room for |
| Merkle.ReflectsUnique | crates/common/src/tree.rs:16-22 | the leaf list alone determines every stored field |
| Merkle.RootWindow | crates/common/src/tree.rs:97-118 | a root is known exactly when it is non-zero and the root of one of the last 32 prefixes |
| Merkle.PathReachesRoot | crates/common/src/tree.rs:121-174 | a leaf folded along its true siblings reaches the root of the full tree |
| Merkle.DirectionsSpell | crates/common/src/tree.rs:151-170 | the directions of a rebuilt path spell the leaf index |
| Merkle.BuildCommutes | crates/common/src/tree.rs:5-6 | trees whose hashes agree through a change of representation stay images of each other over every leaf list |
| HostTree.ZeroHashes | crates/common/src/tree.rs:31-41 | the table holds the empty-subtree digest of every level |
| HostTree.CommitmentTree.constructor | crates/common/src/tree.rs:52-65 | a new tree describes the empty leaf list |
| HostTree.CommitmentTree.Insert | crates/common/src/tree.rs:70-102 | in-place insert makes the specified transition, or reports a full tree and changes nothing |
| HostTree.CommitmentTree.CurrentRoot | crates/common/src/tree.rs:104-106 | the slot under the cursor is the root of the full tree over all inserted leaves |
| HostTree.CommitmentTree.KnowsRoot | crates/common/src/tree.rs:114-118 | the ring scan answers exactly the root-window question |
| HostTree.MerkleRoot | crates/common/src/lib.rs:39-51 | folding over zipped lists is the path fold of their common length |
| HostTree.ReconstructPath | crates/common/src/tree.rs:136-174 | the rebuilt siblings and directions are the true path in the complete tree, and the returned root is its root, for every leaf list and index |
| AccountTree.TreeInsert | programs/opaq/src/lib.rs:188-214 | the insert on raw bytes makes the same transition as the struct tree, with the same refusal, and leaves the bytes alone when it refuses |
| AccountTree.RecordWrites | programs/opaq/src/lib.rs:207-212 | the ring, cursor and index writes each change their own field only |
| AccountTree.WriteFilled | programs/opaq/src/lib.rs:198-200 | writing one frontier word changes that word and no other field |
| AccountTree.TreeIsKnownRoot | programs/opaq/src/lib.rs:217-220 | the byte scan finds a root exactly when the decoded ring holds it |
| AccountTree.DecodeEncode | programs/opaq/src/lib.rs:163-180 | the zero-copy offsets read back what serialisation wrote |
| AccountTree.RawLayout | programs/opaq/src/lib.rs:163-176 | where each field sits in the 1801 bytes |
| AccountTree.InitializeTree | programs/opaq/src/lib.rs:496-501 | the initialised account decodes to the empty tree |
| EvmPool.OpaqPool.InsertLeaf | evm/src/OpaqPool.sol:123-147 | the contract's insert makes the same transition as the other two trees |
| EvmPool.OpaqPool.KnowsRoot | evm/src/OpaqPool.sol:149-155 | the contract knows a root exactly when its ring holds it |
| Lockstep.InsertEverywhere | programs/opaq/src/lib.rs:186-214 | one leaf into all three trees gives the same index or the same refusal, and equal states |
| Lockstep.Replay | evm/src/OpaqPool.sol:121-147 | any leaf list replayed into all three: leaf by leaf the same index while there is room and three refusals from the first leaf that does not fit, and equal final states that are the full tree's over the leaves that fit |
| Digests.MembershipSound | circuits/withdraw/src/main.nr:32-42 | a path that folds a commitment to the root proves that commitment sits at the index the path spells |
| Digests.KnownRootMembership | programs/opaq/src/lib.rs:661-664 | the same against any root in the ring, however stale |
| Digests.RootEviction | crates/common/src/tree.rs:97-118 | a root survives 31 further inserts, and later exactly while only empty leaves separate it from the window |
| Digests.ToFieldInjective | programs/opaq/src/lib.rs:146-154 | the two-limb encoding gives different mints different tokens |
| Digests.ToFieldLimbs | programs/opaq/src/lib.rs:146-154 | the limbs are the high and the low 128 bits of the key, in that order |
| Digests.ConcreteLockstep | crates/common/src/tree.rs:1-8 | the tree over any concrete hash is the image of the term-level tree |
| Circuits.DepositCircuit | circuits/deposit/src/main.nr:15-27 | accepts exactly 64-bit amounts that open the commitment |
| Circuits.SpendCircuit | circuits/withdraw/src/main.nr:16-50 | accepts exactly membership, ownership, range and the right nullifier |
| Circuits.XburnCircuit | circuits/xburn/src/main.nr:16-63 | accepts exactly a spend whose output note has the same token and amount |
| Circuits.TransferCircuit | circuits/transfer/src/main.nr:26-85 | accepts exactly the join-split relation, and then the integer sums of inputs and outputs are equal |
| Circuits.JoinSplitExact | circuits/transfer/src/main.nr:41-84 | field equality and range checks give integer equality; distinct nullifiers mean distinct notes; a dummy carries nothing |
| Circuits.SpendsInserted | circuits/burn/src/main.nr:31-51 | a spend accepted against a known root consumes a note that was really inserted, with its own nullifier and value |
| Circuits.NullifierBindsValue | circuits/xburn/src/main.nr:34-58 | two accepted cross-chain witnesses for one nullifier carry the same token and amount, whatever roots they name |
| Registers.NullifierSet.TryInsert | crates/common/src/nullifier.rs:26-32 | a fresh nullifier is appended, a repeated one is refused, and the list stays duplicate-free |
| Registers.NullifierSet.Contains | crates/common/src/nullifier.rs:21-23 | the scan is membership |
| Accounts.NullifierAccount.Contains | programs/opaq/src/lib.rs:225-228 | the byte scan is membership in the decoded list |
| Accounts.NullifierAccount.Append | programs/opaq/src/lib.rs:232-263 | growing the account appends one entry and keeps both counters right |
| Accounts.NullifierAccount.Spend | programs/opaq/src/lib.rs:665-669 | check-then-append on bytes refines the abstract set and keeps it duplicate-free |
| Accounts.NullifierAccount.RawLayout | programs/opaq/src/lib.rs:222-228 | where the counters and the entries sit |
| Accounts.PendingAccount.Find | programs/opaq/src/lib.rs:307-311 | returns the offset of the first entry for a nullifier, or none when there is none |
| Accounts.PendingAccount.Append | programs/opaq/src/lib.rs:320-353 | appends one open attestation and changes nothing else |
| Accounts.PendingAccount.SetMinted | programs/opaq/src/lib.rs:985-985 | the flag byte consumes that attestation and touches no other entry |
| Accounts.PendingAccount.RawLayout | programs/opaq/src/lib.rs:293-315 | operator, counter and entries at their fixed offsets: nullifier, expected hash, flag |
| Encoding.InsertImage | programs/opaq/src/lib.rs:188-214 | inserting a word into the byte tree is the image of inserting its term, with the same refusal |
| Encoding.ReflectsImage | programs/opaq/src/lib.rs:157-180 | the words of a tree that describes a leaf list describe the words of that list |
| Encoding.KnownRootImage | programs/opaq/src/lib.rs:217-220 | the root scan on words answers the question on terms, under a hash that separates what is compared |
| Encoding.IndexImage | programs/opaq/src/lib.rs:307-311 | the first matching entry is the same on words and on terms |
| Program.OpaqProgram.KnowsRoot | programs/opaq/src/lib.rs:661-664 | the scan of the tree account decides whether the abstract pool knows the root |
| Program.OpaqProgram.Spend | programs/opaq/src/lib.rs:661-669 | root check, double-spend check and append on account bytes: exact outcome, one more consumed nullifier or nothing |
| Program.OpaqProgram.BothFresh | programs/opaq/src/lib.rs:741-753 | the transfer's two scans and one comparison of words decide that neither nullifier is spent and that they differ |
| Program.OpaqProgram.RecordJoinSplit | programs/opaq/src/lib.rs:754-759 | two appends and two inserts on account bytes, all of them or none |
| Program.OpaqProgram.ConsumeAttestation | programs/opaq/src/lib.rs:968-985 | find, flag and destination checks on entry bytes, then leaf and flag writes, with the refusals in order |
| Program.OpaqProgram.HandleDeposit | programs/opaq/src/lib.rs:515-578 | on account bytes, takes exactly the proof-bound amount from the depositor's wallet into that mint's vault, touches no other wallet or vault, and inserts the commitment, or gives the first failing check and changes nothing |
| Program.OpaqProgram.HandleWithdraw | programs/opaq/src/lib.rs:588-683 | on account bytes, records the nullifier and moves exactly the amount from that mint's vault to the wallet of the bound recipient, touching no other wallet or vault, or changes nothing |
| Program.OpaqProgram.HandleTransfer | programs/opaq/src/lib.rs:699-761 | on account bytes, records both nullifiers and inserts both outputs, in order, or none of them |
| Program.OpaqProgram.HandleBurn | programs/opaq/src/lib.rs:772-829 | on account bytes, records the nullifier and releases nothing |
| Program.OpaqProgram.HandleXburn | programs/opaq/src/lib.rs:1008-1055 | on account bytes, records the nullifier in the same register and inserts nothing |
| Program.OpaqProgram.HandleAddPending | programs/opaq/src/lib.rs:884-917 | on account bytes, only the operator attests, and never twice for one nullifier |
| Program.OpaqProgram.HandleMintFromXburn | programs/opaq/src/lib.rs:929-989 | on account bytes, consumes one open attestation that binds this very tuple and inserts its note, with the checks in order |
| Program.OpaqProgram.Execute | programs/opaq/src/lib.rs:357-375 | every instruction keeps the three accounts the image of the abstract pool and answers as it does |
| Program.OpaqProgram.Replay | programs/opaq/src/lib.rs:357-375 | the same over any run, answer by answer |
| Program.BoundedRunIsRun | programs/opaq/src/lib.rs:232-263 | a run in which the runtime may refuse to grow an account is the pool's run over the instructions that found room |
| Program.RegisterGrows | programs/opaq/src/lib.rs:230-263 | the register of any earlier moment is a prefix of every later one |
| Program.ByteRegister | programs/opaq/src/lib.rs:230-263 | after any run from genesis the register's words are the consumed nullifiers' in order, without a repeat, and extend those of every earlier moment |
| Program.Boot | programs/opaq/src/lib.rs:496-501 | running the handlers from freshly initialised accounts: the nullifier account holds exactly those words, and the tree account is the full tree over the words of the inserted leaves |
| Pool.ApplySound | programs/opaq/src/lib.rs:362-375 | every instruction keeps the tree, the note openings and the nullifier register sound |
| Pool.RegisterIsHistory | programs/opaq/src/lib.rs:230-263 | the register is append-only and lists exactly what accepted instructions consumed |
| Pool.NoDoubleSpend | programs/opaq/src/lib.rs:741-753 | in every run each commitment is consumed at most once over withdraw, transfer, burn and xburn together |
| Pool.MintsOnce | programs/opaq/src/lib.rs:968-985 | in every run, whatever the operator attests, no source nullifier mints twice |
| Pool.MintsWhatWasAttested | programs/opaq/src/lib.rs:968-984 | a mint needs the open attestation of exactly its tuple and inserts exactly its note |
| Pool.ConsumedStaysConsumed | programs/opaq/src/lib.rs:908-912 | after a mint, in every later state, the nullifier can be neither attested nor minted |
| History.DepositDoes | programs/opaq/src/lib.rs:545-578 | an accepted deposit debits the depositor and credits the vault of that mint by the amount, leaves every other wallet and vault alone, and inserts the commitment |
| History.WithdrawDoes | programs/opaq/src/lib.rs:649-683 | an accepted withdraw debits the vault of that mint and credits the bound recipient by the amount, and leaves every other wallet and vault alone |
| History.TransferDoes | programs/opaq/src/lib.rs:750-757 | an accepted transfer appends both nullifiers and both commitments, each in order, and moves no token |
| History.BurnDoes | programs/opaq/src/lib.rs:820-829 | an accepted burn or xburn records exactly what the proof bound, inserts nothing and moves no token |
| History.AttestDoes | programs/opaq/src/lib.rs:904-917 | an accepted attestation comes from the operator, is the first of its nullifier, and adds one open entry for this tuple |
| History.MintDoes | programs/opaq/src/lib.rs:968-989 | an accepted mint inserts its note and sets the flag of one entry, and touches nothing else |
| History.LeavesAreHistory | programs/opaq/src/lib.rs:186-214 | over every run the leaf list is what accepted instructions inserted, in order |
| History.WalletStatement | programs/opaq/src/lib.rs:672-679 | over every run a wallet holds what it held, plus the accepted withdraws made out to it, less its own accepted deposits |
| History.VaultStatement | programs/opaq/src/lib.rs:545-565 | over every run a vault holds what it held, plus accepted deposits of its mint, less accepted withdraws |
| History.Circulation | programs/opaq/src/lib.rs:515-683 | over every run each mint's vault and all wallets together hold a constant sum |
| Acceptance.RootLives | crates/common/src/tree.rs:97-118 | over note leaves a root is known exactly until the 32nd insert after it |
| Acceptance.DepositExactly | programs/opaq/src/lib.rs:515-578 | accepted if and only if the commitment opens, the wallet covers the amount and the tree has room |
| Acceptance.WithdrawExactly | programs/opaq/src/lib.rs:588-683 | accepted if and only if the relation holds, the root is at most 31 inserts old, the nullifier is unspent and the vault covers the amount |
| Acceptance.TransferExactly | programs/opaq/src/lib.rs:699-761 | accepted if and only if the relation holds, the root is recent, both nullifiers are fresh and different, and two slots are free |
| Acceptance.BurnExactly | programs/opaq/src/lib.rs:772-829 | accepted if and only if the relation holds, the root is recent and the nullifier is unspent |
| Acceptance.XburnExactly | programs/opaq/src/lib.rs:1008-1055 | the same for xburn |
| Acceptance.EvmXburnExactly | evm/src/OpaqPool.sol:161-171 | the same for the contract |
| Acceptance.WithdrawFate | programs/opaq/src/lib.rs:661-683 | a withdraw built from k leaves is stale from the 32nd insert on, else already spent, else paid |
| Acceptance.TransferFate | programs/opaq/src/lib.rs:735-757 | the same for a built transfer, with its dummy and the two slots, each refusal by name |
| Acceptance.BurnFate | programs/opaq/src/lib.rs:817-825 | the same for a burn |
| Acceptance.XburnFate | programs/opaq/src/lib.rs:1042-1050 | the same for an xburn |
| Acceptance.EvmXburnFate | evm/src/OpaqPool.sol:165-168 | the same for the contract |
| Acceptance.ReuseRefused | programs/opaq/src/lib.rs:741-753 | after an accepted spend, whatever happens in between, any spend that reuses one of its nullifiers is refused as already spent, or as stale once its root is gone |
| Acceptance.RepeatRefused | programs/opaq/src/lib.rs:665-669 | in particular the same instruction is never accepted twice |
| Acceptance.EvmRefusals | evm/src/OpaqPool.sol:165-167 | the contract's refusals of a stale root and of a repeated nullifier, whatever the proof |
| Acceptance.MintedRefused | programs/opaq/src/lib.rs:904-976 | a minted nullifier is refused as spent to the operator and to a valid proof |
| Acceptance.EvmMintedRefused | evm/src/OpaqPool.sol:178-192 | a minted nullifier is refused as minted by both calls |
| EvmPool.OpaqPool.Xburn | evm/src/OpaqPool.sol:161-171 | the contract call makes the specified transition, with its checks in order |
| EvmPool.OpaqPool.AddPending | evm/src/OpaqPool.sol:178-182 | only the operator attests, never a consumed nullifier |
| EvmPool.OpaqPool.MintFromXburn | evm/src/OpaqPool.sol:187-204 | the contract call makes the specified transition, with its checks in order |
| EvmPool.MintsOnce | evm/src/OpaqPool.sol:187-203 | in every run every leaf comes from its own mint and no nullifier mints twice |
| EvmPool.MintsWhatWasAttested | evm/src/OpaqPool.sol:191-202 | a mint needs the currently attested pair and this chain's id |
| EvmPool.ConsumedStaysConsumed | evm/src/OpaqPool.sol:178-181 | a consumed nullifier never becomes pending again |
| MintLedger.OpaqMint.AddPending | evm/src/OpaqMint.sol:70-78 | only the operator attests, never a consumed nullifier |
| MintLedger.OpaqMint.Mint | evm/src/OpaqMint.sol:82-105 | credits the attested tuple once, to the address in the low 160 bits of the destination and to nobody else, with its checks in order |
| MintLedger.LowBitsName | evm/src/OpaqMint.sol:95-95 | the holder is named by the low 160 bits of the destination word |
| MintLedger.SameHolder | evm/src/OpaqMint.sol:95-95 | two destinations name one holder exactly when they agree modulo 2^160 |
| MintLedger.MintCredits | evm/src/OpaqMint.sol:100-104 | an accepted mint raises exactly the balance of the address it names, by exactly the amount |
| MintLedger.HolderStatement | evm/src/OpaqMint.sol:100-104 | over every run the balance of an address is what accepted mints made out to it |
| MintLedger.ApplySound | evm/src/OpaqMint.sol:82-105 | each nullifier is credited at most once, for exactly the value of the note it opens, and balances are sums of credits |
| MintLedger.CreditsWhatWasAttested | evm/src/OpaqMint.sol:92-103 | a credit needs the currently attested tuple and consumes it |
| MintLedger.ConsumedStaysConsumed | evm/src/OpaqMint.sol:70-78 | a consumed nullifier never becomes pending again |
| MintLedger.HoldersWithinSupply | evm/src/OpaqMint.sol:48-50 | any set of holders together own no more than was credited |
| Accounting.OutstandingSpend | programs/opaq/src/lib.rs:665-669 | a fresh nullifier removes exactly the note it opens from what is owed |
| Bridge.TransferBalances | circuits/transfer/src/main.nr:59-84 | a join-split never raises what is owed, in any token, dummies and duplicate outputs included |
| Bridge.SolanaBalances | programs/opaq/src/lib.rs:515-829 | every Solana instruction except a mint moves the vault and what Solana owes together |
| Bridge.SolanaSolvency | programs/opaq/src/lib.rs:515-829 | in every run without cross-chain mints each vault covers its unspent notes and its burns, whatever is attested |
| Bridge.MintCarriesBurn | evm/src/OpaqPool.sol:187-203 | although the destination ignores the source root, an accepted mint carries exactly the token and amount of a recorded burn |
| Bridge.StepConserves | programs/opaq/src/lib.rs:884-989 | one step of anyone, with operators that mirror, keeps every vault at least its liabilities |
| Bridge.Conservation | programs/opaq/src/lib.rs:884-1055 | in every interleaving of both pools and the ledger, each vault covers unspent notes on both chains, burns in flight and ledger balances |
| Bridge.WithdrawAlwaysFunded | programs/opaq/src/lib.rs:661-679 | while the vault covers the pool's own notes, a withdraw is paid exactly when it passes every other check |
| Bridge.PaidAfterAnyRun | programs/opaq/src/lib.rs:661-679 | after any run without cross-chain mints, whatever was attested, no withdraw lacks funds |
| Bridge.PaidAfterHonestRun | programs/opaq/src/lib.rs:661-679 | after any run of the whole system with mirroring operators, no withdraw lacks funds |
| Crossing.RunSettled | evm/src/OpaqPool.sol:161-203 | in every honest run each pool records a nullifier once, every mint had been recorded and its note is in the tree, and every ledger credit has its burn |
| Crossing.ReachesEvm | evm/src/OpaqPool.sol:187-204 | an unrivalled burn on either pool, once attested, is claimable on the EVM pool with the burner's own witness at every later moment, exactly until it has arrived and while there is room |
| Crossing.ReachesSolana | programs/opaq/src/lib.rs:929-989 | the same towards Solana |
| Crossing.ReachesLedger | evm/src/OpaqMint.sol:82-105 | an attested burn is creditable with the burner's own witness exactly until credited; nothing rivals it, the vault's balance rules out the overflow, and the credit goes to the address in the low 160 bits of the destination and to nobody else |
| Crossing.RivalIsForeign | evm/src/OpaqPool.sol:161-171 | a burn whose nullifier the other pool never spent has no rival |
| Crossing.EvmClaimExactly | evm/src/OpaqPool.sol:178-204 | whatever happened before, attesting a burn makes it claimable exactly when no mint used its nullifier, the chain is right and there is room |
| Crossing.SolanaClaimExactly | programs/opaq/src/lib.rs:884-989 | on Solana exactly when the nullifier has no attestation yet, or an open one for this very tuple |
| Crossing.CreditFits | evm/src/OpaqMint.sol:103-103 | balance plus credit never exceeds the vault, so the checked addition passes |
| Rivals.OneClaimPerNullifier | evm/src/OpaqPool.sol:191-196 | after one mint every burn of the same nullifier is refused in every continuation |
| Rivals.FirstBurnIsServed | evm/src/OpaqPool.sol:187-204 | the crossing theorem at work: a deposit, a burn, an attestation, and the claim is accepted |
| Rivals.LostBurn | evm/src/OpaqPool.sol:161-171 | an honest run whose last burn is recorded for this chain and can never be claimed |
| ChainIds.ConservationExactly | programs/opaq/src/lib.rs:42-46 | conservation holds in every honest run if and only if the EVM chain id is not 101 |
| ChainIds.SharedIdInflates | programs/opaq/src/lib.rs:941-943 | the run that inflates when both pools share one chain id |
| Wallet.BuildWithdraw | crates/prover/src/main.rs:236-301 | builds the withdraw of the whole note to the given recipient from the first occurrence of the commitment and its true path, or reports that it is missing |
| Wallet.BuildTransfer | crates/prover/src/main.rs:488-562 | builds the two-input transfer: the amount to the recipient's owner key, the rest to the change key, a dummy beside the note; or reports the exact error |
| Wallet.WithdrawComplete | crates/prover/src/main.rs:266-301 | an unspent honest note can be withdrawn with a witness up to 31 inserts old |
| Wallet.WithdrawAfterRun | crates/prover/src/main.rs:266-301 | the same end to end over any run in between |
| Wallet.TransferComplete | crates/prover/src/main.rs:505-562 | a transfer the CLI builds is accepted while its note is unspent, its dummy is fresh and two slots are free |
| Wallet.ListUnspent | crates/prover/src/main.rs:118-160 | the scan finishes exactly when every memo that decrypts is hashable; it writes exactly the notes of the memos it got through, and it stops only at a memo the hash refuses |
| Wallet.NotesOfExactly | crates/prover/src/main.rs:130-160 | the notes written are those of the memos that open an unspent commitment of ours, all of them and no other |
| Wallet.AbortLosesNotes | crates/prover/src/main.rs:130-133 | for every unhashable memo before a good one, the scan aborts and the good note is not written |
| Wallet.AbortInput | crates/prover/src/main.rs:130-133 | such memos exist: an amount equal to the field prime |
| Wallet.ListedNotesSpendable | crates/prover/src/main.rs:130-160 | every note of the list, complete or cut short, opens an inserted and unspent commitment with its full amount, and can be withdrawn while the vault covers the notes |
| Wallet.LowBytesSuffice | crates/prover/src/main.rs:146-146 | reading eight bytes of a range-checked amount loses nothing |
| Payments.HolderCashesOut | crates/prover/src/main.rs:236-301 | whoever can open an inserted, unspent commitment can withdraw it, and exactly its amount arrives in the recipient's wallet |
| Payments.WithdrawPays | crates/prover/src/main.rs:266-301 | a built withdraw up to 31 inserts old pays its recipient, and nobody else, exactly the note |
| Payments.TransferSplits | crates/prover/src/main.rs:514-528 | the first output carries the sent amount to the recipient's owner key, the second the rest to the change key |
| Payments.TransferArrives | programs/opaq/src/lib.rs:750-757 | once accepted, both notes are in the tree in order and the spent note's nullifier is recorded |
| Payments.RecipientIsPaid | crates/prover/src/main.rs:599-606 | the holder of the recipient key finds a note of exactly the sent amount by scanning and can cash it out |
| Payments.SenderKeepsChange | crates/prover/src/main.rs:574-582 | the sender can cash out exactly the rest |
| Payments.OutputsCashOut | programs/opaq/src/lib.rs:755-757 | after any accepted transfer each output can be withdrawn by its owner |
| Payments.DepositCashesOut | programs/opaq/src/lib.rs:566-578 | a deposit can be withdrawn by the holder of its owner key |
| Payments.MintedCashesOut | circuits/xburn/src/main.nr:53-63 | a note minted on Solana belongs to the owner whom the burner named, with the burned value |
| Payments.MintedMovesOn | evm/src/OpaqPool.sol:187-204 | a note minted on the EVM pool can be moved on by that owner at once |
| Wire.ParsePrint | programs/opaq/src/lib.rs:357-375 | dispatch on printed bytes selects the right instruction and recovers every field, whatever memo trails a transfer |
| Wire.PrintParse | programs/opaq/src/lib.rs:515-524 | the program accepts nothing but printed instructions |
| Wire.MemoIgnored | programs/opaq/src/lib.rs:690-703 | appending a memo to an accepted transfer changes nothing the program reads |
| Wire.FixedOffsets | programs/opaq/src/lib.rs:357-375 | which tag means which instruction, its length, and the offset of every field |
| Wire.OpaqInstruction | crates/groth16-verify/src/lib.rs:129-167 | what the printer emits for each circuit, the program parses as intended; any other name is refused |
| Wire.EmitPublic | crates/groth16-verify/src/bin/emit_opaq_instruction.rs:36-81 | transfer and both xburn roles print bytes that the program parses back to their public inputs |
| Attestor.GetWithAgreement | canister/opaq-attestor/src/solana.rs:74-97 | returns the first received value that the threshold agrees on, and fails only when there is none |
| Attestor.CountIsMultiplicity | canister/opaq-attestor/src/solana.rs:85-85 | votes are counted with multiplicity |
| Attestor.AgreementIsTruth | canister/opaq-attestor/src/solana.rs:69-97 | with fewer faulty providers than the threshold only the truth can be agreed on, and enough honest replies suffice |
| Attestor.OffsetsAgree | canister/opaq-attestor/src/solana.rs:19-26 | the canister's fixed offsets read what the program's own parser reads |
| Attestor.AttestsExactly | canister/opaq-attestor/src/solana.rs:128-181 | what acceptance rests on, spelled out: the transaction succeeded, and the first instruction to the first key naming the program parses as an xburn of the claimed tuple |
| Attestor.CheckTransaction | canister/opaq-attestor/src/solana.rs:126-183 | accepts exactly successful transactions whose first instruction to the program is an xburn of the claimed tuple, and names a missing, a failed and an unrelated transaction as such |
| Attestor.VerifyXburnTransaction | canister/opaq-attestor/src/solana.rs:112-188 | providers are compared on raw replies; acceptance means that the true transaction succeeded and its first program instruction is an xburn of the claimed tuple, and an attesting transaction that enough providers deliver in the same words is accepted |
| Operator.AcceptedIsRecorded | canister/opaq-attestor/src/solana.rs:112-188 | a claim that the canister accepts, of a transaction that is what the chain executed, has been recorded by the Solana pool |
| Operator.CarefulIsHonest | canister/opaq-attestor/src/solana.rs:105-111 | operators who attest only such claims, or EVM events, make every run honest |
| Operator.CheckedConservation | canister/opaq-attestor/src/solana.rs:105-111 | conservation over every run, resting on what the canister checks |
| Rlp.EncodeBytes | canister/opaq-attestor/src/evm_tx.rs:16-30 | the appended output is the encoding of the string |
| Rlp.EncodeList | canister/opaq-attestor/src/evm_tx.rs:32-45 | wrapping encoded items gives the encoding of the list |
| Rlp.MinimalValue | canister/opaq-attestor/src/evm_tx.rs:47-51 | the minimal big-endian form keeps the value and has no leading zero |
| Rlp.EncodeQuantity | canister/opaq-attestor/src/evm_tx.rs:55-58 | leading zeros are stripped before encoding |
| Rlp.RoundTrip | canister/opaq-attestor/src/evm_tx.rs:14-58 | a strict decoder (Yellow Paper, Appendix B) recovers every encoded item and what follows it |
| Rlp.PrefixFree | canister/opaq-attestor/src/evm_tx.rs:14-58 | no encoding is a proper prefix of another |
| Rlp.StringForm | canister/opaq-attestor/src/evm_tx.rs:16-30 | the three string forms of the Yellow Paper, Appendix B, written out |
| Rlp.ListForm | canister/opaq-attestor/src/evm_tx.rs:32-45 | the two list forms, written out |
| Rlp.DecodedIsEncoded | canister/opaq-attestor/src/evm_tx.rs:14-58 | the strict decoder accepts nothing but encodings |
| Rlp.LegacyTxRlp | canister/opaq-attestor/src/evm_tx.rs:98-122 | the transaction is the encoding of its nine fields |
| Rlp.LegacyOrder | canister/opaq-attestor/src/evm_tx.rs:111-121 | which argument sits at which of the nine positions |
| Rlp.LegacyRoundTrip | canister/opaq-attestor/src/evm_tx.rs:95-122 | a decoder recovers every argument, so signed and unsigned forms share the first six fields and differ only in the signature part |

## Left out

- Groth16 itself: pairing, verifying keys, proof conversion and the ceremony are replaced by the circuit relations on canonical public inputs. That a proof cannot be replayed with other public inputs is therefore not a statement of the model.
- Poseidon and Keccak internals, and the literal zero-hash tables: the tables are taken to be what `zero_hashes` computes; Keccak of a tuple is modelled by the tuple.
- Solana account plumbing: derived addresses, signatures other than the attesting operator's, rent, account creation and the canonical vault check. Kept is their effect: the right accounts are touched and exactly `amount` moves.
- Program.OpaqProgram.Execute: token balances are values that the token program keeps, not account bytes; commitments, roots and nullifiers come in as terms and are compared and stored as the 32-byte words that the hash gives them. A run is related to the pool only for a hash that separates the digests it compares.
- Accounts.NullifierAccount.Append: the account size at which the runtime refuses to grow is a parameter (`limit`), the same for both growing accounts; the rent transfer is not modelled.
- MintLedger.AddressOf: the low 160 bits of a field element that is a hash output are an uninterpreted value of that element.
- Attestor.VerifyXburnTransaction: a raw reply is any value that can be compared, and reading it as a transaction (JSON, hex and base58 decoding) is a parameter; the HTTP outcalls are inputs.
- Operator.CarefulIsHonest: that a finalised transaction is what the chain executed is its premise; burns for the ledger and burns on the EVM pool are attested from the pool's own records, the canister's check is for Solana transactions.
- Rlp.LegacyTxRlp: hashing, threshold signing and recovery-id search are foreign calls.
- Wallet.ListUnspent: memo decryption is an input; a memo that does not decrypt, or has the wrong length, is one without an opening. The mint bytes go through the two-limb encoding and cannot be refused.
- Harvesting leaves over RPC (`tests/read_path.mjs`) recognises leaves from deposits and transfers only; the ordered leaf list is an input of the completeness theorems.
- Key generation, note files and their encryption, command-line parsing and warnings.
- The toy and probe programs (`programs/tamagotchi`, `programs/rplace`, `programs/cu-probe`, the check programs).
