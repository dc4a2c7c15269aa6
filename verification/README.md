# A verified model of the pacd node core

`pacd` is a proof-of-work node over an unspent-output ledger. This project models, in Dafny, the parts of it
that decide which blocks and transactions count: the codec, the difficulty and subsidy arithmetic, the chain
with its ledger, the store file, the block half of the peer-to-peer node, and the three places that must
agree with the validator (miner, mempool, address scan). It proves what those parts promise, over all inputs
and over every run of the state machine.

## How it is built

Code that changes state is a class or a loop here as well, proved against a function that says what it
computes; the properties are then lemmas about those functions.

| layer | modules | what it holds |
|---|---|---|
| ground | `Ints`, `Arith`, `Radix`, `Lists`, `WireTypes`, `ChainCfg`, `BlockTime` | fixed-width integers with their wrap-around, positional notation, blocks and transactions, network parameters, timestamp rules |
| codecs | `WireCodec`, `WireRoundTrip`, `WireCanonical`, `WireIO`, `Merkle`, `Base58` | byte formats as functions, round trips in both directions, the writing and reading methods, the merkle root, base58 |
| arithmetic | `Compact`, `Asert`, `Subsidy` | compact targets, ASERT retargeting, the subsidy schedule and the supply |
| ledger | `Ledger`, `ChainFacts`, `Conservation`, `Trace`, `Runs`, `Blockchain` | the rules rule by rule, what every chain keeps, conservation, no double spend, reorganization, the `Chain` class |
| disk | `StoreFormat`, `TornWrites`, `BlockStore` | the store file byte by byte, what every torn write leads to, `Load`, `Append`, `Replace`, `Repair` |
| node | `HeaderSync`, `ParentIndex`, `BlockPools`, `Node`, `RepeatedTransaction` | header-first checks, orphans, side branches, `connectBlock`, blocks that share a header |
| producers and indexes | `Miner`, `Mempool`, `AddressIndex` | block templates, joint validity of waiting transactions, the address scan |

What is assumed, and where:

- `Params.WellFormed` collects what the node relies on about its network parameters: a shrinking subsidy whose
  products fit 64 bits, a genesis block at height 0 that pays nothing, a positive 256-bit limit.
  `ChainCfg.SharedConstantsAreWellFormed` shows that the constants of the networks satisfy it.
- BLAKE-256, SHA-256 and signature checks are function values in `Crypto` about which nothing is assumed.
  No function into 32 bytes is free of collisions, so nothing here assumes that one is. A property that
  collisions would break names the finitely many values among which there must be none: the headers that a node
  has ever had on its chain or beside it (`BlockPools.NoCollisions` over `Node.P2PNode.known`), or the pairs and
  identifiers hashed for two given lists (`Merkle.LevelsDoNotCollide`, `RepeatedTransaction.NothingCollides`).
  `WireRoundTrip.SharedHeaderHash` and its two companions show what each collision amounts to: two different
  byte strings with one digest.
- The clock is a parameter `now` in nanoseconds, fixed within one step. Heights need no assumption: timestamps
  strictly increase and must fit 32 bits, so heights cannot wrap (`ChainFacts.HeightsArePositions`).
- Every write to disk may fail, at any byte. JSON enters as a codec with the properties in
  `StoreFormat.Faithful` and `TornWrites.OneRecordPerLine`. `TornWrites.CodecExists` shows that they are consistent,
  and that a reader may meet them which passes over white space around a record, line feeds included, as
  `json.Unmarshal` does.

## Where the code falls short of a tidy claim

Each time the code is kept as it is, an input shows the failure, and a condition says exactly when it does
not occur.

- Value is conserved only up to re-created outpoints, because nothing ties a coinbase to its height.
  `Conservation.ValueIsConserved` gives the bound and the exact condition for equality, which distinct
  transactions meet (`Trace.DistinctMeansNeverRecreated`). `Conservation.RepeatedCoinbaseIsAccepted` shows a
  block that meets every rule and whose whole subsidy is lost.
- The timestamp check is not monotone in the clock (`BlockTime.TimestampRuleNotMonotone`), and sometimes no
  timestamp passes it; `BlockTime.SomeTimestampPasses` says exactly when. A block accepted once may be refused
  later (`ChainFacts.AcceptedAgainExactlyWhenNotTooFar`). A reorganization judges kept blocks again by the
  present clock: on every chain some clock reading stops every switch that keeps a given block
  (`Runs.KeptBlockStopsTheSwitch`), and `Runs.SwitchesExactlyWhen` says when one is made.
- ASERT shifts right by 16 before it applies the power of two, unlike the aserti3-2d specification ("Target
  computation"). `Asert.AgainstSingleShift` gives the exact difference, `Asert.DiffersFromSingleShift` a
  target that differs, and `Asert.AgreesWithSingleShiftExactlyWhen` the condition for agreement, which the
  anchors of all networks meet (`Asert.AgreesForLargeAnchors`).
- `readVarInt` takes non-minimal encodings (`WireRoundTrip.NonMinimalVarIntAccepted`), so encoding what was
  decoded need not give the same bytes; it does exactly when every integer is in its shortest form
  (`WireCanonical.TxCanonical`, `WireCanonical.BlockCanonical`).
- An append goes on wherever the file ends. A torn append that lost only its newline is not repaired, and
  takes the next record with it; after any other tear the next record loads
  (`TornWrites.AppendAfterRepairedTear`). Without a repair, it loads exactly if nothing of the torn record was
  written (`TornWrites.AppendOntoTear`).
- After a reorganization the disconnected transactions are offered to the mempool before its stale entries are
  dropped, so a pool that went stale gets none of them back (`Mempool.StalePoolGetsNothingBack`).
  `Mempool.NewSurvivesExactlyWhen` says when all of them stay, and `Mempool.EverythingComesBackExactlyWhen` when
  nothing at all is lost.
- The merkle root does not fix a transaction list. Whatever has no neighbour stands twice, on every level, and
  lists that fill the same full tree have the same root; without collisions no others of that height do
  (`Merkle.RootCommitsToFullTree`). A longer list that fills the tree of a given one exists exactly when the
  number of its transactions is not a power of two (`RepeatedTransaction.TwinExistsExactlyWhen`). A block with the
  longer list has the header and the hash of the other one, and passes the checks for orphans and side blocks
  exactly when the other does. It never gets into a chain (`RepeatedTransaction.TwinNeverConnects`) as long as some
  transaction of the repeated tail spends no output of that tail, which is so unless identifiers name one another
  in a circle (`RepeatedTransaction.NoCircleMeansAFirst`). Then, and if nothing hashed for them collides, at most
  one of the blocks with a given header ever connects (`RepeatedTransaction.HeaderFixesTheBlock`).
- Orphans are released by extensions only. A block that is kept beside the chain, or switched to, leaves those
  that wait for it in the cache, although their parent is now known; `Node.ParentsUnknownExactlyWhen` says that
  this is the one way in which it happens.

## Model

| member | source | states |
|---|---|---|
| WireRoundTrip.TxRoundTrip | internal/wire/tx.go:62-145 | deserializing a serialized transaction gives that transaction back, for any inputs, outputs and scripts across all four integer widths |
| WireRoundTrip.HeaderRoundTrip | internal/wire/block.go:41-191 | every header whose time fits 32 bits comes back from its 180 bytes, field by field |
| WireRoundTrip.BlockRoundTrip | internal/wire/block.go:112-179 | DeserializeBlock undoes Serialize and consumes every byte, for any nesting of transactions |
| WireRoundTrip.BlockBytesInjective | internal/wire/block.go:112-128 | two blocks serialize alike exactly when they are equal |
| WireRoundTrip.NonMinimalVarIntAccepted | internal/wire/tx.go:199-226 | the reader also takes a longer form of a small integer |
| WireCanonical.VarIntCanonical | internal/wire/tx.go:168-226 | what readVarInt takes is what writeVarInt writes exactly when it is the shortest of the four forms |
| WireCanonical.VarBytesCanonical | internal/wire/tx.go:163-197 | a byte string that was read is written back alike exactly when its length is in shortest form |
| WireCanonical.TxCanonical | internal/wire/tx.go:62-145 | bytes that decode to a transaction are its encoding exactly when both counts and every script length are in shortest form |
| WireCanonical.HeaderCanonical | internal/wire/block.go:41-252 | any 180 bytes come back from the header that they decode to |
| WireCanonical.BlockCanonical | internal/wire/block.go:112-179 | bytes that decode to a block are its encoding exactly when every integer in them is in shortest form |
| WireRoundTrip.SharedHeaderHash | internal/wire/block.go:96-102 | two headers share a hash exactly when they are equal or their two different encodings collide under the digest |
| WireRoundTrip.SharedTxHash | internal/wire/tx.go:147-161 | the same for transactions of any shape and their identifiers |
| WireRoundTrip.SharedPairHash | internal/wire/block.go:275-289 | the same for the pairs of a merkle tree |
| WireRoundTrip.VarIntThenRest | internal/wire/tx.go:168-226 | an encoded integer of any width is read back and leaves the rest of the input untouched |
| WireRoundTrip.VarBytesThenRest | internal/wire/tx.go:163-197 | a length-prefixed byte string is read back and leaves the rest of the input untouched |
| WireIO.WriteVarInt | internal/wire/tx.go:168-182 | the four-way writer produces the format's bytes |
| WireIO.SerializeTx | internal/wire/tx.go:62-89 | the writing loops produce exactly the transaction format |
| WireIO.SerializeHeader | internal/wire/block.go:41-94 | a header serializes exactly when its time fits 32 bits, and then to its 180 bytes |
| WireIO.SerializeBlock | internal/wire/block.go:112-128 | the writing loop produces exactly the block format, or nothing when the header does not serialize |
| WireIO.Reader.ReadVarInt | internal/wire/tx.go:199-226 | the stateful reader returns what the format says and advances past it, or fails |
| WireIO.Reader.ReadVarBytes | internal/wire/tx.go:184-197 | a byte string is read only if all of it is there |
| WireIO.Reader.ReadTxIns | internal/wire/tx.go:104-121 | the counted loop reads exactly the announced inputs |
| WireIO.Reader.ReadTxOuts | internal/wire/tx.go:122-136 | the counted loop reads exactly the announced outputs |
| WireIO.Reader.ReadHeader | internal/wire/block.go:193-252 | the sequential field reads give the header that stands at the reader's position |
| WireIO.DeserializeTx | internal/wire/tx.go:91-145 | the reader accepts exactly what the format parses, trailing bytes excluded, for announced counts that can be allocated |
| WireIO.DeserializeBlockHeader | internal/wire/block.go:181-191 | the same for headers |
| WireIO.DeserializeBlock | internal/wire/block.go:150-179 | the same for blocks with their nested transactions, again for counts that can be allocated |
| Merkle.CalcMerkleRoot | internal/wire/block.go:262-292 | the loop that replaces a layer by the next ends at the root of the list |
| Merkle.HashPairs | internal/wire/block.go:275-289 | one pass pairs neighbours, a last one without a neighbour with itself |
| Merkle.RootCommitsToFullTree | internal/wire/block.go:262-292 | two lists that need equally many passes have the same root exactly when their identifiers fill the same full tree, unless pairs hashed for them on one level collide; that the same full tree gives the same root needs no condition |
| Merkle.RootCommitsToTransactions | internal/wire/block.go:262-292 | among lists of one length, then, equal roots mean the same transaction hashes in the same order |
| Merkle.HigherTreeWithSameRoot | internal/wire/block.go:262-292 | lists that need different numbers of passes share a root only if pairs collide or the first identifier of the lower tree is itself the hash of a pair in the higher one |
| Merkle.WidthIsPower | internal/wire/block.go:274-289 | the full tree over a list is as wide as the least power of two that is not below the length |
| Merkle.LongerExistsExactlyWhen | internal/wire/block.go:275-289 | a longer list that fills the same full tree exists exactly when the length is not a power of two |
| Merkle.RepeatedLastTransaction | internal/wire/block.go:276-281 | the smallest such case: repeating the last of an odd number of transactions keeps the root |
| RepeatedTransaction.TwinExistsExactlyWhen | internal/wire/block.go:262-292 | a block has a longer twin, one with its header and more transactions that fill the same full tree, exactly when the number of its transactions is not a power of two |
| RepeatedTransaction.OnlyTwinsShareAHeader | internal/wire/block.go:262-292 | of two blocks with one header and trees of one height, where nothing collides, both match the root exactly when they are equal or one is the longer twin of the other |
| RepeatedTransaction.CandidateChecksDoNotSeeIt | internal/p2p/node.go:1653-1731 | the checks for orphans and for side blocks decide alike for a block and for each longer twin of it |
| RepeatedTransaction.BlockWithRepetition | internal/blockchain/chain.go:192-351 | a block that holds a transaction twice connects to no ledger when the transactions from the first up to the second create none of its inputs |
| RepeatedTransaction.NoCircleMeansAFirst | internal/wire/tx.go:147-161 | as long as transactions do not name one another's identifiers in a circle, some transaction of the repeated tail spends no output of that tail |
| RepeatedTransaction.TwinNeverConnects | internal/blockchain/chain.go:292-351 | a longer twin connects to no ledger, whatever part of it is repeated, as soon as some transaction of the repeated tail spends no output of that tail |
| RepeatedTransaction.HeaderFixesTheBlock | internal/blockchain/chain.go:192-351 | of two blocks with one header whose transactions match its root, only one ever connects, to whatever ledgers, provided that nothing hashed for the two lists collides and that each list's repeated tail, if it can have one, holds a transaction that spends no output of that tail |
| RepeatedTransaction.BranchWithTwinIsRefused | internal/blockchain/chain.go:135-190 | no chain switches to a branch that holds such a twin |
| RepeatedTransaction.CachedTwinStays | internal/p2p/node.go:1535-1586 | the side pool keeps the first block that it got under a hash; if that is such a twin it stays, whatever is offered, and no branch through it is switched to |
| Base58.ConvertBack | internal/address/base58.go:44-80 | changing base there and back gives the digits one started from, leading zeros included |
| Base58.DecodeUndoesEncode | internal/address/base58.go:44-80 | every byte string comes back from its base58 form, whatever zero bytes it starts with |
| Base58.EncodeUndoesDecode | internal/address/base58.go:44-80 | a string decodes exactly when all its letters are in the alphabet, and then encodes back to itself |
| Base58.CheckedRoundTrip | internal/address/base58.go:16-42 | the checked form decodes to a version and payload exactly when it is their encoding |
| Base58.Reverse | internal/address/base58.go:82-86 | the exchange from both ends reverses the array in place |
| Base58.EncodeBase58 | internal/address/base58.go:44-60 | division loop, zero bytes and reversal together give the base58 form |
| Base58.WriteDigits | internal/address/base58.go:47-51 | the division loop writes the base-58 digits, last one first |
| Base58.DecodeBase58 | internal/address/base58.go:62-80 | multiplication loop and leading ones together give the decoded bytes, or an error at a foreign letter |
| Base58.ReadDigits | internal/address/base58.go:63-71 | the multiplication loop gives the number that the letters spell, and fails at a letter outside the alphabet |
| Base58.EncodeBase58Check | internal/address/base58.go:16-20 | appends the four checksum bytes before encoding |
| Base58.DecodeBase58Check | internal/address/base58.go:22-36 | accepts at least five bytes whose last four are the checksum of the others |
| ChainCfg.SharedConstantsAreWellFormed | internal/chaincfg/params.go:62-166 | the constants shared by the networks satisfy everything that the model asks of parameters |
| BlockTime.SomeTimestampPasses | internal/consensus/time.go:12-50 | exactly when some whole second passes the timestamp check |
| BlockTime.TimestampRuleNotMonotone | internal/consensus/time.go:12-50 | a timestamp that passes now can fail half a second later |
| Compact.EncodingRoundsDown | internal/consensus/pow.go:11-59 | encoding a target in range rounds down by less than one part in 2^15, and never to zero |
| Compact.EncodingMonotone | internal/consensus/pow.go:30-59 | larger numbers never get smaller bits, nor smaller decoded targets |
| Compact.EncodingLossless | internal/consensus/pow.go:30-59 | below 2^23 nothing is lost |
| Compact.DecodedIsExact | internal/consensus/pow.go:11-59 | a target that came from compact bits survives being encoded again |
| Compact.InvertsExactlyOnCanonical | internal/consensus/pow.go:11-59 | BigToCompact inverts CompactToBig on the canonical bits and on no others |
| Asert.FactorMonotone | internal/consensus/asert.go:59-75 | the fixed-point cubic never decreases |
| Asert.FactorRange | internal/consensus/asert.go:59-75 | within one period the factor lies between 65536 and 131071, and reaches both ends |
| Asert.ExponentDoesNotOverflow | internal/consensus/asert.go:28-39 | for 32-bit times and heights no intermediate leaves 64 bits, so the exponent is that of unbounded arithmetic |
| Asert.ScaledMonotone | internal/consensus/asert.go:28-57 | a chain further behind its schedule gets a target at least as large |
| Asert.AgainstSingleShift | internal/consensus/asert.go:46-57 | the exact difference to the specification's single shift: nothing when the shift is to the right, and when it is to the left what the low 16 bits would have become, which is less than the shifted unit |
| Asert.AgreesWithSingleShiftExactlyWhen | internal/consensus/asert.go:46-57 | code and specification give the same target exactly when the shift is to the right or those low bits shift to nothing |
| Asert.DiffersFromSingleShift | internal/consensus/asert.go:46-57 | an anchor target and an exponent for which they differ |
| Asert.AgreesForLargeAnchors | internal/consensus/asert.go:46-57 | they agree at every exponent for an anchor whose compact exponent is at least five, as it is on every network |
| Asert.NextTargetOrder | internal/consensus/asert.go:12-57 | the decoded next target never falls when the previous block is later, and never rises with height |
| Asert.NextTargetRange | internal/consensus/asert.go:12-26 | above height 1 the decoded target lies between zero and the limit, and is zero exactly on underflow |
| Asert.NextTargetOnSchedule | internal/consensus/asert.go:12-57 | exactly on schedule the next target is the anchor's |
| Subsidy.CalcBlockSubsidy | internal/consensus/subsidy.go:9-21 | the reduction loop, which may stop early at zero, gives the subsidy of the height's interval |
| Subsidy.OneTimeSplit | internal/consensus/subsidy.go:23-28 | miner and project shares are not negative and add up to the subsidy |
| Subsidy.SupplyClosedForm | internal/consensus/subsidy.go:9-21 | the sum of subsidies up to any height, interval by interval |
| Subsidy.SupplyBound | internal/consensus/subsidy.go:9-45 | the sum never exceeds the issue, and equals it exactly from the last paid block on |
| Subsidy.IssueBound | internal/consensus/subsidy.go:30-45 | the issue obeys the telescoped closed-form bound and leaves room for one more subsidy in 64 bits |
| Subsidy.EstimateTotalSubsidy | internal/consensus/subsidy.go:30-45 | the estimate terminates because the subsidy shrinks, never takes its overflow exit, and equals the issue |
| Conservation.OutputsFromMeaning | internal/blockchain/chain.go:353-368 | outputs pass exactly when none is negative and their sum fits 64 bits, and the sum is the result |
| Conservation.SpendingSum | internal/blockchain/chain.go:315-343 | what a transaction's inputs take out of the ledger is what they count as paid in |
| Conservation.ConnectTxSum | internal/blockchain/chain.go:310-351 | a regular transaction moves value from inputs to outputs and fee, and creates none |
| Conservation.CoinbasePays | internal/blockchain/chain.go:246-290 | a coinbase that passes pays out exactly subsidy and fees, split as the schedule says |
| Conservation.ConnectBlockSum | internal/blockchain/chain.go:192-385 | a block raises the ledger's value by at most its subsidy, and by exactly that unless it re-creates an unspent outpoint |
| Conservation.ValueIsConserved | internal/blockchain/chain.go:67-73 | unspent value never exceeds TotalSubsidy, and equals it exactly while no block re-creates an unspent outpoint |
| Conservation.SupplyFits | internal/blockchain/chain.go:310-351 | no chain holds more than the issue, with a subsidy to spare in 64 bits |
| Conservation.OverflowExitsAreUnreachable | internal/blockchain/chain.go:246-351 | on a chain that validation built, the overflow exits for inputs, fees and rewards are never taken |
| Conservation.RepeatedCoinbaseIsAccepted | internal/blockchain/chain.go:192-385 | on a tip that holds only its coinbase, a block with that same transaction and subsidy is accepted as soon as its header fits, and the ledger gains nothing: its whole subsidy is lost |
| Conservation.RepeatedCoinbaseLosesCoins | internal/blockchain/chain.go:370-385 | any accepted block that holds nothing but the tip's coinbase leaves the ledger's value as it was |
| Trace.ReplayRun | internal/blockchain/chain.go:192-385 | validation of a chain is the run of a legal history of creations and spendings |
| Trace.RunHolds | internal/blockchain/chain.go:310-385 | the ledger holds exactly what was created and not touched since |
| Trace.EverySpendHasItsCreation | internal/blockchain/chain.go:310-343 | every spending names an output created earlier and not consumed since, a coinbase output only when mature |
| Trace.SpentTwiceMeansCreatedTwice | internal/blockchain/chain.go:310-385 | between two spendings of one outpoint it was created anew |
| Trace.NothingIsSpentTwice | internal/blockchain/chain.go:310-385 | with distinct transactions no outpoint is consumed twice in the life of a chain |
| Trace.DistinctMeansNeverRecreated | internal/blockchain/chain.go:370-385 | with distinct transactions no block re-creates an unspent outpoint |
| Trace.DistinctTransactionsConserveValue | internal/blockchain/chain.go:67-73 | with distinct transactions unspent value equals TotalSubsidy |
| ChainFacts.AcceptanceRules | internal/blockchain/chain.go:192-244 | the checks in their order amount to the conjunction of the rules, with the ledger that the transactions lead to |
| ChainFacts.AddKeepsGood | internal/blockchain/chain.go:97-115 | adding a block keeps the chain linked from genesis and the ledger equal to a replay of all blocks from the empty map |
| ChainFacts.PathIndependence | internal/blockchain/chain.go:97-190 | its corollary: two chains with the same blocks have the same ledger, however they got there |
| ChainFacts.HeightsArePositions | internal/blockchain/chain.go:192-215 | heights are positions and never wrap, nor does the height at which a coinbase matures |
| ChainFacts.NextHeight | internal/blockchain/chain.go:192-206 | another block always has a 32-bit height of its own |
| ChainFacts.MaturityDoesNotWrap | internal/blockchain/chain.go:333-335 | the maturity comparison means what it says despite 32-bit addition |
| ChainFacts.AcceptedStaysStorable | internal/blockchain/chain.go:97-125 | a block accepted once is accepted there by the stored-block rules at any later time, with the same ledger |
| ChainFacts.AcceptedAgainExactlyWhenNotTooFar | internal/blockchain/chain.go:97-125 | the full rules accept it again exactly when its time is not too far ahead then |
| ChainFacts.AddAll | internal/blockchain/chain.go:150-190 | adding blocks one by one appends exactly those blocks and keeps the invariant, or reports the first refusal |
| ChainFacts.StoredAgain | internal/blockchain/chain.go:107-125 | each block of a chain is accepted again, by the stored-block rules, on the chain before it, with the same ledger |
| ChainFacts.KeptBlocksRebuild | internal/blockchain/chain.go:171-180 | a chain's own blocks, offered from genesis by the stored-block rules, rebuild it once mining is open |
| ChainFacts.EnforcingAddsTheClock | internal/blockchain/chain.go:97-125 | the full rules are the stored-block rules and the clock, which has an error of its own |
| ChainFacts.ClockDecides | internal/blockchain/chain.go:97-190 | a list of blocks that can be stored passes the full rules exactly when no block is too far ahead of the one before it, and is otherwise refused for its time |
| Runs.SwitchReplacesTheTail | internal/blockchain/chain.go:135-190 | a reorganization keeps the chain up to the fork, appends the whole branch, and is strictly higher |
| Runs.ReplayDecided | internal/blockchain/chain.go:171-187 | replaying kept blocks and a branch that fits on them succeeds or fails by the clock alone, and gives the branch's own result |
| Runs.SwitchesExactlyWhen | internal/blockchain/chain.go:135-190 | a switch is made exactly when the branch leaves from a known block, can be stored on the chain up to there, is longer than what it replaces, and no block, kept ones included, is too far ahead of the one before it by the present clock |
| Runs.KeptBlockStopsTheSwitch | internal/blockchain/chain.go:171-180 | on every chain and for each of its blocks, at one given clock reading no branch that keeps the block is switched to, and one that would replace the tail is refused for a time |
| Runs.StepGrowsOrKeeps | internal/blockchain/chain.go:97-143 | a step that is refused or declined changes nothing; any other makes the chain longer |
| Runs.TipNeverDrops | internal/blockchain/chain.go:97-143 | over any run of extensions and reorganizations the tip never gets lower |
| Runs.RunsAgree | internal/blockchain/chain.go:97-143 | corollary for runs: ending with the same blocks means ending with the same ledger, whatever the detours |
| Runs.RunsConserveValue | internal/blockchain/chain.go:97-143 | after any run value is conserved, exactly so under the stated condition, and bounded by the issue |
| Blockchain.ValidateTxOutputs | internal/blockchain/chain.go:353-368 | the accumulating loop decides as specified, error by error |
| Blockchain.ConnectTxOutputs | internal/blockchain/chain.go:370-385 | the insertion loop adds every output of non-zero value under its outpoint |
| Blockchain.ValidateAndConnectRegularTx | internal/blockchain/chain.go:310-351 | the loop that deletes from the view while it adds up values decides as specified, error by error |
| Blockchain.ValidateRegularTransactions | internal/blockchain/chain.go:292-308 | transactions connect one after another on the growing view and their fees add up |
| Blockchain.ValidateAndConnectCoinbase | internal/blockchain/chain.go:246-290 | the first transaction is checked against subsidy and fees before its outputs enter the view |
| Blockchain.Chain.constructor | internal/blockchain/chain.go:27-33 | a new chain holds the genesis block and an empty ledger, and satisfies the invariant |
| Blockchain.Chain.Height | internal/blockchain/chain.go:43-45 | the height is the number of blocks after genesis |
| Blockchain.Chain.BlockByHeight | internal/blockchain/chain.go:51-56 | block number h, if there is one |
| Blockchain.Chain.BlockByHash | internal/blockchain/chain.go:58-65 | the first block with the hash, or none if no block has it |
| Blockchain.Chain.TotalSubsidy | internal/blockchain/chain.go:67-73 | the loop gives the subsidies of all blocks, never overflows, and bounds the unspent value |
| Blockchain.Chain.LookupUTXO | internal/blockchain/chain.go:79-85 | finds exactly the outpoints that the ledger holds |
| Blockchain.Chain.ValidateBlockAt | internal/blockchain/chain.go:117-244 | the checks in the code's order give the specified ledger or the specified first error, and change nothing |
| Blockchain.Chain.AddBlock | internal/blockchain/chain.go:97-105 | appends a valid block with its ledger, or changes nothing; the invariant is kept |
| Blockchain.Chain.AddStoredBlock | internal/blockchain/chain.go:107-115 | the same without the limit on future times |
| Blockchain.Chain.CalcFees | internal/blockchain/chain.go:145-148 | the fees of a transaction list for the next block, or why it does not connect |
| Blockchain.Chain.AddBlocks | internal/blockchain/chain.go:172-187 | the replay loop adds all blocks or stops at the first that is refused |
| Blockchain.Chain.ReorganizeCandidate | internal/blockchain/chain.go:150-190 | builds on the side the chain that the branch would lead to, with every way to decline or fail |
| Blockchain.Chain.ReorganizedBlocks | internal/blockchain/chain.go:127-133 | the blocks that a switch would lead to, without switching |
| Blockchain.Chain.Reorganize | internal/blockchain/chain.go:135-143 | switches to the replayed branch or changes nothing; the invariant is kept |
| HeaderSync.ValidateHeaderChain | internal/p2p/node.go:746-792 | the loop over headers, with its running height, hash and time, decides as specified |
| HeaderSync.HeadersAcceptedExactlyWhen | internal/p2p/node.go:746-792 | headers are accepted exactly when those not skipped follow on from the tip, and their hashes come back in order |
| HeaderSync.HeadersOfStoredBlocksPass | internal/p2p/node.go:746-792 | the headers of any blocks that the chain would store are accepted first, with the same hashes in order |
| HeaderSync.AcceptedHeaderLeavesTheBody | internal/p2p/node.go:746-792 | a block whose header is accepted next is stored exactly when its merkle root and transactions pass |
| StoreFormat.RecordRoundTrip | internal/blockstore/jsonl.go:223-255 | a written record parses back to its block, and states its own height and hash |
| StoreFormat.LoadRestores | internal/blockstore/jsonl.go:92-129 | loading the file of a stored chain gives back exactly its blocks and its ledger |
| StoreFormat.CrashDuringAppend | internal/blockstore/jsonl.go:131-156 | a crash at any byte of an append leaves a file that repairs to the chain, or to the chain and that one block |
| StoreFormat.RepairKeepsTheGoodPrefix | internal/blockstore/jsonl.go:59-90 | the repaired file is a prefix of the old one, loads cleanly, and gives the chain reached before the bad line |
| StoreFormat.FirstBadLine | internal/blockstore/jsonl.go:105-127 | the first line not kept does not parse, or its block does not connect there |
| TornWrites.AppendLoadsExactlyAfterLineEnd | internal/blockstore/jsonl.go:131-156 | a clean file takes another block exactly when it is empty or ends in a newline; otherwise the last block is lost with it |
| TornWrites.RepairedTear | internal/blockstore/jsonl.go:59-90 | Repair cuts off a torn record, but leaves alone one that lost only its newline |
| TornWrites.AppendAfterRepairedTear | internal/blockstore/jsonl.go:59-156 | for every byte at which an append may tear: after Repair the next valid block loads, except when exactly the newline was missing, and then neither block does |
| TornWrites.AppendOntoTear | internal/blockstore/jsonl.go:131-156 | without Repair the next block loads, in a file without a bad line, exactly when nothing of the torn record was written |
| TornWrites.TornRecordSwallowsTheNext | internal/blockstore/jsonl.go:131-156 | a record behind any part of a torn one is lost, and the chain before both loads |
| TornWrites.NothingLoadsAfterABadLine | internal/blockstore/jsonl.go:105-127 | once a line is bad, nothing written after it is ever loaded |
| TornWrites.CodecExists | internal/blockstore/jsonl.go:235-255 | some codec that passes over white space on both sides of a record, as json.Unmarshal does, meets what is assumed of the JSON records |
| BlockStore.StoredOfChain | internal/blockstore/jsonl.go:172-184 | skipping blocks of height zero leaves out the genesis block and no other |
| BlockStore.Store.Load | internal/blockstore/jsonl.go:51-129 | the line loop builds the chain of the scan and reports where the first bad line starts |
| BlockStore.Store.Append | internal/blockstore/jsonl.go:131-156 | adds exactly the block's record, or on failure some leading part of it |
| BlockStore.Store.Replace | internal/blockstore/jsonl.go:158-197 | the file becomes exactly the given blocks without genesis, or stays as it was |
| BlockStore.Store.Repair | internal/blockstore/jsonl.go:59-90 | a clean file is untouched; otherwise the old file is backed up, the good lines stay, and their chain is returned |
| ParentIndex.RemoveHash | internal/p2p/node.go:1763-1771 | filters one hash out of a list and keeps the order |
| ParentIndex.RemoveKeepsIndexed | internal/p2p/node.go:1520-1528 | removing an item keeps the index exact: each item once, under its parent, no empty lists |
| ParentIndex.AddKeepsIndexed | internal/p2p/node.go:1530-1532 | adding an item keeps the index exact |
| ParentIndex.TakeKeepsIndexed | internal/p2p/node.go:1733-1735 | taking a parent's whole list out leaves the index exact but for the items taken |
| BlockPools.BranchIsUnique | internal/p2p/node.go:1588-1611 | there is at most one branch from the main chain to a tip |
| BlockPools.BranchDoesNotRepeat | internal/p2p/node.go:1588-1611 | a branch meets no block twice |
| BlockPools.BranchClimbs | internal/p2p/node.go:1588-1611 | a branch starts one above its fork point and climbs one by one, provided that no two of the headers the node has had share a hash |
| BlockPools.WalkIsBranch | internal/p2p/node.go:1588-1611 | a walk back that reached the main chain, turned around, is a branch |
| BlockPools.NoBranchWithoutBlock | internal/p2p/node.go:1597-1600 | when the walk runs off the pool there is no branch |
| BlockPools.NoBranchThroughCycle | internal/p2p/node.go:1592-1595 | when the walk comes back to where it was there is no branch either |
| BlockPools.NoCycle | internal/p2p/node.go:1592-1595 | provided the same, the walk strictly descends and cannot come back to where it was |
| Node.P2PNode.constructor | internal/p2p/node.go:119-161 | a node starts with empty caches around a valid chain that its store holds, and knows exactly the headers of that chain |
| Node.P2PNode.AddOrphan | internal/p2p/node.go:1514-1533 | parks a block, with at most 128 orphans under any choice of victim and an exact index |
| Node.P2PNode.DropOrphan | internal/p2p/node.go:1519-1529 | one orphan leaves a full cache, and its index with it |
| Node.P2PNode.PersistAndAdd | internal/p2p/node.go:826-834 | store first, then chain; on a failed write the chain is unchanged |
| Node.P2PNode.ConnectOrphans | internal/p2p/node.go:1733-1761 | connects parked descendants recursively; it terminates, the chain grows by exactly what is reported, all of it taken from the cache, and the index is exact again although siblings wait across the calls |
| Node.P2PNode.ConnectOrphan | internal/p2p/node.go:1737-1759 | one child leaves the cache and, if valid and stored, brings its own children |
| Node.P2PNode.ExtendTip | internal/p2p/node.go:826-839 | a block on top of the tip is refused with the rule that it breaks, or connected with the orphans that it releases; afterwards no orphan waits for a block just added |
| Node.P2PNode.SideBranch | internal/p2p/node.go:1588-1611 | finds the branch to a tip exactly when there is one; as long as no two of the headers that the node has ever had on its chain or beside it share a hash, the cycle guard never fires and the branch climbs one by one from its fork |
| Node.P2PNode.PruneSideBranch | internal/p2p/node.go:1613-1623 | the side pool loses exactly the branch and its index stays exact |
| Node.P2PNode.DisconnectedBlocks | internal/p2p/node.go:1625-1643 | the blocks above the fork point, tip first |
| Node.P2PNode.TryReorganize | internal/p2p/node.go:1561-1586 | a branch to the tip wins exactly when the node switches or its store fails; without a switch the error says whether no branch leads higher, the chain refuses it, or the store failed, and nothing has changed; a switch reports the exact delta and leaves no branch block cached |
| Node.P2PNode.SwitchTo | internal/p2p/node.go:1574-1585 | store first, then the chain, then the side pool; a failed write leaves all three as they were |
| Node.P2PNode.ConnectSideBlock | internal/p2p/node.go:1535-1559 | a block beside the chain is ignored, or cached with the reason why there is no switch, or cached and switched to; among those that fit, a winning branch means a switch or a failed store, and the other way round |
| Node.P2PNode.SideOrMainBlock | internal/p2p/node.go:1699-1705 | the block with a hash, on the main chain first, else beside it |
| Node.P2PNode.ConnectBlock | internal/p2p/node.go:803-840 | in each of the four cases the exact delta: the old chain is the kept part and the reversed disconnected blocks, the new one the kept part and the added blocks; the tip never gets lower, all cache and store invariants hold, and after an extension no orphan still waits for a block that was just added |
| Node.ParentsUnknownExactlyWhen | internal/p2p/node.go:803-840 | when no orphan waits for a block that the node holds, a step keeps it so unless the block is kept beside the chain and an orphan waits for it, and then never; as to the main chain alone, unless it switches to a branch with a block that an orphan waits for, and then never |
| Node.P2PNode.StoreReloads | internal/blockstore/jsonl.go:51-57 | as long as no write has failed, loading the store gives back the node's own blocks and ledger |
| Node.CandidateDescends | internal/p2p/node.go:1653-1697 | a block that fits beside the chain has a known parent that is one lower, and so does every block of the side pool once it is added; nothing is assumed about hashes |
| Node.KnownAfterSwitch | internal/p2p/node.go:1561-1586 | a switch brings no header onto the chain that the node did not know |
| Node.CrashDuringSwitch | internal/p2p/node.go:1574-1582 | of the two contents that Store.Replace can leave, each loads to a whole chain: the old file to the old one, the new file, from the rename on and while memory still holds the old chain, to the new one with its ledger |
| Miner.NewCandidateWithTransactions | internal/mining/miner.go:18-50 | builds the block that the chain's own rules describe for these transactions, or reports why not |
| Miner.RefreshHeaderSize | internal/wire/block.go:130-148 | the size field becomes the encoded length, or an error when it does not serialize or fit |
| Miner.MineBlockWithTransactions | internal/mining/miner.go:56-79 | returns the template with the smallest working nonce, or an error exactly when no nonce up to the limit works; what it returns passes the stored-block rules exactly when mining is open, and the full rules exactly when its time is also not too far ahead |
| Miner.MinedBlockIsValid | internal/mining/miner.go:18-79 | the template on any chain that validation built satisfies every rule of that chain once its work does |
| Miner.FeesFit | internal/mining/miner.go:20-27 | fees never exceed the unspent value, so subsidy and fees fit 64 bits |
| Miner.SizeFieldIsTheSize | internal/mining/miner.go:46-48 | the size in a mined header is the length of that very block's encoding |
| Mempool.PrefixConnects | internal/rpcserver/server.go:144-164 | transactions that connect together connect in every prefix |
| Mempool.StalePoolAcceptsNothing | internal/rpcserver/server.go:144-164 | a pool that no longer connects takes in nothing |
| Mempool.RevalidatedFacts | internal/rpcserver/server.go:1116-1131 | revalidation keeps the order, drops everything included, keeps identifiers distinct, and leaves a pool that connects as a whole |
| Mempool.NothingToRevalidate | internal/rpcserver/server.go:1116-1131 | it changes nothing exactly when nothing is included and the whole pool connects |
| Mempool.RevalidationIsIdempotent | internal/rpcserver/server.go:1116-1131 | doing it again changes nothing |
| Mempool.ReturnedMembers | internal/rpcserver/server.go:197-223 | offered again is exactly what the disconnected blocks held, save coinbases and what the new blocks include |
| Mempool.StalePoolGetsNothingBack | internal/rpcserver/server.go:197-224 | a pool made stale by the reorganization gets none of the disconnected transactions back |
| Mempool.AllAcceptedExactlyWhen | internal/rpcserver/server.go:144-164 | everything new among the offers is taken in exactly when the pool and all of it connect together |
| Mempool.EverythingComesBackExactlyWhen | internal/rpcserver/server.go:197-224 | the pool ends as the old one followed by everything new from the disconnected blocks exactly when that list connects on the new chain and nothing of the old pool is in the new blocks |
| Mempool.NewSurvivesExactlyWhen | internal/rpcserver/server.go:197-224 | everything new from the disconnected blocks stays, in order behind what is left of the old pool, exactly when it connects both behind the old pool and behind what is left of it |
| Mempool.Server.AcceptTransaction | internal/rpcserver/server.go:144-164 | accepts exactly the regular transactions that are new and connect after the whole pool, and then the whole pool connects |
| Mempool.Server.RevalidateMempool | internal/rpcserver/server.go:1116-1131 | the filtering loop computes the revalidated pool |
| Mempool.Server.NotifyBlockConnected | internal/rpcserver/server.go:188-195 | afterwards the pool is valid on the new chain, in the old order, without the block's transactions |
| Mempool.Server.NotifyChainReorganized | internal/rpcserver/server.go:197-224 | afterwards the pool is valid, duplicate-free, disjoint from the new blocks, and made only of old entries and offered ones; it is all of both exactly under that condition |
| AddressIndex.AddressUTXOs | internal/rpcserver/server.go:809-861 | the nested loops over chain and mempool compute the scan |
| AddressIndex.ScanAgreesWithLedger | internal/rpcserver/server.go:809-861 | with distinct transactions and a pool that could go into the next block, the scan finds exactly the outputs of the script that are worth something and unspent once the pool is connected; the pool's own are pending, the chain's have their height and coinbase flag and are mature exactly when the next block may spend them |
| AddressIndex.BlockAgrees | internal/rpcserver/server.go:819-842 | scanning a block coinbase-first and connecting it coinbase-last lead to the same outputs |
| AddressIndex.RegularsAgree | internal/rpcserver/server.go:819-842 | the regular transactions of a block keep scan and ledger in agreement away from the block's coinbase |
| AddressIndex.PoolAgrees | internal/rpcserver/server.go:843-861 | the waiting transactions keep scan and ledger in agreement, each new output shown as pending |

## Left out

- Hash functions, signature checks and key handling: function values without assumptions; no cryptographic property is claimed.
- JSON and hexadecimal text of store records: a codec with stated properties, so the letter case of hexadecimal input and the shape of the JSON are not modelled.
- File-system details: directories, permissions, rename and sync appear only as writes that may fail; the choice of a backup file's name is not modelled.
- Nil pointers, panics on allocation, and memory limits: every value exists, and a serialized length beyond 2^63 is an error.
- Aliasing: blocks, transactions and byte slices are values, so the sharing of block pointers between chain, caches and callers, and the reuse of a slice's backing array in `removeHash` and in the mempool filter, are not captured.
- Locks and goroutines: every locked section is one step; interleavings within a section are excluded by the lock.
- Sockets, handshake, message framing, peer slots, ban scores, address book and discovery.
- HTTP handlers, wallets, stratum, command-line tools, log lines and the text of error messages: errors are constructors.
- A node without a chain object, for which the functions return early.
- `NextBlockTime` and the choice of a template's timestamp: the timestamp is an input.
- The order of `addressUTXOs` results and the decoding of an address into its script: the scan is a map from outpoints, and the script is an input.
- Node.P2PNode.AddOrphan: says that some orphan makes room in a full cache but not which one, because the code takes whichever its map yields first.
- Node.P2PNode.ConnectBlock: that every side block reaches the main chain is false of the code (it may never win, and disconnected blocks are not cached) and is not claimed.
- The layout of some functions: loop bodies and loops that the code writes inline have a name of their own here (`AddBlocks`, `ConnectOrphan`, `ExtendTip`, `SwitchTo`, `DropOrphan`, `FilterMempool`, `ReturnBlock`, `WriteDigits`, `ReadDigits`, `IndexTransaction`, `TurnAround`, `HashPairs`).
