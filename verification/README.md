# Melete: a verified model

Melete is a sharded blockchain. Accounts are spread over intra-shards (I-shards) by key range.
Cross-shards (C-shards) order the transfers that touch several I-shards. In each height:

1. every shard agrees on a block by proposal, prevote and precommit;
2. a C-shard pre-executes its block and ships, for each transfer, what it read;
3. each related I-shard filters the blocks of its C-shards by their dependencies, re-checks that the
   shipped reads are fresh, and signs an accept that carries its commit vote;
4. the C-shard collects two thirds of the accepts of every related I-shard into a certificate;
5. every shard intersects the votes of each certificate and executes the surviving transfers, from
   the recorded writes where it has them and by replay of the shipped reads where it does not.

This project models that pipeline, the data structures under it, and one of the baselines' vote
collectors. It proves the following main results.

* **Serializability** (`CrossShard`, `Rounds`, `Networks`, `Minibank`): parallel, filtered execution on
  either path and in any write order leaves the store of a serial run of the committed transfers, and
  the replay never reaches its panic. Over any run of rounds of the whole network, with I-shards and
  C-shards and with commit vectors that are the intersections of all related votes, every shard
  stores on its range what one serial history leaves there, and receipts tell what happened in it.
  The imperative application computes exactly the functions these results are about, and `Effects`
  says what those functions do account by account: when a transfer succeeds, what it moves, which
  transactions a shard votes for, and what each block leaves on its range.
* **Conservation of money** (`Conservation`): modulo 2^32 for transfers between distinct accounts,
  over whole rounds and whole histories of the network; with the exact condition for every other
  transfer.
* **The interval tree** (`RangeTreeModel`, `RangeTrees`): the mutable tree with one stored bound per
  node is exactly a set of keys, over any history of operations.
* **Merkle trees and block parts** (`MerkleTree`, `MerkleProof`, `ProofTrails`, `PartSets`,
  `Assemblies`): in-place and recursive roots agree, generated proofs verify, a passing proof of any
  total is for the item its path ends at or exhibits a hash collision, equal roots mean equal lists or
  a collision, and a re-assembled block is the sent one or there is a collision. Every part that a
  sender makes is accepted, and parts delivered in any order, early ones included, assemble the block.
* **Block hashes** (`Blocks`): when a block hash fixes the content of a block, and when it does not.
* **Agreement** (`InShard`, `HeightStates`, `HeightDatas`, `Consensus`): in every run of honest nodes
  among faulty ones, two nodes that pass the precommit gate at a height hold proposals of one block
  hash. A gate opens exactly when its condition holds, a delivered quorum opens all of them, and in
  some run every honest validator decides (`Decisions`). The imperative step machine and height data
  are shown to take only the steps of those runs.
* **Certificates** (`CrossShardVotes`, `Certificates`, `Commitments`, `HeightDatas`): any two valid certificates for a
  C-shard and height agree on the block hash and on every I-shard's vote, and that hash is the one of
  the block a shard holds. What a shard executes for a C-shard is the intersection of the votes of its
  I-shards exactly under a stated condition on the statuses beyond the certified ones, which no
  signature covers (`Commitments`). Nothing a step reads is ever missing.
* **The waiting list** (`CLists`): both chains and the length describe one sequence, and no wait is
  released twice or replaced while somebody may wait on it.

## How to read it

Each module follows one component. Values that the program passes around are datatypes; objects it
updates in place are classes with a `Valid` predicate, and their methods are tied to functions of the
old state. Lemmas then speak about those functions; some of them (`Effects`, and those named `...Iff`,
`...Answers` or `...Means`) say in plain terms what a function gives, and exactly when. `Basics`, `Quorum` and `Signatures` hold what is
shared: options, weights, two-thirds thresholds in plain and in 32-bit arithmetic, ideal signatures.
`Networks` puts the shards together: home ranges that are apart, relations that run both ways, and in
each round a block per shard, read data recorded by honest C-shards, and any write order per shard.

Idealised parts:

* The hash function is an arbitrary function from byte strings to 32 bytes. Nothing is assumed about
  it; results say "equal, or here is a collision".
* A signature tells who signed what. An aggregate verifies exactly when it holds one signature of
  each marked validator over the message. Signatures of honest validators cannot be forged.
* Protobuf encoding is a one-to-one correspondence, so messages are datatypes. Decoding a block's
  bytes is a parameter, and so is the application's answer to a list of blocks.
* Stores are maps. Goroutines that touch only their own overlay are run one after the other.
* Range tree keys are real numbers; `KeyOrder` embeds byte strings in their usual order.
* Faulty weight is at most one third of a shard's weight, and a shard's total weight is below 2^30.

## Where the program does less than it seems to promise

* Money is conserved only modulo 2^32, even when no balance wraps, because the sums of a transfer are
  compared in 32 bits (`WrappedSumsDestroy`). It is conserved exactly if and only if the plain sums
  agree (`ConservesExactlyIff`).
* A transfer that names an account twice can create money (`SelfTransferMints`). `ConservesIff` is
  the exact condition.
* The freshness phase looks only at the shard's own range. A final vote is dependency-closed when the
  shipped reads are the recorded ones (`FinalVoteIsFilterVote`), and need not be otherwise
  (`StaleDataBreaksClosure`). `RecheckClosedIff` is the exact condition on what was shipped: no voted
  transaction passes while an earlier voted one that it conflicts with does not. `AlwaysClosedIff` is
  the exact condition that can be checked beforehand: no two voted transactions of the block
  conflict. `RecheckLowersNothingIff` is the exact condition for an unchanged vote.
* A Merkle proof does not bind the number of items (`WrongTotalPasses`). A proof of any total is for
  the item at which its path ends in the tree, or there is a collision (`PassingProofReaches`), and
  every item reached that way has such a proof (`ReachedItemHasProof`); so a proof names a wrong index
  exactly if its path ends at another item than the index. Block parts check the number separately, so
  reassembly is not affected.
* A block hash does not fix the content of a block that comes with its roots (`ContentIsFree`,
  `AnyContentPasses`), and never the read data of a C-shard's block (`ReadDataIsFree`). Of two blocks
  with one hash, the first with true roots, the second has the same content if and only if its roots
  are true as well, or there is a collision (`SameContentIff`). Agreement here is on block hashes.
* A precommit is signed over its code but counted by its hash alone. A shard's decided proposal
  verifies elsewhere if and only if every counted precommit carries the code of approval
  (`CountedVerifiesIff`); one that does not spoils it, although the others would do
  (`OneAgainstSpoils`).
* No signature covers a certificate as a whole, and only its list of shards has a checked length. A
  valid certificate with further statuses is valid (`LongerIsCertified`). One further status can clear
  every bit (`OneMoreClears`), follow one that decodes to no vector and be executed alone
  (`MissingVectorResets`), or not decode, so that every node which executes the certificate fails
  (`OneMoreFails`, `ExecutionAllBlocks`). The certified statuses always decode
  (`CertifiedPartDecodes`). A shard executes the certified intersection if and only if the further
  statuses can be read and, if none of them is missing, all are above that intersection; if one is
  missing, those after the last missing one must combine to it (`ExtrasHarmlessIff`,
  `ExecutesKeepIff`).
* Some messages make the source fail before it checks a signature: a vote with an index of -8 or less,
  or any negative one in a shard without validators (`IndexFails`, `AddPrevote`, `AddPrecommit`), and a
  certificate with fewer bit vectors, statuses or signatures than shards, once its other checks get
  that far (`ShortList`, `AddCrossShardCommit`). `DoMessage` says exactly which. So does a certificate
  or a cross-shard proposal whose validator bits arrive as bytes that do not decode, like 8, 0; bits
  are decoded already when the model sees them.
* The accept collector counts by commit status and ignores the block hash. A certificate built from
  it is valid if and only if every counted accept is for the same block (`BuiltAggregateVerifiesIff`,
  `GenerateCrossShardCommit`).
* A C-shard without related I-shards has certificates that agree on nothing
  (`EmptyCertificatesDiffer`).
* Threshold arithmetic in 32 bits means two thirds if and only if the total is below 2^30
  (`Threshold32SoundIff`).

## Model

| member | source | states |
|---|---|---|
| CrossShard.AppliedIsSerial | source/melete/abci/minibank/bank.go:166-192 | laying the recorded write sets of a dependency-closed commit vector over any base that agrees on the kept transactions' accounts equals running only the kept transactions from that base, for every block and every prefix |
| CrossShard.KeptOutcomeAgrees | source/melete/abci/minibank/bank.go:173-186 | a kept transaction has the same outcome (writes or failure) in the whole block as in the run of the kept ones alone |
| CrossShard.RecordedReplays | source/melete/abci/minibank/bank.go:243-252 | replaying a transaction from its shipped read data repeats the recorded run and never fails; the shipped keys are exactly its accounts |
| CrossShard.OverlayIsApplied | source/melete/abci/minibank/bank.go:225-259 | fast path and replay path of an execution build the same overlay, and the panic of the replay path is unreachable, for every commit vector |
| CrossShard.VoteIsAdmissible | source/melete/abci/minibank/bank.go:69-94 | the filter's vote is dependency-closed and keeps no transaction that touches an account of an earlier block |
| CrossShard.VoteIsLargest | source/melete/abci/minibank/bank.go:73-89 | every closed vote that stays off the earlier blocks' accounts is below the filter's vote: the filter drops nothing it could keep |
| CrossShard.RecheckLowersNothingIff | source/melete/abci/minibank/bank.go:103-151 | the freshness phase leaves the vote as it is if and only if every voted transaction passes at the state its voted predecessors leave |
| CrossShard.FreshDataLowersNothing | source/melete/abci/minibank/bank.go:98-152 | with recorded data and a base that agrees on the shard's range, the freshness phase lowers no bit of a closed vote |
| CrossShard.FinalVoteIsFilterVote | source/melete/abci/minibank/bank.go:64-164 | under these conditions the final vote equals the filter's vote and is closed |
| CrossShard.StaleDataBreaksClosure | source/melete/abci/minibank/bank.go:115-148 | without the agreement it fails: a concrete block whose final vote is not dependency-closed |
| CrossShard.RecheckClosedIff | source/melete/abci/minibank/bank.go:98-152 | whatever is shipped, the freshness phase leaves a closed vote closed if and only if no voted transaction that passes at its place conflicts with an earlier voted one that does not |
| CrossShard.AlwaysClosedIff | source/melete/abci/minibank/bank.go:98-152 | for any state and range of the shard, it does so whatever is shipped if and only if no two voted transactions of the block conflict, which can be checked before the phase |
| CrossShard.FinalVoteIsDisjoint | source/melete/abci/minibank/bank.go:67-94 | a transaction voted in one block shares no account with any transaction of an earlier block of the list |
| CrossShard.WriteOrderIrrelevant | source/melete/abci/minibank/bank.go:272-277 | overlays with disjoint keys leave the same store in whatever order, and with whatever repetition, they are written |
| CrossShard.ParallelIsSerial | source/melete/abci/minibank/bank.go:205-277 | serializability: blocks executed in parallel from one state under closed commit vectors that keep them apart, written in any order, leave exactly the store of the serial run of the committed transfers |
| CrossShard.StoredIsSerial | source/melete/abci/minibank/bank.go:272-277 | the same for what one shard stores: on its own range it holds the balances of that serial run |
| CrossShard.RangeWriteIsSerial | source/melete/abci/minibank/memdb.go:158-179 | persisting only the entries of a range loses nothing of a run on that range |
| CrossShard.InnerBlocksCommute | source/melete/abci/minibank/bank.go:305-343 | intra-shard blocks on disjoint ranges leave the same store in either order |
| CrossShard.ReceiptIsSerial | source/melete/abci/minibank/bank.go:225-259 | a transaction's receipt is OK if and only if it is kept and succeeds at its place in the serial run of the kept ones |
| Rounds.CombineStatuses | source/melete/consensus/main.go:671-685 | the loop over a certificate's statuses fails exactly if one of them cannot be read; otherwise it yields the running intersection of the decoded votes, which a status that decodes to no vector resets |
| Rounds.CombinedSinceReset | source/melete/consensus/main.go:675-682 | a list of statuses combines to what those after its last missing vector combine to |
| Rounds.CombinedIsAnd | source/melete/consensus/main.go:671-685 | if every status decodes, that is the intersection of all of them |
| Rounds.AndAllAt | source/melete/consensus/main.go:675-682 | a bit survives exactly when every vote sets it |
| Rounds.AndAllClosed | source/melete/consensus/main.go:675-685 | the intersection of dependency-closed votes is dependency-closed |
| Rounds.BelowVotesIsDisjoint | source/melete/abci/minibank/bank.go:67-94 | commit vectors below a shard's own votes keep the blocks of its list apart, whatever their ranges |
| Rounds.BelowNeverPanics | source/melete/abci/minibank/bank.go:243-252 | no replay of a transaction that an I-shard voted for panics, whatever the C-shard shipped |
| Rounds.RoundIsSerial | source/melete/abci/minibank/bank.go:205-277 | one shard's execution, in either role: with honest blocks and closed commit vectors that keep the blocks apart, on either path and in any write order the shard stores on its range the serial run of the committed transfers, and no replay panics |
| Rounds.RoundReceipts | source/melete/abci/minibank/bank.go:225-259 | a receipt is OK if and only if the transaction is kept and succeeds at its place in the serial run of all blocks |
| Networks.VoteClosed | source/melete/abci/minibank/bank.go:64-164 | every I-shard's vote on every block of its C-shards is dependency-closed, while all shards follow one history |
| Networks.KeepClosed | source/melete/consensus/main.go:671-685 | so is every commit vector, the intersection of the votes of all related I-shards |
| Networks.KeepsDisjoint | source/melete/abci/minibank/bank.go:67-94 | the commit vectors keep all blocks of the network apart, although no shard sees all of them |
| Networks.KeepNeverPanics | source/melete/abci/minibank/bank.go:243-252 | no replay of a committed transaction panics at any shard, whatever the C-shard shipped |
| Networks.StatusesKeep | source/melete/consensus/main.go:671-685 | status bytes that decode to the votes of the related I-shards, in whatever order, combine to the commit vector |
| Networks.OverlayIsGlobal | source/melete/abci/minibank/bank.go:225-259 | every shard that executes a block, on either path, builds the overlay that the global state gives rise to, and no replay panics |
| Networks.CrossInStep | source/melete/abci/minibank/bank.go:205-277 | after the cross-shard part of a round every shard stores on its range the serial run of the committed transfers of the whole network |
| Networks.InnerInStep | source/melete/abci/minibank/bank.go:283-343 | intra-shard transactions, run by an I-shard for itself and by a C-shard for all its I-shards, keep every shard in step with the history |
| Networks.NextInStep | source/melete/abci/minibank/bank.go:205-345 | the round theorem: if every shard, I or C, stores on its range what a global history leaves there, it still does after a round; closedness and disjointness of the commit vectors are derived |
| Networks.ExecutionIsNext | source/melete/abci/minibank/bank.go:205-345 | the store that a C-shard's Execution leaves, from its blocks, commit vectors and intra-shard blocks, is on its range the one the round says |
| Networks.InnerExecutionIsNext | source/melete/abci/minibank/bank.go:205-345 | so is that of an I-shard |
| Networks.ShardsFollowHistory | source/melete/abci/minibank/bank.go:205-345 | serializability over all rounds: after any run, two shards that share an account both store the balance that one serial history leaves there |
| Networks.ReceiptsFollowHistory | source/melete/abci/minibank/bank.go:225-259 | in every round a receipt is OK if and only if the transaction is kept and succeeds in that history |
| Minibank.ValidateTransferTx | source/melete/abci/minibank/types.go:77-102 | answers exactly the specified check, with both sums taken modulo 2^32 |
| Minibank.DoTransfer | source/melete/abci/minibank/bank.go:369-416 | buffers exactly the specified write set, or fails with the specified error and leaves buffer and committed view unchanged |
| Minibank.RecordBlock | source/melete/abci/minibank/bank.go:166-192 | the recording loop yields, per transaction, the specified read data and write set |
| Minibank.FilterBlock | source/melete/abci/minibank/bank.go:69-89 | the in-place filter with its dependency map computes the specified vote |
| Minibank.FreshCheck | source/melete/abci/minibank/bank.go:116-124 | true exactly when every shipped value inside the range equals the balance of the overlay, neither more nor less; the committed view is unchanged |
| Minibank.RecheckBlock | source/melete/abci/minibank/bank.go:98-153 | the freshness loop, through the bytes of the first vote, computes the specified final bits; its own dependency test never lowers a bit |
| Minibank.ExecuteBlock | source/melete/abci/minibank/bank.go:217-265 | the execution loop builds the specified overlay and the specified receipt code for every transaction |
| Minibank.ExecuteInner | source/melete/abci/minibank/bank.go:283-303 | an intra-shard block leaves the store of its serial run on its range; a transaction is answered OK if it succeeds at its place in that run and abort if it fails there |
| Minibank.ExecuteRelated | source/melete/abci/minibank/bank.go:305-343 | on ranges that are apart, every account of a range holds what that shard's block alone leaves there, no other account changes, and each transaction is answered by its outcome; in any case the blocks run one after the other |
| Minibank.RelatedIsDone | source/melete/abci/minibank/bank.go:305-343 | the composed serial runs are that, account by account, if the ranges are apart |
| Minibank.Application.PreExecutionC | source/melete/abci/minibank/bank.go:166-192 | ships the recorded read data and stores the recorded writes under the block's hash |
| Minibank.Application.PreExecutionI | source/melete/abci/minibank/bank.go:64-164 | every returned vote decodes to the specified final vote of its block |
| Minibank.Application.Execution | source/melete/abci/minibank/bank.go:205-345 | the store after a round is the serial run of the intra-shard blocks on top of the written overlays, in an I-shard and, account by account, in a C-shard; a cross-shard transaction is answered OK exactly if it is executed and with an encoding error exactly if its data does not decode |
| Minibank.ReceiptCodes | source/melete/abci/minibank/bank.go:225-259 | a cross-shard transaction is answered with an encoding error exactly if its data does not decode, and OK exactly if that data says it succeeded and its bit is set |
| Minibank.InnerReceiptCodes | source/melete/abci/minibank/bank.go:283-303 | an intra-shard one is answered OK exactly if it succeeds at its place in the run of its block, and abort exactly if it fails there |
| Minibank.Application.Commit | source/melete/abci/minibank/bank.go:57-62 | forgets the recorded writes |
| Transfers.RunLocal | source/melete/abci/minibank/bank.go:369-416 | a transaction's outcome depends on the balances of its own accounts only |
| Transfers.ReplayFromReads | source/melete/abci/minibank/memdb.go:201-211 | a successful transaction run again from its own read set repeats exactly |
| Transfers.TransferSucceedsIff | source/melete/abci/minibank/types.go:77-102 | a transfer succeeds if and only if both sides have as many amounts as accounts and are not empty, the sums agree modulo 2^32, every account can be read, and every debit is covered |
| Transfers.TransferFailsWith | source/melete/abci/minibank/types.go:77-102 | which error a failing transfer gives: the first of these checks that fails |
| Transfers.PayeeGets | source/melete/abci/minibank/bank.go:398-414 | a payee ends with its last credit on top of what it had, modulo 2^32 |
| Transfers.PayerPays | source/melete/abci/minibank/bank.go:378-396 | an account that only pays ends with its last debit taken off |
| Effects.SerialCredits | source/melete/abci/minibank/bank.go:225-259 | so in a serial run: a kept transfer that succeeds adds its last credit to an account |
| Effects.SerialDebits | source/melete/abci/minibank/bank.go:225-259 | it takes its last debit off an account that only pays |
| Effects.SerialLeaves | source/melete/abci/minibank/bank.go:225-259 | it leaves all other accounts alone |
| Effects.SerialSkips | source/melete/abci/minibank/bank.go:225-259 | a transaction that is dropped or fails changes nothing |
| Effects.FinalVoteIff | source/melete/abci/minibank/bank.go:64-164 | the final vote keeps a transaction if and only if the dependency filter does, its read data decodes, and, if it is said to have succeeded, it succeeds on that data and every shipped balance in the range is the one the transactions kept before it leave |
| Effects.OverlayLast | source/melete/abci/minibank/bank.go:225-259 | the last executed transaction that writes an account decides its entry in the overlay, from the recorded writes or by replay |
| Effects.OverlayNone | source/melete/abci/minibank/bank.go:225-259 | an account that no executed transaction writes has no entry |
| Effects.InnerOnRange | source/melete/abci/minibank/bank.go:305-343 | of intra-shard blocks on ranges that are apart, each leaves on its own range what it leaves there when it runs alone |
| Effects.InnerOutside | source/melete/abci/minibank/bank.go:305-343 | outside all their ranges they change nothing |
| MemDBs.MemoryDB.Get | source/melete/abci/minibank/memdb.go:45-68 | returns the balance of the two-level view and caches it; committed view and buffer are unchanged |
| MemDBs.MemoryDB.CommitWrite | source/melete/abci/minibank/memdb.go:90-99 | keeping turns the current view into the committed one, dropping leaves the committed view as it was; both empty the buffers |
| MemDBs.MemoryDB.WriteRange | source/melete/abci/minibank/memdb.go:158-179 | exactly the committed entries of the range reach the store |
| MemDBs.TxDB.Get | source/melete/abci/minibank/memdb.go:137-143 | reads the transaction's view: the range-limited overlay, or the shipped data overlaid by own writes |
| Conservation.TransferTotal | source/melete/abci/minibank/bank.go:369-416 | the exact change of the total money of any successful transfer, with repeated accounts and wrapping credits accounted for |
| Conservation.ConservesIff | source/melete/abci/minibank/types.go:77-102 | a transfer conserves money modulo 2^32 if and only if the amounts it overwrites sum to zero modulo 2^32, a condition on the transaction alone |
| Conservation.DistinctTotal | source/melete/abci/minibank/bank.go:374-414 | with distinct accounts the total changes by the plain sums less 2^32 per wrapping credit, and is conserved modulo 2^32 |
| Conservation.ConservesExactlyIff | source/melete/abci/minibank/types.go:86-99 | with distinct accounts and no wrapping balance the total is conserved exactly if and only if the plain sums agree |
| Conservation.TransferMoves | source/melete/abci/minibank/bank.go:378-396 | a successful transfer moves every listed balance by its amount, and no debit underflows |
| Conservation.SerialConserves | source/melete/abci/minibank/bank.go:225-259 | a run of distinct transfers conserves money modulo 2^32, whatever is kept and whatever aborts |
| Conservation.RoundConserves | source/melete/abci/minibank/bank.go:205-345 | so does a whole round of the network, cross-shard and intra-shard transactions together |
| Conservation.HistoryConserves | source/melete/abci/minibank/bank.go:205-345 | after any run of rounds, the money that the shards store, each account read at any shard that has it in its range, is what the accounts started with, modulo 2^32 |
| Conservation.SelfTransferMints | source/melete/abci/minibank/bank.go:398-414 | why distinctness is needed: paying oneself creates the amount paid |
| Conservation.WrappedSumsDestroy | source/melete/abci/minibank/types.go:86-99 | why conservation is only modulo 2^32: two debits of 2^31 pass as a credit of nothing without any balance wrapping |
| BitVectors.EncodeDecode | source/utils/bit-vector.go:25-58 | decoding the bytes of a vector gives its size and its elements back |
| BitVectors.BitLayout | source/utils/bit-vector.go:67-75 | bit 8q + k of a vector is bit k of byte q, the lowest first |
| BitVectors.DecodableIff | source/utils/bit-vector.go:40-58 | which byte strings decode, by their first byte and their length, to which size and elements |
| BitVectors.BitVector.GetIndex | source/utils/bit-vector.go:67-75 | reads the bit, and false out of range |
| BitVectors.BitVector.SetIndex | source/utils/bit-vector.go:87-100 | sets that bit and no other, and answers whether the index was below the size, also for the indices from -7 to -1, which change nothing |
| BitVectors.BitVector.Byte | source/utils/bit-vector.go:25-38 | one byte with the number of unused bits, then the elements; they decode to the same bits |
| BitVectors.BitVector.And | source/utils/bit-vector.go:151-165 | the bitwise intersection over the shorter length; without another vector the answer is nil |
| BitVectors.FromByte | source/utils/bit-vector.go:40-58 | rebuilds size and bits, or answers nil exactly for a single byte with a positive count of unused bits |
| RangeTreeModel.SearchIsMembership | source/utils/RangeTree.go:314-324 | search answers membership in the interval set that the one-bound encoding stands for |
| RangeTreeModel.RangesListKeys | source/utils/RangeTree.go:325-333 | the listed intervals are sorted, do not overlap, and hold exactly the tree's keys |
| RangeTreeModel.AddNodeCovers | source/utils/RangeTree.go:136-216 | adding at a node gives exactly the node's keys and the new interval, in a well-formed tree, in all overlap cases |
| RangeTreeModel.DeleteNodeCovers | source/utils/RangeTree.go:218-312 | deleting at a node leaves exactly its keys outside the interval; what remains, a promoted child included, is well-formed and stores the bound of the node's side |
| RangeTreeModel.AddRangeUnites | source/utils/RangeTree.go:30-74 | on any well-formed tree the result is well-formed and holds exactly the old keys and [low, high) |
| RangeTreeModel.DeleteRangeRemoves | source/utils/RangeTree.go:76-91 | on any well-formed tree the result is well-formed and holds exactly the old keys outside [low, high) |
| RangeTreeModel.AddForestUnites | source/utils/RangeTree.go:100-105 | adding a tree through its interval list gives the union of the two key sets |
| RangeTreeModel.HistoryIsMeant | source/utils/RangeTree.go:23-91 | after any history of adds and deletes the tree is well-formed and search decides the set the history means |
| RangeTrees.RangeTreeNode.AddRange | source/utils/RangeTree.go:136-216 | the in-place addition at a node produces the specified tree |
| RangeTrees.RangeTreeNode.DeleteRange | source/utils/RangeTree.go:218-312 | the in-place deletion at a node produces the specified tree or removes the node, with the specified bounds |
| RangeTrees.RangeTreeNode.Settle | source/utils/RangeTree.go:275-311 | re-assembles the node from what the children kept; the "not one of the bounds" panic is unreachable from a node that stores one of its bounds |
| RangeTrees.RangeTreeNode.Search | source/utils/RangeTree.go:314-324 | the recursive search computes the specified answer |
| RangeTrees.RangeTreeNode.Range | source/utils/RangeTree.go:325-333 | appends the specified intervals |
| RangeTrees.RangeTree.AddRange | source/utils/RangeTree.go:30-74 | a key is held afterwards exactly when it was held or lies in [low, high) |
| RangeTrees.RangeTree.DeleteRange | source/utils/RangeTree.go:76-91 | a key is held afterwards exactly when it was held and lies outside [low, high) |
| RangeTrees.RangeTree.Search | source/utils/RangeTree.go:23-28 | answers whether the key is held |
| RangeTrees.RangeTree.Range | source/utils/RangeTree.go:93-98 | a sorted list of disjoint intervals that hold exactly the held keys |
| RangeTrees.RangeTree.Add | source/utils/RangeTree.go:100-105 | a key is held afterwards exactly when either tree held it; a tree that shares no node with this one is unchanged |
| KeyOrder.PositionOrder | source/utils/RangeTree.go:335-341 | byte strings in their usual order embed into the keys of the model |
| MerkleTree.SplitIsLargest | source/crypto/merkle/tree.go:95-106 | the split point is the power of two k with k < n <= 2k |
| MerkleTree.SplitDoubles | source/crypto/merkle/tree.go:95-106 | split(n) = 2 split(ceil(n/2)) for n > 2 |
| MerkleTree.PairUpKeepsRoot | source/crypto/merkle/tree.go:71-88 | hashing neighbours in pairs keeps the root of section 2.1 of RFC 6962 |
| MerkleTree.RootIsTreeHash | source/crypto/merkle/tree.go:9-20 | the recursive root is the Merkle tree hash of section 2.1 of RFC 6962, down to the hashed bytes |
| MerkleTree.HashFromByteSlicesIterative | source/crypto/merkle/tree.go:62-93 | the in-place pairwise algorithm returns the recursive root of every list |
| MerkleProof.RootBinds | source/crypto/merkle/tree.go:9-20 | lists of any lengths with equal roots are equal, or two inputs with equal hash are exhibited from them |
| MerkleProof.AuntsLeadToRoot | source/crypto/merkle/proof.go:143-173 | the audit path of section 2.1.1 of RFC 6962 of the item that an index and a total reach in a tree of any size, walked by the checker, leads to the root |
| MerkleProof.AuntsAreFew | source/crypto/merkle/proof.go:99-118 | a list of at most 2^e items has audit paths of at most e hashes |
| MerkleProof.GeneratedProofVerifies | source/crypto/merkle/proof.go:36-79 | every generated proof passes both checks for its own item, for up to 2^100 items |
| MerkleProof.PassingProofReaches | source/crypto/merkle/proof.go:143-173 | a passing proof of any index and total carries the hash of its leaf, which is the item at which its path ends in the tree, or two inputs with equal hash are exhibited from proof and tree |
| MerkleProof.ReachedItemHasProof | source/crypto/merkle/proof.go:143-173 | conversely, every item that an index and a total reach has a passing proof with them |
| MerkleProof.PassingProofMeans | source/crypto/merkle/proof.go:53-79 | a passing proof with the right total is for the list's own item, or two inputs with equal hash are exhibited from proof and tree |
| MerkleProof.WrongTotalPasses | source/crypto/merkle/proof.go:143-173 | the total must be right: for every list of three items, a proof that calls the third item the second of two passes both checks |
| ProofTrails.FlattenAunts | source/crypto/merkle/proof.go:189-206 | walking a linked trail collects exactly its aunts |
| ProofTrails.TrailsFromByteSlices | source/crypto/merkle/proof.go:208-228 | the linked trails carry, for every item, its audit path, and end in the root |
| ProofTrails.ProofsFromByteSlices | source/crypto/merkle/proof.go:36-49 | the root is the recursive root and proof i is the proof of item i |
| PartSets.SplitByteArray | source/utils/compare-bytes.go:36-46 | the pieces join to the data, none is empty, all but the last have the full size |
| PartSets.PassingIndexInRange | source/melete/types/block-part.go:195-211 | a passing proof against a 32-byte root names an index below its total, so the slot access cannot fail |
| PartSets.FilledAll | source/melete/types/block-part.go:213 | the count equals the size exactly when every slot is filled |
| PartSets.PartSet.AddPart | source/melete/types/block-part.go:195-211 | accepted if and only if its slot is free, height, round, chain and total are those of the header, and its proof passes; otherwise the first of these that fails is answered; an accepted part fills its own slot and raises the count by one, anything else changes nothing |
| PartSets.PartSet.GenBytes | source/melete/types/block-part.go:214-223 | bytes come out exactly when every slot is filled, joined in slot order |
| PartSets.PartSetFromBytes | source/melete/types/block-part.go:166-193 | the sender's set is complete and sound, its pieces join to the data |
| PartSets.GoodPartAccepted | source/melete/types/block-part.go:195-211 | every part that the sender makes is accepted into its empty slot, whatever else the set holds |
| PartSets.Collect | source/melete/types/block-part.go:195-223 | if every part of a block is among those offered to an open set, in any order, any number of times and among any others, the set is complete and its bytes are the block's, or a collision is exhibited |
| PartSets.Reassembly | source/melete/types/block-part.go:195-236 | a complete set under a split block's header joins to exactly that block's bytes, or a collision is exhibited |
| Blocks.ContentIsFree | source/melete/types/block.go:264-281 | a block that comes with 32-byte roots keeps its hash under any other content |
| Blocks.HashBindsHeader | source/melete/types/block.go:42-66 | two blocks with one hash agree in every header field it is taken over, type and height modulo their widths, or a collision is exhibited |
| Blocks.ReadDataIsFree | source/melete/consensus/main.go:784-787 | the read data of a C-shard's proposed block is not under its hash |
| Blocks.StrippedKeepsHash | source/melete/consensus/main.go:479-487 | a C-shard's block without inner transactions has the same hash |
| Blocks.RootsBindContent | source/melete/types/block.go:264-274 | equal roots mean equal bodies, read data and relations, or a collision is exhibited |
| Blocks.SameContentIff | source/melete/types/block.go:276-282 | of two blocks with one hash, the first with true roots, the second has the same content if and only if its roots are true as well, or a collision is exhibited |
| Blocks.MadeRootsTrueIff | source/melete/consensus/main.go:784-787 | the roots of a C-shard's proposed block are true if and only if it ships no read data, or there is a collision |
| Quorum.QuorumsIntersect | source/melete/consensus/height_datas.go:128-143 | two quorums share a validator outside any set of at most a third of the weight |
| Quorum.TwoThirdsIs | source/melete/consensus/height_datas.go:128-143 | rounding the threshold down changes nothing: the gate asks for three times the votes to exceed twice the total |
| Quorum.Threshold32SoundIff | source/melete/consensus/constypes/vote.go:653 | the int32 threshold means two thirds for every vote count if and only if the total is below 2^30 |
| Quorum.OneMajority | source/melete/consensus/constypes/cas_set.go:66-76 | at most one key has more than two thirds |
| VoteSets.VoteSet.AddVote | source/pyramid/consensus/constypes/vote_set.go:51-84 | a first vote is recorded and tallied, others are answered with the specified error; the decision flag is right afterwards |
| VoteSets.VoteSet.GetMaj23AggreSig | source/pyramid/consensus/constypes/vote_set.go:89-106 | the returned bits are the deciding voters and weigh exactly the winning tally; the k-th signature is that of the k-th marked validator, and there are no others |
| VoteSets.RecordingIgnoresOrder | source/pyramid/consensus/constypes/vote_set.go:51-84 | any order and repetition of the same non-equivocating votes records the same votes |
| VoteSets.DecisionIgnoresOrder | source/pyramid/consensus/constypes/vote_set.go:63-88 | collectors that recorded the same votes decide alike |
| VoteSets.Deliver | source/pyramid/consensus/constypes/vote_set.go:51-84 | feeding a delivery to a collector records what the specification says |
| CrossShardVotes.CSAShardSet.AddCSA | source/melete/consensus/constypes/cas_set.go:46-78 | added if and only if it is the first of a known validator, of this height and chain, and signed; never answered "two voting sets"; tallies weigh the distinct recorded voters; a decided key stays |
| CrossShardVotes.CSAShardSet.CheckAnswers | source/melete/consensus/constypes/cas_set.go:46-65 | which answer every other accept gets |
| CrossShardVotes.CSAShardSet.FlagIff | source/melete/consensus/constypes/cas_set.go:66-78 | a collector is decided if and only if the accepts for some status weigh more than two thirds |
| CrossShardVotes.CSAShardSet.GetMaj23 | source/melete/consensus/constypes/cas_set.go:85-90 | the decided status and exactly the accepts of its recorded voters |
| CrossShardVotes.SumVotes | source/melete/consensus/constypes/vote.go:647-652 | the weight of the marked peers |
| CrossShardVotes.CheckVote | source/melete/consensus/constypes/vote.go:636-661 | the verdict on one chain's part of a certificate, with lists of any lengths |
| CrossShardVotes.PartValidIff | source/melete/consensus/constypes/vote.go:636-661 | a part is valid if and only if the lists reach that far, there is a bit for every peer, the marked peers weigh more than two thirds, and the aggregate holds exactly their signatures over the claimed accept; and when each error is given |
| CrossShardVotes.PartsAgree | source/melete/consensus/constypes/vote.go:552-559 | two valid parts for the same C-shard and height claim the same accept, if at most a third of the chain's weight equivocates |
| CrossShardVotes.CertificatesAgree | source/melete/consensus/height_datas.go:445-466 | cross-shard agreement: two valid certificates for a C-shard and height agree on the block hash and on every I-shard's status; they carry the same statuses altogether if and only if the ones beyond those agree |
| CrossShardVotes.LongerIsCertified | source/melete/consensus/constypes/vote.go:547-559 | a valid certificate with further statuses is another valid certificate with the same signatures |
| Certificates.ExtrasHarmlessIff | source/melete/consensus/main.go:671-685 | for every certificate with a readable certified part: its statuses can be read if and only if the further ones can; then it makes a shard execute the certified intersection if and only if either no further status is missing and all are above it, or those after the last missing one combine to it |
| Certificates.HonestSigner | source/melete/consensus/constypes/vote.go:636-661 | behind every part of a valid certificate there is an honest validator's signature, if the faulty weight is below two thirds |
| Certificates.CertifiedPartDecodes | source/melete/abci/minibank/bank.go:64-164 | the certified part of a valid certificate always decodes, because honest validators sign what the application encodes |
| Certificates.OneMoreFails | source/utils/bit-vector.go:40-58 | one further status that does not decode leaves a certificate valid and makes its execution fail |
| Certificates.SameVector | source/melete/consensus/main.go:671-685 | without further statuses, two valid certificates make a shard execute the same vector |
| Certificates.OneMoreClears | source/melete/consensus/main.go:675-682 | one further status without any bit clears the executed vector of a certificate that stays valid |
| Certificates.MissingVectorResets | source/melete/consensus/main.go:675-682 | after a status that decodes to no vector, a valid certificate can carry any vector at all |
| Certificates.DecidedOnce | source/melete/consensus/height_datas.go:386-416 | two decided proposals of a C-shard for one height carry one block hash, if at most a third of its weight precommits twice |
| Certificates.HeldBlockIsCertified | source/melete/consensus/main.go:668-685 | the certificate and the proposal that a shard holds for a C-shard carry one block hash, although they are never compared |
| Commitments.CertifiedIsKeep | source/melete/consensus/main.go:671-685 | the certified part of a held certificate combines to the commit vector of the round: the intersection of the votes that all related I-shards' applications computed |
| Commitments.ExecutesKeepIff | source/melete/consensus/main.go:666-690 | a shard executes exactly that commit vector if and only if the further statuses can be read and do no harm |
| CrossShardVotes.EmptyCertificatesDiffer | source/melete/consensus/height_datas.go:455-466 | the list must not be empty: two empty certificates are valid and name different blocks |
| CrossShardVotes.Bundle | source/melete/consensus/height_datas.go:544-553 | marks exactly the listed validators and aggregates their signatures |
| CrossShardVotes.AggregateIsExpected | source/utils/signer/bls.go:58-77 | accepts of distinct validators over one message aggregate to what verification expects |
| CrossShardVotes.BuiltAggregateVerifiesIff | source/melete/consensus/constypes/cas_set.go:66-76 | the collector counts by status alone: the aggregate of its winning list verifies if and only if every listed accept is the claimed one |
| CrossShardVotes.CollectedPartValidIff | source/melete/consensus/height_datas.go:540-560 | so a part that repeats a decided collector is valid if and only if every counted accept is the claimed one |
| HeightStates.AddBallotKeepsBox | source/melete/consensus/height_datas.go:341-384 | a set bit means a recorded vote for the proposal, and the total weighs the set bits, after every vote |
| HeightStates.BallotRecorded | source/melete/consensus/height_datas.go:341-384 | a vote is recorded if and only if it is signed, of this height and round, and of a validator that is not counted yet |
| HeightStates.ProposalCountsEarly | source/melete/consensus/height_datas.go:482-512 | a proposal that comes after some votes keeps and counts them |
| HeightStates.GatesOpenIff | source/melete/consensus/height_datas.go:106-146 | the gates of a round are open if and only if proposal and own block are held and, for the later ones, three times the weight of the recorded votes for the proposal exceeds twice the total |
| HeightStates.DeliveredCounts | source/melete/consensus/height_datas.go:341-384 | whatever else is delivered, in whatever order, a good vote for the proposal is counted |
| HeightStates.QuorumDecides | source/melete/consensus/height_datas.go:106-146 | with proposal and own block held, any delivery with good votes of a quorum opens all gates |
| HeightStates.AdvancedIff | source/melete/consensus/main.go:352-403 | a node leaves each in-shard step if and only if that step's gate is open, with the vote or decision that goes with it |
| HeightStates.OwnVoteRecorded | source/melete/consensus/main.go:432-454 | a node's own vote is recorded as it moves on |
| HeightStates.EventsKeepRound | source/melete/consensus/height_datas.go:106-146 | every event of a round keeps vote totals and the condition of every passed gate |
| Assemblies.TakeKeepsAssembly | source/melete/consensus/height_datas.go:313-335 | a part, on time or early, keeps every part set sound and every stored block under the hash it was announced with |
| Assemblies.TakeAllGrows | source/melete/consensus/height_datas.go:303-307 | re-offering a chain's early parts loses no block, renames no part set and touches no other chain |
| Assemblies.AssembledIsSent | source/melete/consensus/height_datas.go:325-331 | a block put together under the header of a split block is that block, or a collision is exhibited |
| Assemblies.PartsAssemble | source/melete/consensus/height_datas.go:285-339 | so in a node: once a set is announced and every part of the block came before or after that, in any order and among any other parts of any chains, the sent block is there, or a collision is exhibited |
| Assemblies.TakeEarly | source/melete/consensus/height_datas.go:313-324 | a part that comes before its set is announced is kept behind the earlier ones; one of another height or round is dropped |
| Assemblies.WelcomeIff | source/melete/consensus/height_datas.go:313-339 | a part is taken without complaint exactly if it fills a slot and, should that close the set, gives the block |
| Assemblies.AnyContentPasses | source/melete/consensus/height_datas.go:325-331 | a second part set under the same block hash is accepted with any other content, as long as the block comes with its roots |
| HeightDatas.HeightData.constructor | source/melete/consensus/height_datas.go:58-67 | a fresh height satisfies the invariant and holds nothing; no accept is recorded |
| HeightDatas.HeightData.NextHeight | source/melete/consensus/height_datas.go:68-73 | the height goes up by one; everything else is forgotten, part sets, blocks and early parts included, and the fresh collectors have recorded nothing |
| HeightDatas.HeightData.FinishProposal | source/melete/consensus/height_datas.go:106-120 | passes exactly when proposal and own block are held, or it was passed before |
| HeightDatas.HeightData.FinishPrevote | source/melete/consensus/height_datas.go:121-133 | passes exactly when the propose gate does and the prevotes counted for the proposal exceed two thirds, or it was passed before |
| HeightDatas.HeightData.FinishPrecommit | source/melete/consensus/height_datas.go:134-146 | passes exactly when the prevote gate does and the precommits counted for the proposal exceed two thirds, or it was passed before |
| HeightDatas.HeightData.GatesHere | source/melete/consensus/height_datas.go:106-146 | when the in-shard gates of a node are open, in terms of what it holds and of the recorded weights |
| HeightDatas.HeightData.CrossGatesOpenIff | source/melete/consensus/height_datas.go:148-244 | when the cross-shard gates are: with every related proposal, block and certificate, or with accepts of more than two thirds for one status of every related I-shard |
| HeightDatas.HeightData.FinishCrossShardAccept | source/melete/consensus/height_datas.go:148-172 | passes exactly when the earlier gates do and every related proposal and block is held |
| HeightDatas.HeightData.FinishCrossShardProposal | source/melete/consensus/height_datas.go:174-187 | comparing the counter means exactly that every related I-shard has a two-thirds accept |
| HeightDatas.HeightData.FinishCrossShardCommit_I | source/melete/consensus/height_datas.go:188-205 | passes exactly when the accept gate does and every related certificate is held |
| HeightDatas.HeightData.FinishCrossShardCommit_B | source/melete/consensus/height_datas.go:206-244 | passes exactly when the certifying gate does and blocks, proposals and certificates of the neighbourhood are held |
| HeightDatas.HeightData.AddProposal | source/melete/consensus/height_datas.go:285-311 | refused with the right answer if there is one, or it is for another height, proposer or shard, or unsigned; otherwise the votes and the parts that came before it are counted and assembled |
| HeightDatas.HeightData.AddPart | source/melete/consensus/height_datas.go:313-339 | placed, kept aside or refused as specified; the own block changes only to the block announced for this shard, and no gate closes |
| HeightDatas.HeightData.AddPrevote | source/melete/consensus/height_datas.go:341-362 | fails exactly for an index whose bit cannot be looked up; refused with the right answer if counted already, for another height, out of range or unsigned; otherwise recorded, and counted exactly if it names the proposal; the whole invariant is kept |
| HeightDatas.HeightData.AddPrecommit | source/melete/consensus/height_datas.go:364-384 | the same for precommits, which are recorded with the code they are signed over and counted by hash alone |
| HeightDatas.VoteAnswers | source/melete/consensus/height_datas.go:341-384 | the answers to a vote in plain terms; "added" is answered if and only if the vote is recorded |
| HeightDatas.HeightData.AddCrossShardProposal | source/melete/consensus/height_datas.go:386-416 | kept exactly when it is new, of this height, and signed by two thirds of its shard's weight over its hash, its code and the round of its header |
| HeightDatas.CspAnswers | source/melete/consensus/height_datas.go:386-416 | the verdicts on a proposal of another shard in plain terms, with its signature and its weight |
| HeightDatas.HeightData.AddCrossShardAccept | source/melete/consensus/height_datas.go:418-443 | refused with the right answer if not for this height, shard or a related chain, or by the collector; otherwise recorded in that chain's collector and in no other; the counter stays the number of related shards with a two-thirds accept |
| HeightDatas.HeightData.AddCrossShardCommit | source/melete/consensus/height_datas.go:445-479 | for lists of any lengths: kept if and only if it is new, of this height, from a neighbour, and certified; each reason to refuse it has its answer; fails exactly where a check reads past a list; further statuses do not matter |
| HeightDatas.Recalculate | source/melete/consensus/height_datas.go:482-512 | the recount after a late proposal sets exactly the bits of the votes that name it |
| HeightDatas.JudgedIsCertified | source/melete/consensus/height_datas.go:455-466 | passing the loop over the parts is being certified, in both directions and for lists of any lengths |
| HeightDatas.FirstBadPart | source/melete/consensus/height_datas.go:455-466 | otherwise the first part that is not in order decides the answer |
| HeightDatas.CountedVerifiesIff | source/melete/consensus/constypes/vote.go:327-335 | the aggregate of the counted precommits verifies as a decision in favour if and only if every one of them is signed over that code |
| HeightDatas.OneAgainstSpoils | source/melete/consensus/height_datas.go:364-384 | four equal validators: three in favour are enough, and their aggregate with a counted fourth that is signed over another code does not verify |
| HeightDatas.HeightData.GenerateAggregatePrecommitSignature | source/melete/consensus/height_datas.go:515-530 | no counted precommit is missing; the result claims approval of the proposal with exactly the counted signatures, and is accepted if and only if all of them are over that code |
| HeightDatas.HeightData.FinishPrecommits | source/melete/consensus/main.go:456-502 | every shard at this height accepts the shard's own decided proposal if and only if every counted precommit is in favour; otherwise its aggregate does not verify |
| HeightDatas.HeightData.GenerateCrossShardCommit | source/melete/consensus/height_datas.go:532-563 | no collector is missing or undecided; the certificate repeats the collectors, and is valid for the neighbours if and only if every counted accept is for this shard's own block |
| HeightDatas.HeightData.GatheredMeans | source/melete/consensus/height_datas.go:540-560 | each gathered status has recorded accepts of more than two thirds of its chain's weight, and the bits mark exactly who recorded it |
| HeightDatas.HeightData.RelatedBlock | source/melete/consensus/main.go:511-514 | past the accept gate every related block is held and has the block hash its shard decided |
| HeightDatas.HeightData.Propose | source/melete/consensus/main.go:785-801 | stores the proposer's own proposal, block and part set on a fresh round |
| Consensus.ConsensusState.Next | source/melete/consensus/main.go:144-153 | the next step, or the next height after the last step |
| Consensus.ConsensusState.DoPropose | source/melete/consensus/main.go:432-441 | prevotes for the own block and moves on |
| Consensus.ConsensusState.DoPrevote | source/melete/consensus/main.go:444-454 | precommits for the block it prevoted and moves on |
| Consensus.ConsensusState.DoPrecommit | source/melete/consensus/main.go:456-502 | keeps the decided proposal under the announced header and moves on; the other shards accept it if and only if every counted precommit is in favour |
| Consensus.ConsensusState.DoCSA | source/melete/consensus/main.go:504-532 | one accept per related C-shard, signed by this validator, for the block hash that shard decided and with the status the application voted; none of them was signed before |
| Consensus.ConsensusState.DoCSP | source/melete/consensus/main.go:534-541 | makes and keeps the certificate that repeats the decided collectors; it is valid for the neighbours if and only if every counted accept is for the own block |
| Consensus.ConsensusState.ExecutionAllBlocks | source/melete/consensus/main.go:666-690 | reads exactly the blocks of the given shards, none of which is missing, and the combined vectors of their certificates; fails if and only if a status of one of them cannot be read |
| Consensus.ExecutedOnce | source/melete/consensus/main.go:666-690 | each listed shard is executed once, with its held block and the vector its held certificate combines to, and no other shard is |
| Consensus.ConsensusState.DoCSC_C | source/melete/consensus/main.go:543-623 | executes exactly the cross-shard blocks and combined vectors of the shard and its second-level neighbours and the blocks of the shard and its I-shards, none of which is missing, and starts a fresh height; it fails, and changes nothing, if and only if a status cannot be read |
| Consensus.ConsensusState.DoCSC_I | source/melete/consensus/main.go:624-664 | executes exactly the blocks and combined vectors of its C-shards and its own block, none of which is missing, and starts a fresh height; it fails, and changes nothing, if and only if a status cannot be read |
| Consensus.ConsensusState.EnterNewHeight | source/melete/consensus/main.go:693-705 | the node starts the next height in its propose step |
| Consensus.ConsensusState.HandleStateTransition | source/melete/consensus/main.go:352-403 | one turn of the loop, in any step, is one action of an honest node in the runs below, and keeps every invariant; it moves on if and only if the gate of its step is open, with the proposal, accepts or blocks that go with it; it fails only in the commit step, on a held status that cannot be read |
| Consensus.ConsensusState.DoMessage | source/melete/consensus/main.go:261-350 | any message that passed the checks on receipt is at most one event of the node's round, has exactly its effect on what the node holds, and keeps every invariant; the messages on which the source fails are named exactly |
| Consensus.ConsensusState.CreateBlock | source/melete/consensus/main.go:785-801 | proposing stores the proposal, its part set and its block, and is one action of an honest node in the runs below |
| Consensus.ProposesOnce | source/melete/consensus/main.go:405-407 | in any n heights in a row each of n validators proposes exactly once |
| Consensus.ConsensusState.NeverEquivocates | source/melete/consensus/main.go:504-532 | a validator whose signatures come from its step machine never signs two accepts for one C-shard and height |
| InShard.StepKeepsInv | source/melete/consensus/main.go:352-403 | every action of a system of honest and faulty validators keeps the system invariant |
| InShard.HonestSignsOnce | source/melete/consensus/main.go:444-454 | in every run an honest validator signs at most one precommit per height |
| InShard.DecisionIsBacked | source/melete/consensus/height_datas.go:134-146 | passing the precommit gate means signatures of two thirds of the weight for the block hash of the node's proposal exist |
| InShard.Agreement | source/melete/consensus/height_datas.go:121-146 | in every run, two nodes that pass the precommit gate at one height hold proposals of one block hash, if at most a third of the weight is faulty |
| Decisions.EveryoneDecides | source/melete/consensus/main.go:352-403 | decisions are made: if less than a third of the weight is faulty, some run lets every honest validator decide any proposed hash, though the faulty ones never vote |
| CLists.CElement.SetNext | source/libs/clist/clist.go:158-177 | the wait for a next element is open exactly when there is none; it is never released twice and only a released one is replaced |
| CLists.CElement.SetPrev | source/libs/clist/clist.go:181-195 | the same for the wait for a previous element |
| CLists.CElement.SetRemoved | source/libs/clist/clist.go:197-212 | removal releases both waits, each once |
| CLists.EveryWaitIsReleased | source/libs/clist/clist.go:158-212 | over any history of a wait, every generation that was left behind had been released |
| CLists.CList.PushBack | source/libs/clist/clist.go:316-352 | appends to both chains; nobody who waits is left on a wait that is never released |
| CLists.CList.Remove | source/libs/clist/clist.go:356-401 | removes exactly that element from both chains and releases who waits on it |
| CLists.CList.Forward | source/libs/clist/clist.go:260-265 | walking forward from the front meets the sequence |
| CLists.CList.Backward | source/libs/clist/clist.go:283-288 | walking backward from the back meets the same sequence |

## Left out

- Network, logging, configuration, timers, random transactions and latency tools: input and output only.
- BLS arithmetic, protobuf encoding, RocksDB, GoLevelDB and the B-tree: foreign code, idealised as said above.
- Insert transactions, `MemoryDB.Has`, and `BitVector.Or`, `Sub` and `Not`: outside the transfer path.
- The Pyramid and Rapid applications and step machines: of the baselines only Pyramid's vote set is modelled.
- Transaction bytes: a transaction is a decoded transfer or undecodable; an unknown type counts as undecodable.
- Receipts carry their code; log texts and commit counters are left out. Receipts of a round are listed by block, not by chain name.
- Minibank.Application.Execution: the goroutines run in list order; that the order does not matter is `CrossShard.WriteOrderIrrelevant` and, for intra-shard blocks, `CrossShard.InnerBlocksCommute`.
- Minibank.FreshCheck: Go's random map order is an arbitrary choice of the next key.
- Rounds.CombineStatuses: where the source fails on a status, the method answers so. A missing vector counts as the empty one when it is executed.
- BitVectors.FromByte: two or more bytes whose count of unused bits does not fit their length are excluded; the source fails on them, and `Rounds.CombineStatuses` says so.
- BitVectors.BitVector.GetIndex: an index of -8 or less makes the source fail and is excluded, as in SetIndex; votes with such an index are included in HeightDatas.HeightData.AddPrevote and AddPrecommit.
- PartSets.PartSet.AddPart: expects a part that passed its basic validation and a root of 32 bytes, as the receiving code checks.
- PartSets.PartSet.GenBytes: ends with the joined bytes; decoding and the checks on the decoded block are in `Assemblies.GenBlock`.
- HeightDatas.HeightData.AddCrossShardCommit: the validator bits of a certificate are decoded already, and no vector counts as the empty one.
- HeightDatas.HeightData.AddCrossShardAccept: forwarding of messages to other shards is left out, here and elsewhere.
- HeightDatas.HeightData: the round is always 0, as nothing in the source raises it. Part sets are values here; `PartSets.PartSet` is their in-place form.
- Consensus.ConsensusState.DoPropose: the panics on a mismatch of pre-execution, receipt root or state root are left out.
- Consensus.ConsensusState.DoCSA: the application's votes are a parameter, and the shards come in any order; that all validators sort them alike is not modelled.
- Consensus.ConsensusState.DoCSC_C: receipt trees, the block store and mempool updates are left out, here and for the I-shard.
- Consensus.ConsensusState.DoMessage: messages for later heights arrive when their height is entered; the buffer that holds them back is left out. A turn or a message on which the source fails ends the node there; the model only reports it.
- InShard.Agreement: precommits may be signed over any code, which the agreement does not depend on. Liveness under every schedule is left out; `HeightStates.QuorumDecides` and `Decisions.EveryoneDecides` say what deliveries suffice. A single-validator shard may advance for ever.
- Networks.NextInStep: C-shards ship what they record and agree on the round's blocks; a shipped block that is not recorded from the C-shard's own store is in `CrossShard.RecheckClosedIff`. A C-shard without I-shards, whose commit vector is no intersection, is excluded. Which blocks and certificates reach a shard is in `HeightDatas` and `Certificates`, and what a certificate makes of the votes in `Commitments`.
- Blocks.ContentIsFree: the time of a header is its bytes, and the body root counts the hashes of transactions.
- MerkleTree.HashFromByteSlicesIterative: the leaf hashes are written by an array initialiser instead of a loop.
- RangeTrees.RangeTree: parsing a tree from a string is left out.
- CLists.CList.PushBack: a full list panics in the source and is excluded. Locks are left out, and a blocking wait is its condition.
- VoteSets.VoteSet.AddVote: the weight of a vote is the recorded weight of its validator.
