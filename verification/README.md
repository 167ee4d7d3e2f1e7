# Verified model of the wallet core

This project models the C core of an SPV wallet (`app/src/main/jni/msmwallet-core`) in Dafny and proves what its parts
are for. `dafny verify dfyconfig.toml` checks it.

| modules | model |
|---|---|
| ProbeTable, HashSet | the linear-probing set and the states in the middle of a removal |
| Bits, Bytes, Poly1305, Rfc7539Example, ChaCha20, Aead | the authenticator in 26-bit limbs, the stream cipher around an abstract block function, and their combination |
| MerkleTree, MerkleBlock, MerkleTwins, Difficulty | partial Merkle trees and repeated transactions in them, proof of work and retargeting along a chain |
| Ledger, Statuses, TxOrder, Wallets, CoinSelection, Splits | balance, which transactions are invalid or pending, order of transactions, removal, choice of coins, payments that do not fit into one transaction |
| BlockTree, ChainSteps, ChainRuns, PeerManager | the chain of blocks, one delivered block as a step on values, runs of steps, and what they do to heights and times in the wallet |
| AesTables, AesField, Aes, AesStandard | AES-256 with its key schedule run forwards and backwards in place, and that it is the standard one |
| Radix, Base58, Bech32Checksum, Bech32Code, Bech32Groups, Bech32, Bech32RoundTrip, Bech32Errors, Bech32Example | addresses, and which wrong ones are refused |
| VarInts, Scripts, Transactions, TransactionParse, TransactionRoundTrip, TransactionSize | transactions as bytes |

State that the code changes in place is a class with these fields (`HashSet.Set`, `Wallets.Wallet`,
`PeerManager.PeerManager`) or an array; each such method is tied to functions over values, and the properties are
proved about those. Hash functions, the ChaCha block function, equality and table hashing are parameters. Hashes name
transactions and blocks; that nothing spends or precedes itself is stated with a rank function for transactions and
a tree of heights for blocks. Two views of a transaction are modelled: `Ledger.Tx` holds what the wallet looks at, with
its size as a number; `Transactions.Tx` holds what is written as bytes, and `TransactionSize.Size` is that number.

## Findings

Where the code does not do what it is for, the exact condition is proved and a concrete case given.

- A created transaction can pay less than the fee for its own size: when a change output makes the count of outputs
  longer, which happens for 252 payments only, and the rounding does not cover the two bytes. Exactly when:
  `CoinSelection.PaysFeeIff`; case: `CoinSelection.LongCountUnderpays`.
- A payment that does not fit into one transaction can make the wallet call itself for ever: the last payment is cut
  down to what the outputs that fit bring in, less a fee that was rounded for the payment before the cut, so the smaller
  request may again ask for a little too much, or too little. If the outputs that fit are worth their fees and the
  wallet is ample, it stops exactly if what stays in the wallet is a multiple of 100: `Splits.EndsIff`; case:
  `Splits.NeverEnds`. The cut that is meant to reduce the last payment raises it if the outputs bring in more than is
  due: `Splits.CutIs`.
- The retarget in compact form is not the compact form of the exact target for a previous target without its leading
  byte. Exactly when: `Difficulty.RetargetIsExactIff`; case: `Difficulty.RetargetNeedsNormalized`. A time difference
  that does not fit an int is clamped to the wrong end: `Difficulty.TimespanConversion`,
  `Difficulty.TimespanConversionFails`.
- A lock time that counts blocks is compared with the clock as well. That makes a difference exactly for heights already
  reached that are larger than the time in seconds, so for no time after 1985: `Statuses.FutureIsLockedIff`.
- Table sizes are said to grow by one half and then to the next prime. One of them does not reach half more than the
  size before: `HashSet.SizesGrowByHalf`.
- Unspent and spent outputs can overlap (`Ledger.UnspentDisjointIff`, `Ledger.PendingSpendOverlaps`).
- Removing a transaction leaves descendants that are lower than what they spend (`TxOrder.RemovalCompleteIff`,
  `Wallets.LowChildStays`).
- A block that arrives again, or a longer fork, can make a walk run out of stored blocks, because old blocks are
  pruned. Exactly when: `ChainSteps.Handled` and `ChainSteps.Loses`, in the contracts of the methods of
  `PeerManager.PeerManager`. Two states that are reached from the first block alone by delivering blocks, across two
  difficulty transitions: in `ChainRuns.StuckState` the walk down the main chain dereferences a missing block, in
  `ChainRuns.LostState` the walk back from the fork runs out of the main chain.
- The Bech32 encoder accepts prefixes whose address is too long for the decoder and for its own buffer: it counts
  bytes where digits are written. It also accepts an empty prefix. Exactly when: `Bech32RoundTrip.DecodeEncoded`; case:
  `Bech32RoundTrip.LongPrefixIsLost`.
- Parsing does not restore unsigned inputs of amount zero, unsigned inputs with an unknown script, or signatures that
  are known scripts. Exactly when: `TransactionSize.ParseRestores`; case: `TransactionSize.ZeroAmountIsLost`.

## Model

| member | source | states |
|---|---|---|
| HashSet.FirstFits | app/src/main/jni/msmwallet-core/BRSet.c:49-69 | a new table takes the entry behind the first listed size that holds the capacity, which is the smallest size with that property |
| HashSet.LimitLeavesRoom | app/src/main/jni/msmwallet-core/BRSet.c:86-117 | for every listed size the load limit leaves an empty bucket, and only at the last size can the item limit be met, so growing never runs off the list |
| HashSet.SizesGrowByHalf | app/src/main/jni/msmwallet-core/BRSet.c:32-37 | each listed size is at least half more than the one before and at most 120.5 more than that, except for one, which is 2.5 less |
| HashSet.LimitIsTwoThirds | app/src/main/jni/msmwallet-core/BRSet.c:30-115 | the load limit is two thirds of the buckets, rounded up by less than two |
| HashSet.Set.Get | app/src/main/jni/msmwallet-core/BRSet.c:193-208 | returns the one item equal to the argument if the set holds one, and nothing otherwise |
| HashSet.Set.Contains | app/src/main/jni/msmwallet-core/BRSet.c:170-173 | true exactly if the set holds an equal item |
| HashSet.Set.Add | app/src/main/jni/msmwallet-core/BRSet.c:99-117 | the set is the old one without the equal item plus the new one, at most one per equality class; below the load limit exactly one bucket changes and the table stays; the table grows, to the next listed size, exactly if the count passes the limit |
| HashSet.Set.Grow | app/src/main/jni/msmwallet-core/BRSet.c:86-96 | re-filing all items into a larger table keeps the set and the count |
| HashSet.Set.Remove | app/src/main/jni/msmwallet-core/BRSet.c:120-150 | the set loses exactly the equal item; the table never grows while the cluster is filed again, no other item ends up further behind the emptied bucket than before, and an unsuccessful removal changes no bucket |
| HashSet.Set.Clear | app/src/main/jni/msmwallet-core/BRSet.c:153-159 | leaves the same table, empty |
| HashSet.Set.Union | app/src/main/jni/msmwallet-core/BRSet.c:269-281 | the items of the other set, and those of this one that equal none of them |
| HashSet.Set.Minus | app/src/main/jni/msmwallet-core/BRSet.c:284-296 | the items that equal none of the other set |
| HashSet.Set.Intersect | app/src/main/jni/msmwallet-core/BRSet.c:299-315 | the items that equal one of the other set, although every removal moves items while the table is scanned; terminates |
| ProbeTable.CleaningStarts | app/src/main/jni/msmwallet-core/BRSet.c:134-138 | emptying a bucket establishes the broken middle state: everything before the cleaned stretch is reachable, the cluster still ends at the same empty bucket |
| ProbeTable.CleaningStep | app/src/main/jni/msmwallet-core/BRSet.c:140-146 | one turn of the clean-up keeps that state with the next bucket, wherever the item ends up |
| ProbeTable.CleaningEnds | app/src/main/jni/msmwallet-core/BRSet.c:140-147 | at the empty bucket the middle state is a well-formed table again, with exactly the removed item missing |
| ProbeTable.CleaningMoves | app/src/main/jni/msmwallet-core/BRSet.c:140-146 | if every item filed again so far has come no further from the hole, then so it is after the next one, given where that one is filed |
| ProbeTable.SlotNotBeyond | app/src/main/jni/msmwallet-core/BRSet.c:140-146 | an item that is filed again ends up no further from the hole than it was, so never past the end of the cluster |
| HashSet.RemovedHere | app/src/main/jni/msmwallet-core/BRSet.c:310-312 | one removal of that scan: after removing at the scanned bucket no item not yet scanned stands in a bucket already scanned, clusters around the end of the table included |
| Poly1305.Compress | app/src/main/jni/msmwallet-core/BRCrypto.c:675-740 | limbs in range after every block (all 32 and 64-bit intermediates are taken modulo their width and shown not to wrap) and congruent to the accumulator of RFC 7539 section 2.5 modulo 2^130 - 5; after the final block the four words are the accumulator plus the pad modulo 2^128 |
| Poly1305.FullCarry | app/src/main/jni/msmwallet-core/BRCrypto.c:714-716 | the final carries bring every limb below 2^26 and change the value by a multiple of 2^130 - 5 |
| Poly1305.Reduce | app/src/main/jni/msmwallet-core/BRCrypto.c:718-724 | the conditional subtraction leaves the residue below 2^130 - 5 |
| Poly1305.Poly1305 | app/src/main/jni/msmwallet-core/BRCrypto.c:744-755 | the tag is the RFC 7539 authenticator of the message, for every key and message |
| Poly1305.AccumulateIsPolynomial | app/src/main/jni/msmwallet-core/BRCrypto.c:686-711 | the block-by-block accumulator is the polynomial of the blocks at r, modulo 2^130 - 5 |
| Poly1305.MacIsPolynomial | app/src/main/jni/msmwallet-core/BRCrypto.c:684-734 | the authenticator the method is proved to compute, in closed form: ((sum of block_i * r^(q - i)) mod (2^130 - 5) + s) mod 2^128 |
| Rfc7539Example.TagIs | app/src/main/jni/msmwallet-core/BRCrypto.c:675-755 | the key and message of RFC 7539 section 2.5.2 give the tag listed there: clamping, block numbers, modulus and final sum are those of the standard |
| Poly1305.AccumulateChunks | app/src/main/jni/msmwallet-core/BRCrypto.c:825-829 | whole blocks may be fed in any number of calls |
| ChaCha20.Chacha20 | app/src/main/jni/msmwallet-core/BRCrypto.c:762-805 | every byte is the input byte exclusive-or the key-stream byte of block counter + i/64, the 64-bit counter carried by hand; bytes behind the data stay |
| Aead.ChunkedMac | app/src/main/jni/msmwallet-core/BRCrypto.c:825-835 | the tag fed in pieces equals one authenticator over the padded string of RFC 7539 section 2.8 |
| Aead.MacDataIs | app/src/main/jni/msmwallet-core/BRCrypto.c:825-835 | in what is authenticated, associated data and ciphertext begin at multiples of 16, zeros fill up, and the two 64-bit lengths, that of the associated data first, end it |
| Aead.MacDataDetermines | app/src/main/jni/msmwallet-core/BRCrypto.c:825-835 | so no two pairs of associated data and ciphertext are authenticated alike |
| Aead.SigmaIs | app/src/main/jni/msmwallet-core/BRCrypto.c:764-774 | the constants of the state are the text "expand 32-byte k" |
| Aead.Encrypt | app/src/main/jni/msmwallet-core/BRCrypto.c:808-839 | writes exactly the sealed message if buffer and length allow it, otherwise nothing and returns 0; without a buffer returns the length needed |
| Aead.Decrypt | app/src/main/jni/msmwallet-core/BRCrypto.c:841-874 | writes the opened message exactly if the tag is right, otherwise leaves the buffer alone and returns 0 |
| Aead.OpenIffSealed | app/src/main/jni/msmwallet-core/BRCrypto.c:808-874 | opening yields m if and only if the bytes are the sealing of m, for every key, nonce and associated data |
| Aead.NoCounterCarry | app/src/main/jni/msmwallet-core/BRCrypto.c:816-828 | the length guard keeps every block counter below 2^32 |
| Aead.CounterIsRfc | app/src/main/jni/msmwallet-core/BRCrypto.c:823-828 | with the first nonce word in the upper half of the counter, the blocks are those of RFC 7539 as long as the counter fits 32 bits |
| MerkleBlock.CeilLog2 | app/src/main/jni/msmwallet-core/BRMerkleBlock.c:37-43 | the bit trick computes the height of a tree over n leaves |
| MerkleTree.RootIsTopNode | app/src/main/jni/msmwallet-core/BRMerkleBlock.c:46-52 | pairing up rows with the last hash of an odd row doubled, and the recursive node definition, give the same root |
| MerkleTree.BuildIsCut | app/src/main/jni/msmwallet-core/BRMerkleBlock.c:54-59 | the partial tree of a matched subset keeps the root and flags exactly the matched leaves in order |
| MerkleBlock.RootR | app/src/main/jni/msmwallet-core/BRMerkleBlock.c:241-264 | the recursive walker advances both cursors as its specification does and rejects equal siblings and missing left children |
| MerkleBlock.TxHashesR | app/src/main/jni/msmwallet-core/BRMerkleBlock.c:185-210 | the same for the walker that collects hashes into a caller's buffer of limited room |
| MerkleBlock.TxHashes | app/src/main/jni/msmwallet-core/BRMerkleBlock.c:213-220 | the first hashes of that walk, as many as there is room for |
| MerkleBlock.DecodeEncoded | app/src/main/jni/msmwallet-core/BRMerkleBlock.c:185-264 | on the BIP 37 encoding of any leaves and matches both walkers return the full tree's root and the matched hashes, and consume both streams in step |
| MerkleTwins.RejectedIff | app/src/main/jni/msmwallet-core/BRMerkleBlock.c:238-264 | if no node hashes to zero, the root walker ends an encoded block with the cursor of a rejection exactly if some expanded node has equal children |
| MerkleTwins.RepetitionIsRejected | app/src/main/jni/msmwallet-core/BRMerkleBlock.c:238-258 | repeating the last of an odd number of transactions leaves the root as it is, and a block that shows one of the two is rejected in that way |
| MerkleTwins.ExampleIs | app/src/main/jni/msmwallet-core/BRMerkleBlock.c:45-62 | root, hashes and flag byte of a block with three transactions of which the last is matched, written out |
| MerkleBlock.Lockstep | app/src/main/jni/msmwallet-core/BRMerkleBlock.c:185-264 | on any input on which nothing is rejected both walkers stop at the same cursors |
| MerkleBlock.ListsOnlyLeaves | app/src/main/jni/msmwallet-core/BRMerkleBlock.c:185-264 | on any input, for any hash: without a rejection and without zero hashes, a block that yields the true root lists only leaves of the true tree, or a pair hashed on the walk collides with a different pair hashed in the tree, or hashes to zero |
| Difficulty.TargetValue | app/src/main/jni/msmwallet-core/BRMerkleBlock.c:290-291 | the bytes written for a compact target in range are the number it stands for |
| Difficulty.MeetsTarget | app/src/main/jni/msmwallet-core/BRMerkleBlock.c:293-296 | the byte-wise comparison is comparison of numbers |
| Difficulty.IsValid | app/src/main/jni/msmwallet-core/BRMerkleBlock.c:269-299 | true exactly if root, time, target range and proof of work are right |
| Difficulty.VerifyDifficulty | app/src/main/jni/msmwallet-core/BRMerkleBlock.c:327-364 | accepts exactly the block whose link, height and target are those the rule gives, in the code's compact arithmetic; off a transition an accepted block has the target of the one before |
| Difficulty.RuleIsExact | app/src/main/jni/msmwallet-core/BRMerkleBlock.c:334-361 | at a transition, from a normalized target and with a time difference that fits an int, accepted means exactly: right link, right height, and the compact form of min(floor(target * timespan / 1209600), easiest) over unbounded integers |
| Difficulty.TargetStays | app/src/main/jni/msmwallet-core/BRMerkleBlock.c:327-364 | along a chain of accepted headers all have the same target as long as no height between them is a multiple of 2016 |
| Difficulty.ChainIsExact | app/src/main/jni/msmwallet-core/BRMerkleBlock.c:327-364 | a chain whose transitions have normalized targets and time differences that fit an int is accepted exactly if every header is linked and has the target that follows from the first one and the transition times over unbounded integers |
| Difficulty.FirstRetarget | app/src/main/jni/msmwallet-core/BRMerkleBlock.c:337-360 | the first new target of the main chain, at height 32256, comes out of the times of the blocks before it |
| Difficulty.RetargetIsExact | app/src/main/jni/msmwallet-core/BRMerkleBlock.c:337-360 | from a normalized target the code's new target is the compact form of min(floor(target * timespan / 1209600), easiest) over unbounded integers |
| Difficulty.RetargetIsExactIff | app/src/main/jni/msmwallet-core/BRMerkleBlock.c:337-360 | for every previous target of at least four bytes: exact if and only if the new mantissa has its leading byte, or code and rule both stop at the easiest target |
| Difficulty.RetargetNeedsNormalized | app/src/main/jni/msmwallet-core/BRMerkleBlock.c:337-360 | a concrete previous target from which the code's form is not canonical |
| Difficulty.RetargetStaysNormalized | app/src/main/jni/msmwallet-core/BRMerkleBlock.c:337-360 | from a normalized target of at least four bytes the new mantissa has its leading byte, the size falls by one at most and stays within the limit; so a target of more than four bytes stays normalized, one of four may drop to three |
| Difficulty.TimespanConversion | app/src/main/jni/msmwallet-core/BRMerkleBlock.c:341-346 | converting the time difference to int changes the clamped timespan exactly if the difference does not fit and does not wrap below a quarter of the timespan |
| Difficulty.TimespanConversionFails | app/src/main/jni/msmwallet-core/BRMerkleBlock.c:341-346 | a concrete difference for which it does |
| Wallets.Wallet.UpdateBalance | app/src/main/jni/msmwallet-core/BRWallet.c:151-245 | from any ordered list: the four sets, the unspent outputs and one history entry per transaction are those of the specification, balance is the worth of the unspent outputs, received and sent are the sums of the rises and of the falls of the history, and no subtraction underflows |
| Wallets.RisesLessFalls | app/src/main/jni/msmwallet-core/BRWallet.c:237-244 | rises less falls of a history are its last balance |
| Wallets.NothingSentIff | app/src/main/jni/msmwallet-core/BRWallet.c:237-238 | nothing was sent exactly if the balance never fell |
| Statuses.InvalidIff | app/src/main/jni/msmwallet-core/BRWallet.c:171-183 | an unconfirmed transaction is invalid exactly if an input of it is an input of an earlier transaction that is not invalid, or spends an earlier invalid one |
| Statuses.PendingIff | app/src/main/jni/msmwallet-core/BRWallet.c:190-212 | an unconfirmed transaction that is not invalid is pending exactly if it is too large, or an output is below the minimum, or an input allows replacement, waits for a lock time or spends an earlier pending one |
| Statuses.FutureIsLockedIff | app/src/main/jni/msmwallet-core/BRWallet.c:198-205 | what the code takes for a lock time in the future is the rule, except exactly for heights already reached that are larger than the time in seconds |
| Statuses.UsedMembers | app/src/main/jni/msmwallet-core/BRWallet.c:218-227 | an address is used exactly if an output of a transaction that is neither invalid nor pending pays it |
| Ledger.UnspentMembers | app/src/main/jni/msmwallet-core/BRWallet.c:168-241 | an output is unspent exactly if a settled transaction pays it to the wallet and no transaction that is not invalid, up to the last settled one, spends it, wherever it is listed |
| Ledger.UnspentStep | app/src/main/jni/msmwallet-core/BRWallet.c:229-235 | removing spent outputs one by one after each transaction gives that set |
| Ledger.SpentIsInputs | app/src/main/jni/msmwallet-core/BRWallet.c:171-188 | an output is in the spent set exactly if it is an input of a transaction that is not invalid |
| Ledger.UnspentDistinct | app/src/main/jni/msmwallet-core/BRWallet.c:218-235 | no output is listed twice |
| Ledger.UnspentDisjointIff | app/src/main/jni/msmwallet-core/BRWallet.c:185-235 | unspent and spent outputs are disjoint exactly if every output paid to the wallet that a pending transaction behind the last settled one spends is spent before as well |
| Ledger.PendingSpendOverlaps | app/src/main/jni/msmwallet-core/BRWallet.c:185-235 | a concrete list on which they are not |
| TxOrder.Insert | app/src/main/jni/msmwallet-core/BRWallet.c:107-119 | insertion shifts only entries that compare later, and stops behind the first that does not |
| TxOrder.PlaceKeepsSorted | app/src/main/jni/msmwallet-core/BRWallet.c:93-119 | whatever the comparison says within a height, a place found this way keeps the list sorted by height |
| Wallets.Wallet.ContainsTx | app/src/main/jni/msmwallet-core/BRWallet.c:122-138 | true exactly if an output pays the wallet or an input spends an output of a stored transaction that does |
| Wallets.MattersBelongs | app/src/main/jni/msmwallet-core/BRWallet.c:122-138 | a transaction that pays a wallet address or spends an output that the listed transactions leave unspent belongs to the wallet |
| Wallets.Wallet.RegisterTransaction | app/src/main/jni/msmwallet-core/BRWallet.c:713-754 | stores and lists exactly the new signed transactions that concern the wallet, stores other unconfirmed ones, and brings the books up to date |
| Wallets.Wallet.UnusedAddrs | app/src/main/jni/msmwallet-core/BRWallet.c:323-379 | extends one chain by derived addresses to exactly as many as needed for a gap of unused ones at its end and returns these, or none if no further one can be derived; terminates however many of the derived ones are used; the wallet stays valid |
| Wallets.UnusedFromIs | app/src/main/jni/msmwallet-core/BRWallet.c:335-336 | where the backward scan stops: behind that place no address is used, the one before it is |
| Wallets.GeneratedAreUnused | app/src/main/jni/msmwallet-core/BRWallet.c:338-355 | the addresses returned are unused and belong to the chain, and there are gapLimit of them unless derivation fails |
| Wallets.Wallet.TxUnconfirmedBefore | app/src/main/jni/msmwallet-core/BRWallet.c:426-443 | returns exactly the listed transactions at or above the height, as many as there is room for |
| Wallets.AboveIs | app/src/main/jni/msmwallet-core/BRWallet.c:426-443 | in a sorted list the suffix found from the end is exactly what lies above a height |
| Wallets.Wallet.UpdateTransactions | app/src/main/jni/msmwallet-core/BRWallet.c:930-969 | every known hash gets height and time or is forgotten as specified, the list keeps its members and its order by height, and the books are recomputed exactly if a pending or invalid one is touched |
| Wallets.RevisedIs | app/src/main/jni/msmwallet-core/BRWallet.c:930-969 | what the pass leaves of each stored transaction: stamped if named, forgotten if confirmed and foreign, otherwise untouched |
| Wallets.Wallet.SetTxUnconfirmedAfter | app/src/main/jni/msmwallet-core/BRWallet.c:972-993 | unconfirms a suffix of the list, keeps it ordered, and recomputes the books if that is not empty |
| Wallets.UnconfirmsExactly | app/src/main/jni/msmwallet-core/BRWallet.c:972-993 | that suffix is exactly the listed transactions above the height; nothing else of any transaction changes |
| Wallets.Wallet.RemoveTransaction | app/src/main/jni/msmwallet-core/BRWallet.c:757-821 | removes exactly the transaction and what is reached from it through listed children that are not lower, keeps the order of the rest, terminates in both recursive calls |
| TxOrder.FindDependents | app/src/main/jni/msmwallet-core/BRWallet.c:766-781 | the backward scan with its early end finds every listed child that is not lower than its parent |
| TxOrder.ReachedIsDescends | app/src/main/jni/msmwallet-core/BRWallet.c:757-821 | if no listed transaction is lower than one it spends, that is every listed descendant |
| TxOrder.RemovalCompleteIff | app/src/main/jni/msmwallet-core/BRWallet.c:757-821 | removal reaches every descendant, for every target, if and only if no listed transaction is lower than one it spends |
| Wallets.LowChildStays | app/src/main/jni/msmwallet-core/BRWallet.c:757-821 | a concrete wallet with two of its transactions, in order, in which the lower child is not reached |
| CoinSelection.CreateTxForOutputs | app/src/main/jni/msmwallet-core/BRWallet.c:566-656 | the loop over the unspent outputs computes the plan of the specification: a transaction, nothing, or the payments it is called with again |
| CoinSelection.TxFeeIsLeast | app/src/main/jni/msmwallet-core/BRWallet.c:52-58 | the fee pays at least one for a byte and the rate of the wallet rounded down; it is one for a byte or a multiple of 100, and no multiple of 100 that pays both is less |
| CoinSelection.MinOutputIsLeast | app/src/main/jni/msmwallet-core/BRWallet.c:1120-1130 | the absolute minimum of an output is three times the fee for an output and an input; an amount reaches the minimum of the wallet exactly if it reaches both that and its multiple by the rate |
| CoinSelection.MadeIff | app/src/main/jni/msmwallet-core/BRWallet.c:591-645 | if all outputs fit, a transaction is made exactly if there are payments and enough is gathered at some place or by all outputs together |
| CoinSelection.CoveredIs | app/src/main/jni/msmwallet-core/BRWallet.c:601-604 | the test for sufficient funds is the fee for spending all outputs with change, as long as the scripts are those of wallet addresses and the counts take one byte |
| Splits.CutIs | app/src/main/jni/msmwallet-core/BRWallet.c:598-617 | a request is split at the first output that makes the transaction too large; if the last payment is kept, the new request comes to what the outputs before bring in less the fee, and the last payment is raised exactly if they bring in more than is due |
| Splits.CutDoesNotWrap | app/src/main/jni/msmwallet-core/BRWallet.c:607 | the 64-bit difference in the condition of the split is never negative |
| Splits.EndsIff | app/src/main/jni/msmwallet-core/BRWallet.c:598-617 | if the payments fit, up to the last one, and every output that fits is worth its fee, the calls end exactly if what stays in the wallet is a multiple of 100 |
| Splits.NeverEnds | app/src/main/jni/msmwallet-core/BRWallet.c:598-617 | a wallet with 700 equal outputs and a payment for which they do not |
| CoinSelection.StopIs | app/src/main/jni/msmwallet-core/BRWallet.c:591-638 | where the loop stops: the first place where the transaction is too large or enough has been gathered |
| CoinSelection.FeeIs | app/src/main/jni/msmwallet-core/BRWallet.c:631-635 | the fee in force is the fee for the estimated size, raised by at most 99 |
| CoinSelection.MadeKeepsPayments | app/src/main/jni/msmwallet-core/BRWallet.c:566-656 | a made transaction keeps every payment in place, adds at most one change output above the minimum, and pays what is left over |
| CoinSelection.MadePaysFee | app/src/main/jni/msmwallet-core/BRWallet.c:52-58 | it pays at least the fee for its size, less the bytes by which a change output lengthens the count of outputs |
| CoinSelection.PaysFeeIff | app/src/main/jni/msmwallet-core/BRWallet.c:566-656 | it pays the fee for its own size exactly if there is no change, or there are not 252 payments, or two more bytes cost nothing, or rounding the rest of the balance down to full hundreds yields what they cost |
| CoinSelection.FewPaymentsPayFee | app/src/main/jni/msmwallet-core/BRWallet.c:566-656 | fewer than 252 payments always pay the fee |
| CoinSelection.LongCountUnderpays | app/src/main/jni/msmwallet-core/BRWallet.c:566-656 | 252 payments and a purse for which the made transaction pays too little |
| CoinSelection.MadeOverpaysLittle | app/src/main/jni/msmwallet-core/BRWallet.c:566-656 | without change it overpays by at most 99 and the minimum output |
| CoinSelection.MadeLeavesHundreds | app/src/main/jni/msmwallet-core/BRWallet.c:634-651 | with change the wallet keeps a multiple of 100 |
| CoinSelection.MaxOutputAmount | app/src/main/jni/msmwallet-core/BRWallet.c:1132-1160 | the amount the specification gives for a full sweep |
| CoinSelection.SweepSucceeds | app/src/main/jni/msmwallet-core/BRWallet.c:1132-1160 | sending that amount to one wallet-style script always yields a transaction if all inputs fit into one |
| BlockTree.WalkBack | app/src/main/jni/msmwallet-core/BRPeerManager.c:1292-1298 | the two walkers meet exactly if the chains meet in stored blocks, and then in the highest common block; the lower one runs out first exactly if its chain ends above that |
| BlockTree.KeptIs | app/src/main/jni/msmwallet-core/BRPeerManager.c:1094-1117 | testing a block forgets only blocks more than 2016 below it that are not at a difficulty transition |
| PeerManager.PeerManager.VerifyBlock | app/src/main/jni/msmwallet-core/BRPeerManager.c:1087-1138 | the verdict, and exactly which blocks are forgotten whatever the verdict |
| PeerManager.PeerManager.Extend | app/src/main/jni/msmwallet-core/BRPeerManager.c:1232-1253 | a block on top of the last one becomes the last one; exactly the transactions it lists get its height and the time given, all others keep theirs; the main chain stays stored as far down |
| PeerManager.PeerManager.Redeliver | app/src/main/jni/msmwallet-core/BRPeerManager.c:1254-1274 | works exactly if the main chain is stored down to the block's height; then the stored copy is replaced, the old copy is taken out of the orphans, and exactly if the block is on the main chain its transactions get its height and the time given, all others keep theirs |
| PeerManager.PeerManager.Fork | app/src/main/jni/msmwallet-core/BRPeerManager.c:1287-1330 | a longer fork is taken exactly if it joins the main chain in stored blocks; then every listed transaction has the height of the lowest block of the new branch that lists it and a time halfway between that block and the one below, or else keeps a height at or below the join, or else is unconfirmed, both with the time it had; the two ways in which it is not taken are told apart exactly |
| PeerManager.PeerManager.Handle | app/src/main/jni/msmwallet-core/BRPeerManager.c:1186-1330 | all branches for one block: works exactly under a condition on the state before; then the stored blocks, the orphans, the last block and the heights and times of all listed transactions are exactly those of the step on values, in which a listed transaction gets half the time of the block plus half that of the block before; the main chain stays stored down to any height not more than 2016 below the block |
| PeerManager.PeerManager.RelayedBlock | app/src/main/jni/msmwallet-core/BRPeerManager.c:1140-1363 | for a block and the orphans waiting behind it: the steps are those the block and the state before decide; it works exactly if the last step does; then the state and the heights and times of all listed transactions are exactly those after all steps, every listed transaction with a height was listed by a delivered copy of the block at that height on the chain to the last block, that block is no lower than before, and the estimated height is raised as the kept blocks say |
| ChainSteps.CascadeIsUnique | app/src/main/jni/msmwallet-core/BRPeerManager.c:1334-1362 | the steps a block sets off are decided by the block and the state: each next one is the orphan filed under the block before, in the state that block left, until none is called |
| ChainSteps.AllHandledIff | app/src/main/jni/msmwallet-core/BRPeerManager.c:1334-1362 | all steps can be handled if and only if the last one can |
| ChainSteps.PlaceOnIs | app/src/main/jni/msmwallet-core/BRPeerManager.c:1304-1321 | settling a branch from its end down leaves each transaction at the lowest block of the branch that lists it, with the time halfway between that block and the one below, and with its height and time before if none does |
| ChainSteps.TimeBetweenIs | app/src/main/jni/msmwallet-core/BRPeerManager.c:1155-1157 | that time lies between the two times, at most one below their mean |
| ChainSteps.ToppedStays | app/src/main/jni/msmwallet-core/BRPeerManager.c:1186-1330 | whatever arrives, the last block stays stored, no stored block is higher, and its height never falls |
| ChainSteps.RaisedAllIs | app/src/main/jni/msmwallet-core/BRPeerManager.c:1334-1335 | the estimated height after all steps is the least that is not below the one before nor below any block kept with its height |
| ChainSteps.DeepEnough | app/src/main/jni/msmwallet-core/BRPeerManager.c:1254-1274 | a stored block that arrives again at or above the depth to which the main chain is stored is always handled |
| ChainRuns.StuckState | app/src/main/jni/msmwallet-core/BRPeerManager.c:1259-1262 | a state reached by delivering 4034 blocks from the first one on, with the last block stored, in which a stored block that arrives again makes the walk down the main chain run out of blocks |
| ChainRuns.LostState | app/src/main/jni/msmwallet-core/BRPeerManager.c:1292-1302 | a state reached by delivering blocks of two chains from the first one on, the lower blocks of one of them twice, in which a longer fork makes the walk back run out of the main chain |
| PeerManager.PeerManager.RelayedTx | app/src/main/jni/msmwallet-core/BRPeerManager.c:945-993 | a transaction from a peer is stored exactly if it is new, whoever it concerns, and listed exactly if it is new and the wallet's; once enough peers relay it and it has neither height nor time, it gets the time; everything else stays, and so does the relation of heights to delivered blocks |
| PeerManager.PeerManager.DropTx | app/src/main/jni/msmwallet-core/BRPeerManager.c:486-492 | dropping one leaves the store as it is, takes exactly what is reached from it off the list, and keeps that relation |
| AesTables.TableUndone | app/src/main/jni/msmwallet-core/BRBIP38Key.c:50-86 | the second table inverts the first at every byte |
| AesTables.InverseUndone | app/src/main/jni/msmwallet-core/BRBIP38Key.c:50-86 | and the first the second |
| AesStandard.SboxIsAffine | app/src/main/jni/msmwallet-core/BRBIP38Key.c:50-67 | every entry of the first table is the affine image of an inverse in the field of 256 elements (FIPS 197 sections 4.2 and 5.1.1), with the product defined by carryless multiplication and reduction |
| AesStandard.KeyIsWords | app/src/main/jni/msmwallet-core/BRBIP38Key.c:113-118 | the key after m in-place steps is the words 8m to 8m + 7 of the schedule of FIPS 197 section 5.2, with its rotation, substitution and round constants 01 to 40 |
| AesStandard.ShiftRowsRotates | app/src/main/jni/msmwallet-core/BRBIP38Key.c:104-106 | row r of the state is rotated to the left by r columns |
| AesStandard.UnshiftRowsRotates | app/src/main/jni/msmwallet-core/BRBIP38Key.c:153-155 | and by the reverse round to the right |
| AesStandard.MixColumnsMultiplies | app/src/main/jni/msmwallet-core/BRBIP38Key.c:108-111 | every byte of a mixed column is the product with {02}, {03}, {01}, {01} in the field of 256 elements, starting in its own row |
| AesStandard.EncryptedIsStandard | app/src/main/jni/msmwallet-core/BRBIP38Key.c:90-126 | for every key and block the rounds, which add the key first and hold eight words at a time, compute the cipher of FIPS 197 section 5.1, which adds four words of the schedule after each round |
| AesField.BlendIsProduct | app/src/main/jni/msmwallet-core/BRBIP38Key.c:108-111 | the mixing expression is the matrix product of FIPS 197 section 5.1.3 in the field of 256 elements |
| AesField.UnblendUndoesBlend | app/src/main/jni/msmwallet-core/BRBIP38Key.c:147-151 | the un-mixing expressions undo the mixing of a column |
| Aes.ExpandKey | app/src/main/jni/msmwallet-core/BRBIP38Key.c:113-118 | the in-place key step computes the next key of the schedule and the next round constant |
| Aes.UnexpandKey | app/src/main/jni/msmwallet-core/BRBIP38Key.c:159-165 | the in-place reverse step computes the previous key and round constant |
| Aes.KeyUndone | app/src/main/jni/msmwallet-core/BRBIP38Key.c:113-165 | the reverse step undoes the step for every key and round constant |
| AesField.HalfTwice | app/src/main/jni/msmwallet-core/BRBIP38Key.c:114-163 | the reverse step takes the round constant back to the one before |
| Aes.EncryptBlock | app/src/main/jni/msmwallet-core/BRBIP38Key.c:90-126 | fourteen rounds in place compute the specified cipher |
| Aes.DecryptBlock | app/src/main/jni/msmwallet-core/BRBIP38Key.c:128-173 | the reverse rounds in place compute the specified inverse |
| Aes.MeetsHalfway | app/src/main/jni/msmwallet-core/BRBIP38Key.c:90-173 | after i reverse rounds the state is that of the encryption after 14 - i rounds, with the same half of the same key added |
| Aes.DecryptUndoesEncrypt | app/src/main/jni/msmwallet-core/BRBIP38Key.c:90-173 | decryption undoes encryption for every key and block and any table with its inverse |
| Aes.RoundTrip | app/src/main/jni/msmwallet-core/BRBIP38Key.c:50-173 | with the real tables, encrypting and decrypting in place restores the block |
| Base58.Encode | app/src/main/jni/msmwallet-core/BRBase58.c:36-72 | writes the encoding and its terminator if there is room, otherwise nothing; no carry is left over at the end of the buffer |
| Base58.Decode | app/src/main/jni/msmwallet-core/BRBase58.c:75-142 | writes the bytes of the longest valid prefix if there is room, otherwise nothing |
| Base58.DecodeEncode | app/src/main/jni/msmwallet-core/BRBase58.c:36-142 | decoding an encoding gives the bytes back, for all byte strings, leading zeros included |
| Base58.EncodeDecode | app/src/main/jni/msmwallet-core/BRBase58.c:36-142 | encoding a decoding gives the text back, for all valid texts |
| Base58.AlphabetIs | app/src/main/jni/msmwallet-core/BRBase58.c:38 | the alphabet is the digits and letters in ascending order without 0, O, I and l |
| Base58.ExampleIs | app/src/main/jni/msmwallet-core/BRBase58.c:36-72 | a byte string with two leading zeros and its text, written out |
| Radix.Fits58 | app/src/main/jni/msmwallet-core/BRBase58.c:44-48 | 256^n is at most 58^(floor(138 n / 100) + 1) for all n, so the digit buffer is large enough |
| Radix.Fits256 | app/src/main/jni/msmwallet-core/BRBase58.c:84-88 | 58^n is at most 256^(floor(733 n / 1000) + 1) for all n, so the byte buffer is |
| Base58.CheckRoundTrip | app/src/main/jni/msmwallet-core/BRBase58.c:145-185 | decoding with checksum undoes encoding with checksum, for any hash |
| Base58.ChecksumIsBehind | app/src/main/jni/msmwallet-core/BRBase58.c:145-160 | what is encoded is the data and behind it the first four bytes of their hash |
| Base58.CheckDecodesOnlyEncodings | app/src/main/jni/msmwallet-core/BRBase58.c:145-185 | a valid text decodes with checksum to non-empty data exactly if it is their encoding with checksum |
| Bech32Checksum.PolymodXor | app/src/main/jni/msmwallet-core/BRBech32.c:37-39 | the checksum step is linear over exclusive or |
| Bech32Checksum.ResidueIsOne | app/src/main/jni/msmwallet-core/BRBech32.c:138-140 | the six digits of the checksum over zeros, with 1 added, make every text leave 1 |
| Bech32Checksum.ResidueOnlyThen | app/src/main/jni/msmwallet-core/BRBech32.c:138-140 | and no other six digits do |
| Bech32Code.StepIsTimesX | app/src/main/jni/msmwallet-core/BRBech32.c:37-39 | a step of the checksum multiplies by x modulo the generator of BIP 173 over the field of 32 elements: every digit moves up, and the top one takes its multiple of 29, 22, 20, 21, 29, 18 away |
| Bech32Code.BurstIsNoticed | app/src/main/jni/msmwallet-core/BRBech32.c:37-39 | two texts of the same length that differ, but only within six digits in a row, leave different checksums |
| Bech32Errors.WrongIsRefused | app/src/main/jni/msmwallet-core/BRBech32.c:42-97 | an address in which any characters within six in a row behind the separator are wrong is refused by the decoder |
| Bech32Errors.CharsetIs | app/src/main/jni/msmwallet-core/BRBech32.c:103 | the characters of the 32 digits are those of BIP 173 in its order |
| Bech32RoundTrip.OnlyCheck | app/src/main/jni/msmwallet-core/BRBech32.c:138-140 | no other checksum than the one of the encoder makes an address leave 1 |
| Bech32Example.EncodedIs | app/src/main/jni/msmwallet-core/BRBech32.c:101-144 | prefix "bc" and script 6002751e give the address bc1sw50qa3jx3s of BIP 173 |
| Bech32Groups.BytesRestored | app/src/main/jni/msmwallet-core/BRBech32.c:66-96 | regrouping to five bits and back restores every byte |
| Bech32Groups.ByteGives | app/src/main/jni/msmwallet-core/BRBech32.c:129-136 | the encoder's shifts complete the digits that stand for the bytes so far |
| Bech32Groups.TakesDigit | app/src/main/jni/msmwallet-core/BRBech32.c:82-84 | the decoder's shifts add exactly the bits of one more digit |
| Bech32.Encode | app/src/main/jni/msmwallet-core/BRBech32.c:101-144 | returns the specified address or none, by the code's own conditions |
| Bech32.Decode | app/src/main/jni/msmwallet-core/BRBech32.c:42-97 | returns prefix and script exactly for well-formed texts that leave 1, with the last separator deciding |
| Bech32RoundTrip.DecodeEncoded | app/src/main/jni/msmwallet-core/BRBech32.c:42-144 | decoding an encoded script returns prefix and script, version and length included, if and only if there is a prefix and the address has at most 90 characters |
| Bech32RoundTrip.ShortPrefixIsRestored | app/src/main/jni/msmwallet-core/BRBech32.c:42-144 | prefixes of 1 to 18 characters always round-trip |
| Bech32RoundTrip.LongPrefixIsLost | app/src/main/jni/msmwallet-core/BRBech32.c:121-125 | a script and a prefix of 80 characters that the encoder accepts and the decoder does not |
| Bech32RoundTrip.EncodedLength | app/src/main/jni/msmwallet-core/BRBech32.c:106-144 | an address and its terminator fit 91 characters exactly if there are at most 90 |
| VarInts.VarInt | app/src/main/jni/msmwallet-core/BRAddress.c:39-67 | value and length of the count at an offset, 0 behind the end |
| VarInts.VarIntSet | app/src/main/jni/msmwallet-core/BRAddress.c:70-104 | writes a count exactly if it fits and returns its length then, without a buffer the length, otherwise 0 |
| VarInts.VarIntBack | app/src/main/jni/msmwallet-core/BRAddress.c:39-104 | reading a count that was written returns it and its length |
| VarInts.HeaderTells | app/src/main/jni/msmwallet-core/BRAddress.c:70-104 | the first byte of a written count is the count, or tells by its place above 252 the power of two of the bytes that hold it, low byte first; it would not fit into half of them |
| Scripts.Elements | app/src/main/jni/msmwallet-core/BRAddress.c:114-153 | the starts of all elements if the last one ends with the script |
| Scripts.Recognized | app/src/main/jni/msmwallet-core/BRAddress.c:239-290 | true exactly for the scripts that have an address |
| Scripts.KnownIs | app/src/main/jni/msmwallet-core/BRAddress.c:239-290 | walking the elements recognizes exactly the five forms, byte by byte |
| Scripts.FormsAre | app/src/main/jni/msmwallet-core/BRAddress.c:239-290 | the five forms around a key hash, a script hash, a key and a witness program, in bytes |
| Transactions.InputData | app/src/main/jni/msmwallet-core/BRTransaction.c:112-132 | writes the bytes of one input behind what is written, or counts them without a buffer |
| Transactions.Serialize | app/src/main/jni/msmwallet-core/BRTransaction.c:255-322 | without a buffer the number of bytes, with one that is large enough exactly these bytes and the same number |
| TransactionParse.Parse | app/src/main/jni/msmwallet-core/BRTransaction.c:366-429 | what the parser makes of any buffer, including which bytes the hash covers |
| TransactionRoundTrip.ParseBack | app/src/main/jni/msmwallet-core/BRTransaction.c:255-429 | parsing a serialized transaction restores version, outpoints, scripts or signatures, sequences, outputs and lock time, and the hash covers all bytes |
| TransactionRoundTrip.ExampleIs | app/src/main/jni/msmwallet-core/BRTransaction.c:112-322 | the bytes of a transaction with one input and one output, written out |
| TransactionSize.ParseRestores | app/src/main/jni/msmwallet-core/BRTransaction.c:255-429 | that is so if and only if there are inputs and each signature is no known script, each unsigned input has a known script and an amount that is not zero |
| TransactionSize.ZeroAmountIsLost | app/src/main/jni/msmwallet-core/BRTransaction.c:255-429 | a concrete unsigned input of amount zero is not restored |
| TransactionSize.TransactionSize | app/src/main/jni/msmwallet-core/BRTransaction.c:492-514 | the size as the code computes it |
| TransactionSize.SizeIsLength | app/src/main/jni/msmwallet-core/BRTransaction.c:492-514 | for a signed transaction that is the number of bytes it is written in |
| TransactionSize.EstimateIsExact | app/src/main/jni/msmwallet-core/BRTransaction.c:492-514 | for a transaction with missing signatures it is the number of bytes written once each is filled in with 107 bytes |

## Left out

- HashSet.Set.Add: sizes beyond the list of primes; a set holds at most 2609407362 items here.
- HashSet.SizesGrowByHalf: that the sizes are prime, on which nothing here depends.
- HashSet.Set.Union: a set united with itself; the other set is a different one here, and so is its table.
- HashSet.Set.Minus: a set taken from itself, where the scan passes over items that are filed again behind it.
- HashSet.Set.Intersect: a set intersected with itself.
- ChaCha20.Chacha20: the rounds of the block function, which is a parameter; the RFC layout of its input is modelled.
- Difficulty.IsValid: for target sizes of 32 and more the C code writes outside the 32 bytes it prepared before it
  refuses the target; the verdict is modelled, the write is not.
- MerkleBlock.CeilLog2: the argument is an int in the C code; counts of 2^31 and more are not modelled.
- MerkleBlock.ListsOnlyLeaves: what a rejected branch makes the walkers return is not claimed to be sound.
- MerkleTwins.RejectedIff: the cursor of a rejection is what is stated; the validity test looks at the root only.
- AesStandard.SboxIsAffine: that an inverse in the field is the only one.
- Wallets.Wallet.UpdateBalance: amounts are unbounded, no 64-bit wrap-around.
- Wallets.Wallet.RegisterTransaction: the calls that generate addresses afterwards (`Wallets.Wallet.UnusedAddrs` is a
  step of its own), loading a wallet from stored transactions (`BRWalletNew`), and callbacks.
- Wallets.Wallet.UnusedAddrs: deriving keys, which is a function parameter that never yields an address twice.
- CoinSelection.CreateTxForOutputs: the call with other payments when a transaction is too large is an outcome that
  holds them, because the calls need not end (`Splits.EndsIff`); the shuffling of outputs; amounts are unbounded.
- Splits.EndsIff: requests that leave payments out, and wallets with outputs that are not worth their fees.
- TxOrder.Insert: the order within one height, because the comparison is not transitive.
- PeerManager.PeerManager.VerifyBlock: the difficulty rule (`Difficulty.VerifyDifficulty`) and the checkpoints are
  a parameter here; the missing transition and the pruning are modelled.
- PeerManager.PeerManager.Handle: which blocks are ignored, too old, or fail difficulty and checkpoints is a parameter;
  rescans, locators, saving, peers, filters and their false-positive rate are left out, and orphans are compared by
  value, not by address.
- Bech32.Encode: the address is a growing text; writing past its 91 characters is not modelled
  (`Bech32RoundTrip.EncodedLength` says when it would happen).
- TransactionParse.Parse: offsets are unbounded; a script length near 2^64, with which an offset wraps in the C code,
  is read as too long here. The hash itself is left out, only the bytes it covers are stated.
- Transactions.Serialize: what is returned for a buffer that is too small; signing modes that write a part of the
  transaction.
- Aes.EncryptBlock: words are modelled as bytes, and wiping of the working copies is left out.
- Scripts.Recognized: the address itself, only whether there is one.
- Secret-key operations, key derivation, scrypt, SHA and RIPEMD: foreign or without a simpler specification.
- Mnemonics, Bloom filters and payment requests: easier versions of what is here.
- Java, sockets, threads, locks, timers and logging; locked functions are atomic steps.
