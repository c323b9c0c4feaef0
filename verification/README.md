# A verified model of the Bitcoin relay

The relay is an on-chain light client for Bitcoin. Its main account keeps 250 header commitments in a ring; callers
re-supply the committed header they build on, and the program only compares its hash with a slot. Headers extend the
tip, replace it by a short reorganisation sent in one call, or collect in a fork account until they outweigh the main
chain and overwrite the ring. Transactions proved into a committed header release lamports.

This project models that program, the prover and header builder of its relayer, and the raw transaction parser, and
proves that the ring stands for a valid, heaviest header chain that the program itself never stores.

## How the model is laid out

| file | content |
|---|---|
| Results, Bytes, Structs | error codes, big-endian numbers, headers and commitments |
| ArrayUtils, NBits, Median, Headers | 256-bit arithmetic in place, compact targets, retargeting, `verify_header` |
| NBitsTheorems | what those bytes mean as numbers |
| Accounts, Program, Bank | the accounts as classes, the instruction handlers that write them, and the runtime that commits or discards a call |
| Relay | the same instructions as functions on account contents: `Executed`, `Step`, `Run` |
| Chains, Ring, Loops | valid header chains; what 250 slots can stand for; the loops as growing chains |
| Soundness, Runs | what every run keeps, with no hypothesis on forks or on the initial work; exactly when the work grows |
| Refinement | the ring refines a ghost chain in every run whose promotions find a chain to the fork's base in the ring |
| Promotion, DisplacedBase | exactly when a promotion keeps the ring faithful, and the runs in which it does not |
| Tracking | a weaker hypothesis on promotions, enough for whatever passes the commitment check to be on the main chain |
| ZeroHash | concrete headers for those runs, and for two in which the work wraps round |
| Admission, Accounting | for every instruction in a reachable state: exactly when it succeeds, with which error it fails, and all it changes |
| Payments | inclusion before payment, chunked transactions, conservation of lamports |
| Merkle, TxParser, Relayer | branch building and folding, the transaction format, header reconstruction |

Handlers are methods on the classes `MainState`, `ForkState` and `LastHeader`, proved equal to the functions of `Relay`
in every branch and every error. `Bank.Ledger` loads accounts for a call and writes them back only on success, so a
store made before a later failing check vanishes. Theorems over runs are about `Run`, which `Ledger.ProcessAll` computes.

## Conventions

* A commitment is the free value `CommitHash(header)` or `NoCommitment`: SHA-256 of a committed header taken to be
  injective and never zero. The block hash is an arbitrary function into 32 bytes, collisions included. Merkle nodes are
  abstract values with an arbitrary pair function; only the lemmas on what the verifier accepts assume it injective.
* Transaction decoding, txids and the deposit script of a receiver are functions in `Env` about which nothing is assumed.
* Overflow checks are on, so every overflow, out-of-range index, failed assertion and unwrap is the error `Panic`.
  `BadAccount` stands for the framework refusing an account.
* The clock reading is an input of every call. A call's remaining accounts appear as their number and, beside each
  header, the one at its index; the address derived from a block hash is the free value `HeaderTopic(hash)`.
* OR-ing bytes into disjoint lanes is written as addition.
* "Headroom" means that the initial chain_work is at most 2^256 - 2^240. Only results that compare or sum work use it.

## Where code and comments disagree

The model follows the code.

* `get_commitment` is documented to return zeros in edge cases (state.rs 59-60); below tip height 250 its subtraction
  overflows and the call aborts. A relay initialized below that height therefore never accepts anything
  (`FrozenBelow250`).
* A short fork is documented to hold at most seven headers (lib.rs 141); the code has no such limit.
* `store_block_commitment` reports a height too old for the ring by returning false (state.rs 78-79); all callers
  ignore the result, and the commitment is dropped in silence.
* The base of a long fork is compared with the ring only when the fork is opened (lib.rs 259-283). If another branch has
  replaced that base by the time the fork is promoted, the ring keeps the other branch's headers below the fork.
  `RunThatBreaksTheRing` gives five calls that end there, for any block hash. `NextPromotionExactly` gives the condition,
  in both directions: the slots of the heights still in range after the call must hold the fork's own ancestors. Range
  and slots are known before the call, from the supplied header's height and the number of headers.
* `add_in_place` drops its last carry, and `initialize` accepts any chain_work (lib.rs 27-46), so an append can make the
  main work smaller. `WorkNeverDecreasesExactly` says when: exactly if some append's work, read off the submitted nBits,
  does not fit; `WorkCanShrink` is one such call. `AlwaysHeaviestExactly` says when no open fork ever outweighs the main
  chain, and `ForkCanOutweigh` is a run in which one does. With headroom neither happens (`HeadroomSuffices`).
* All callers ignore a dropped store, so a fork promoted from 250 or more below the ring's start leaves a tip that is in
  no slot: nothing can then be appended, reorganised, opened or proved (`TipOutOfRing`). In runs whose promotions find a
  chain to their base in the ring the tip always passes (`TipPasses`).
* The relayer's reconstructed header always has zero chain_work (relay_program_interaction.rs 38), so it matches the
  committed one only where that carries no work, which no header after the initial one does (`RebuiltHeadersNeverPass`).
  Its `init_program` also writes the block's own timestamp ten times as the initial window (lines 70-105), so the next
  nine headers are rebuilt with another window than was committed, unless those ten timestamps happened to be the true
  ones (`ReconstructedMatchesExactly`).
* The comment in `get_difficulty` (utils.rs 147-151) argues that shifting after dividing by three bytes is exact;
  `DifficultyOfDecoded` proves it, and that targets below 2^16 panic instead.
* `parse_transaction` counts empty scriptSigs to decide how many witness stacks to skip, and asks for version 2 before
  it looks for the marker; `ParserInvertsSegwitExactly` shows that it inverts the format of BIP 144, section
  "Serialization", exactly when all scriptSigs are empty and the version is at least 2. Bytes behind a transaction are
  ignored but hashed (`ParserInvertsLegacy`, `ParserInvertsSegwit`).

## Model

| member | source | states |
|---|---|---|
| ArrayUtils.AddInPlace | programs/btc-relay/src/arrayutils.rs:2-15 | the array becomes the sum modulo 2^256: only a carry out of the top byte is lost |
| ArrayUtils.MulInPlace | programs/btc-relay/src/arrayutils.rs:17-31 | the array becomes its product with a 32-bit factor, modulo 2^256 |
| ArrayUtils.DivInPlace | programs/btc-relay/src/arrayutils.rs:33-46 | the array becomes the floor of the 256-bit quotient; a zero divisor panics and nothing is written |
| ArrayUtils.GteArr | programs/btc-relay/src/arrayutils.rs:48-58 | the early-exit byte comparison is >= on the numbers |
| ArrayUtils.LteArr | programs/btc-relay/src/arrayutils.rs:60-62 | it is <= on the numbers |
| ArrayUtils.GtArr | programs/btc-relay/src/arrayutils.rs:64-74 | it is > on the numbers |
| NBits.TargetToNbits | programs/btc-relay/src/utils.rs:54-81 | the byte loop yields the numeric compact form: byte length, three leading bytes, mantissa shifted down when its sign bit would be set |
| NBits.NbitsToTarget | programs/btc-relay/src/utils.rs:85-104 | the returned bytes are the number the compact form stands for; it panics exactly when the size byte exceeds 32 |
| NBits.GetDifficulty | programs/btc-relay/src/utils.rs:109-153 | the maximum target divided by the three leading bytes and shifted by the rest; panics exactly when the target has fewer than three bytes |
| NBits.ComputeNewNbits | programs/btc-relay/src/utils.rs:158-179 | the caller's target times the measured span (302400 below that, 4838400 above that), modulo 2^256, over 1209600, and its nBits; panics exactly when the epoch's clock ran backwards |
| NBitsTheorems.RoundTripTruncates | programs/btc-relay/src/utils.rs:54-104 | compacting then expanding clears exactly the dropped low bytes |
| NBitsTheorems.CompactError | programs/btc-relay/src/utils.rs:54-104 | for every target below 2^255 the round trip never adds and loses less than one part in 2^15 |
| NBitsTheorems.CompactMonotone | programs/btc-relay/src/utils.rs:54-104 | the round trip keeps the order of targets |
| NBitsTheorems.RoundTripIffCanonical | programs/btc-relay/src/utils.rs:54-104 | expanding then compacting returns nbits if and only if it is zero or canonical |
| NBitsTheorems.CompactIsCanonical | programs/btc-relay/src/utils.rs:54-81 | every positive target below 2^255 compacts to a canonical encoding |
| NBitsTheorems.DecodeExactly | programs/btc-relay/src/utils.rs:85-104 | for every nBits the target is floor(mantissa * 256^(size - 3)), mantissa the low 23 bits and size the top byte |
| NBitsTheorems.DifficultyOfDecoded | programs/btc-relay/src/utils.rs:109-153 | for every decoded target of at least 2^16 the byte-shifted division is exactly floor(MAX_DIFFICULTY / target); below, it panics |
| NBitsTheorems.WorkBounds | programs/btc-relay/src/utils.rs:109-153 | a block's work is below 2^208, and at least 1 for targets up to the maximum |
| NBitsTheorems.ScaledExactly | programs/btc-relay/src/utils.rs:158-173 | up to the maximum target the 256-bit product never truncates |
| NBitsTheorems.RetargetExactly | programs/btc-relay/src/utils.rs:158-179 | in three cases of the span (below a quarter, up to four times, above) the new nBits are the compact form of the target times 302400, the span itself, or 4838400, over 1209600, and 0x1D00FFFF where that reaches 2^224; a backwards clock panics |
| NBitsTheorems.UnroundedRoundsToMax | programs/btc-relay/src/utils.rs:23-50 | UNROUNDED_MAX_TARGET compacts to 0x1D00FFFF, which expands to exactly MAX_DIFFICULTY |
| NBitsTheorems.RetargetKeepsFloor | programs/btc-relay/src/utils.rs:174-178 | no retarget, from any previous target, yields one above MAX_DIFFICULTY |
| Median.IsLargerThanMedian | programs/btc-relay/src/utils.rs:208-222 | counting decides whether the timestamp exceeds element 5 of the sorted eleven |
| Median.RankByCounting | programs/btc-relay/src/utils.rs:208-222 | for every sequence and rank, beating the sorted element is beating more than that many of the originals |
| Median.BeatsMedianExactly | programs/btc-relay/src/utils.rs:208-222 | the timestamp beats the median if and only if it exceeds at least six of the eleven |
| Headers.HasCorrectDifficultyTarget | programs/btc-relay/src/utils.rs:187-205 | compares with the parent's nBits off epoch boundaries and with the retarget on them, panics included |
| Headers.SlideWindow | programs/btc-relay/src/utils.rs:293-297 | in place, the oldest timestamp goes and the parent's comes last |
| Headers.VerifyHeader | programs/btc-relay/src/utils.rs:224-302 | all checks in order with their error codes, the header topic included; on success the caller's header has become the successor and its hash is returned |
| Merkle.Create | block_relayer/src/merkle.rs:9-41 | the level loop returns the siblings on the path to the root, and fails exactly for a position out of range |
| Merkle.ComputeMerkle | programs/btc-relay/src/utils.rs:306-330 | the loop over the proof is the fold whose sides follow the index bits |
| Merkle.CreatedProofFolds | block_relayer/src/merkle.rs:9-41 | the created branch, folded onto its leaf, gives the root, and its length is the tree's height |
| Merkle.RootIsTopNode | block_relayer/src/merkle.rs:17-39 | climbing padded levels gives the top node of the tree defined from the leaves, where an absent right child repeats the left |
| Merkle.MerkleCompleteness | programs/btc-relay/src/utils.rs:306-330 | for every non-empty list and position, prover then verifier reach that tree's root |
| Merkle.AcceptsFullProofsExactly | programs/btc-relay/src/utils.rs:315-329 | with an injective pair hash, a proof of the tree's height is accepted for any index if and only if the leaf is the listed one that index leads to (the last node's repetitions mean the original, higher bits are ignored) and the proof is the one created for it |
| Merkle.AcceptsExactly | programs/btc-relay/src/utils.rs:306-330 | for proofs of every length and any index: a short one is accepted exactly for a node of the level its length names and that node's branch; a long one exactly if it first folds up to a listed txid and then follows its branch |
| Merkle.ClimbedNodes | block_relayer/src/merkle.rs:17-39 | the level some steps up consists of the nodes of that height in the leaf-defined tree |
| Merkle.MerkleBinding | programs/btc-relay/src/utils.rs:315-329 | for an index in range and a proof of the tree's height: accepted if and only if the leaf is the listed one and the proof the created one |
| Accounts.MainState.Initialize | programs/btc-relay/src/lib.rs:27-72 | one commitment in slot 0, the ring starting at the initial height, tip and work set from the arguments |
| Accounts.MainState.GetCommitment | programs/btc-relay/src/state.rs:61-75 | reads the slot of a height, zero outside the ring, panic below tip height 250 |
| Accounts.MainState.StoreBlockCommitment | programs/btc-relay/src/state.rs:80-95 | a height 250 or more below the start is dropped and reported; any other goes to the slot its distance from the start names modulo 250, slot 0 on the ring's turn, which alone moves start_height; it panics exactly when the counter is full |
| Accounts.ForkState.StoreBlockCommitment | programs/btc-relay/src/state.rs:118-121 | appends at length, and panics exactly on the 251st commitment |
| Program.Accept | programs/btc-relay/src/lib.rs:101-116 | one round of the header loops: link to the parent's hash, count the height with overflow check, verify |
| Program.AppendMain | programs/btc-relay/src/lib.rs:96-129 | the loop leaves the ring and the last header of its specification, and the hashes of that header |
| Program.AppendFork | programs/btc-relay/src/lib.rs:286-318 | the same on a fork account |
| Program.SubmitBlockHeaders | programs/btc-relay/src/lib.rs:75-138 | the account after a successful call and the error of a failed one |
| Program.SubmitShortForkHeaders | programs/btc-relay/src/lib.rs:142-216 | the same, with the work check after the ring has been written |
| Program.Promote | programs/btc-relay/src/lib.rs:323-332 | the ring after the fork's commitments are stored at start_height + 1 onwards |
| Program.OpenFork | programs/btc-relay/src/lib.rs:253-283 | a fresh fork takes the next id and a base that passes the commitment check, an open one must be continued from its tip |
| Program.SubmitForkHeaders | programs/btc-relay/src/lib.rs:222-369 | opening, appending, and either promoting and closing the fork or recording its new tip |
| Bank.Ledger.Process | programs/btc-relay/src/lib.rs:21-541 | a successful call leaves the specified accounts, a failed one leaves every account as it was |
| Bank.Ledger.ProcessAll | programs/btc-relay/src/lib.rs:21-541 | a run of calls, failures included, computes `Run` |
| Bank.Ledger.SubmitForkHeaders | programs/btc-relay/src/instructions.rs:76-83 | the fork account is the one keyed by id and signer, created empty by the call that opens it |
| Bank.Ledger.CloseForkAccount | programs/btc-relay/src/lib.rs:372-374 | the signer's fork account goes, everything else stays |
| Bank.Ledger.VerifySmallTx | programs/btc-relay/src/lib.rs:379-428 | confirmations, commitment, decoding, positive deposit, Merkle proof and payment, in that order of errors |
| Bank.Ledger.Deposit | programs/btc-relay/src/lib.rs:458-474 | moves the amount from the signer to the deposit account |
| Bank.Ledger.InitBigTxVerify | programs/btc-relay/src/lib.rs:476-508 | opens an empty chunk account of the asked size after the inclusion checks |
| Bank.Ledger.StoreTxBytes | programs/btc-relay/src/lib.rs:510-517 | appends the bytes to an existing chunk account if they fit the size it was opened with |
| Bank.Ledger.FinalizeTxProcessing | programs/btc-relay/src/lib.rs:519-540 | decodes the stored bytes, compares the txid, pays |
| Chains.AcceptsExactlyValidHeaders | programs/btc-relay/src/utils.rs:224-302 | a header is accepted with a committed form if and only if that form is a valid successor (link, height, nBits repeated or rescaled on every 2016th block, proof of work, six of eleven timestamps beaten, exact work, window, adjustment time), it is less than four hours ahead of the clock, and the account beside it is the one derived from its hash |
| Chains.LinksUnique | programs/btc-relay/src/utils.rs:290-299 | a header has at most one committed form on a given parent |
| Chains.DifficultyFloor | programs/btc-relay/src/utils.rs:187-205 | from an initial target up to MAX_DIFFICULTY no header of a valid chain exceeds it, and each adds at least 1 work |
| Chains.RequiredExactly | programs/btc-relay/src/utils.rs:187-205 | the required nBits are the parent's off every 2016th block and the retarget on it, in the same three cases, modulo 2^256 |
| Chains.ChainRetargets | programs/btc-relay/src/utils.rs:158-205 | along a chain under the floor nBits repeats off epoch boundaries and is the exact retarget on them, in three cases of the span, whose clock cannot have run backwards |
| Chains.WorkIsTotal | programs/btc-relay/src/utils.rs:299 | whatever the initial work, chain_work is the initial work plus the exact works of the ancestors, modulo 2^256 |
| Chains.WorkTurnsOver | programs/btc-relay/src/arrayutils.rs:2-15 | along a chain the work ends at that sum, or at the sum less 2^256 if it does not fit |
| Chains.WorkKeptExactly | programs/btc-relay/src/arrayutils.rs:2-15 | so it ends no smaller than it began if and only if the sum is below 2^256 |
| Chains.WorkIsExact | programs/btc-relay/src/utils.rs:299 | with headroom the sum never wraps |
| Chains.WindowIsHistory | programs/btc-relay/src/utils.rs:291-297 | the stored window is the last ten of the initial window followed by the ancestors' timestamps |
| Chains.LastAdjustmentIsLatestBoundary | programs/btc-relay/src/utils.rs:245-249 | last_diff_adjustment is the timestamp of the latest boundary header after the initial one, else the initial value |
| Ring.InitialRing | programs/btc-relay/src/lib.rs:58-61 | after `initialize` the ring represents the one-header chain |
| Ring.StoredExactly | programs/btc-relay/src/state.rs:43-95 | a store changes the slot (height - start_height) modulo 250, the counter, and on the ring's turn start_height; older heights change nothing; only a full counter stops it |
| Ring.ReadExactly | programs/btc-relay/src/state.rs:43-75 | a header passes the commitment check if and only if the tip is at 250 or above, the header is at or below it by less than 250, and it is in the slot its height names; below a tip of 250 the read panics |
| Ring.StoreInRing | programs/btc-relay/src/state.rs:80-95 | storing the tip's successor keeps the ring a picture of the longer chain, through wraps and below an older high-water mark, also where it shows the chain only above some height |
| Ring.CutRing | programs/btc-relay/src/state.rs:43-95 | cutting the chain back inside the window leaves a ring that represents the shorter chain, stale slots included |
| Ring.RebaseRing | programs/btc-relay/src/lib.rs:323-332 | a ring that holds another branch's headers in the coming window shows that branch above the window's lower end |
| Ring.CommittedIsClear | programs/btc-relay/src/state.rs:43-95 | if moreover the ring represents the current chain, no header off that branch is left where a later tip could read it |
| Ring.ReadsExactlyTheChain | programs/btc-relay/src/state.rs:61-75 | a header passes the commitment check if and only if it is the chain's at its own height, within the last 250 heights ever stored, and the tip is at least at 250 |
| Loops.MainLoop | programs/btc-relay/src/lib.rs:101-129 | a successful loop stores one valid successor per header, in order, and its own counter is the last header's height |
| Loops.ForkLoop | programs/btc-relay/src/lib.rs:290-318 | the same, appended to the fork's headers |
| Loops.PromotionLoop | programs/btc-relay/src/lib.rs:326-332 | promotion stores the fork's headers one by one |
| Loops.StoreAllExactly | programs/btc-relay/src/state.rs:80-95 | storing consecutive headers succeeds if and only if the counter has room for those not dropped, and counts exactly them |
| Loops.StoreAllInSlot | programs/btc-relay/src/state.rs:43-95 | afterwards the last 250 heights' slots hold these headers, and below them what they held |
| Loops.LongForkedParts | programs/btc-relay/src/lib.rs:222-318 | up to its settlement, a successful long-fork call has grown a chain of valid successors on the fork's base, opened only with the next id on a committed header |
| Loops.SettledParts | programs/btc-relay/src/lib.rs:320-358 | the fork is stored over the ring exactly if it is strictly heavier, else it stays open with its new tip |
| Soundness.AppendKeepsWorkExactly | programs/btc-relay/src/lib.rs:75-138 | a successful append does not shrink the main work if and only if the main work plus the submitted headers' work is below 2^256, which headroom implies |
| Soundness.AppendedWork | programs/btc-relay/src/lib.rs:75-138 | a successful append leaves the main work plus the submitted headers' work, less 2^256 if that does not fit |
| Runs.SoundStep | programs/btc-relay/src/lib.rs:75-374 | every instruction keeps: all commitments end valid chains from the initial header, open forks hang off such a header, tip and bases lie below the ring's next turn, ids stay below the counter, which never falls |
| Runs.SoundRun | programs/btc-relay/src/lib.rs:27-374 | so does every run, whatever the initial work |
| Runs.ReachableMainChain | programs/btc-relay/src/lib.rs:96-135 | in every reachable state the tip ends a valid chain from the initial header, block_height is its height, and chain_work its total modulo 2^256, exactly so with headroom |
| Runs.CommittedHeadersKeepFloor | programs/btc-relay/src/utils.rs:174-205 | every header committed anywhere in a reachable state is at most MAX_DIFFICULTY in target and, with headroom, has gained at least one unit of work per block |
| Runs.WorkStep | programs/btc-relay/src/lib.rs:75-374 | an instruction does not shrink the main work if and only if it is no append whose work overflows; anything but an append that moves the tip strictly increases it |
| Runs.WorkNeverDecreasesExactly | programs/btc-relay/src/lib.rs:202-358 | main work never decreases along a run if and only if no append of the run overflows |
| Runs.HeadroomSuffices | programs/btc-relay/src/lib.rs:27-46 | headroom in the initial chain_work rules overflow out in every run |
| Runs.HeaviestChain | programs/btc-relay/src/lib.rs:202-358 | in every run without overflow, main work does not decrease between any two moments, and no open fork has more |
| Runs.HeaviestStepExactly | programs/btc-relay/src/lib.rs:75-374 | if no fork outweighs the main chain, none does after an instruction if and only if its work fits or every fork is lighter than the exact sum by 2^256 |
| Runs.AlwaysHeaviestExactly | programs/btc-relay/src/lib.rs:202-358 | no open fork outweighs the main chain at any moment of a run if and only if that holds for every call of it |
| Runs.FrozenBelow250 | programs/btc-relay/src/state.rs:61-75 | initialized below height 250, every run leaves the main account as it was, with no fork and no chunk account |
| ZeroHash.WorkCanShrink | programs/btc-relay/src/arrayutils.rs:2-15 | from a chain_work of 2^256 - 1 one appended header leaves the main chain with work zero |
| ZeroHash.ForkCanOutweigh | programs/btc-relay/src/arrayutils.rs:2-15 | from a chain_work of 2^256 - 2 three calls leave an open fork with work 2^256 - 1 beside a main chain with none |
| Runs.ForkIdsNeverReused | programs/btc-relay/src/lib.rs:239-275 | ids of successfully opened forks strictly increase over a run, whoever signs and whatever was closed |
| Runs.OpenForksAreWellFormed | programs/btc-relay/src/state.rs:98-121 | an open fork has 1 to 250 headers, each valid on the one before, the first on an anchored base at start_height, and its tip at start_height + length |
| Admission.RefusalsInOrder | programs/btc-relay/src/utils.rs:224-302 | which error a header is refused with, the checks taken in order |
| Admission.AppendSucceedsExactly | programs/btc-relay/src/lib.rs:75-138 | in a reachable state an append succeeds if and only if there are headers, one account each, the supplied one is the recorded tip, the tip is at 250 or above and in the ring, the headers are valid one on the other, allowed by clock and topic, and the counter has room for them |
| Admission.AppendOutcome | programs/btc-relay/src/lib.rs:96-135 | it then records the last header as tip, counts the headers, lets exactly the last 250 heights pass the commitment check, and changes nothing else |
| Admission.ShortForkSucceedsExactly | programs/btc-relay/src/lib.rs:142-216 | a short reorganisation succeeds if and only if the supplied header passes the commitment check, the headers are valid on it and end strictly heavier than the main chain, and both counters have room |
| Admission.ShortForkOutcome | programs/btc-relay/src/lib.rs:158-214 | it then moves the main account to these headers and takes a fork id |
| Admission.LongForkSucceedsExactly | programs/btc-relay/src/lib.rs:222-369 | a long-fork call succeeds if and only if it opens a fork with the next id on a header that passes, or continues one from its tip, the headers are valid on it, the fork has at most 250 with them, and, if they end heavier, the counter has room for those the ring takes |
| Admission.LongForkOutcome | programs/btc-relay/src/lib.rs:286-358 | exactly if they end strictly heavier the main account moves to the whole fork and its account is closed; else only the fork's account changes, to hold the headers one after the other and the new tip |
| Admission.SubmissionRefusals | programs/btc-relay/src/lib.rs:75-283 | which error a submission is refused with before its headers are looked at |
| Admission.HeaderRefusals | programs/btc-relay/src/lib.rs:101-318 | a submission whose k-th header fails ends with that header's error, if those before could be stored |
| Admission.TooShort | programs/btc-relay/src/lib.rs:202-206 | a short reorganisation that does not end heavier is refused as too short |
| Refinement.AppendRefines | programs/btc-relay/src/lib.rs:75-138 | an append keeps the refinement and extends the ghost chain |
| Refinement.ShortForkRefines | programs/btc-relay/src/lib.rs:142-216 | so does a short reorganisation, also one that ends below the old tip |
| Refinement.LongForkRefines | programs/btc-relay/src/lib.rs:222-369 | so does a long-fork call, promoting or not, if for a promoted fork the ring holds some valid chain to its base within the coming window, which starts no higher than the fork |
| Refinement.RefinesStep | programs/btc-relay/src/lib.rs:75-540 | so does every instruction |
| Refinement.RefinesRun | programs/btc-relay/src/lib.rs:27-540 | so does every run whose promotions are so supported |
| Refinement.BasesSuffice | programs/btc-relay/src/lib.rs:259-348 | they are in every run whose promotions find their base readable at start_height |
| Refinement.BranchChangeIsHeavier | programs/btc-relay/src/lib.rs:202-358 | any call of such a run after which the old chain is not a prefix of the new one strictly increases the main work |
| Refinement.RingRefinesChain | programs/btc-relay/src/state.rs:43-95 | in every such run the ghost chain is valid from the initial header, the recorded tip is its last header, and a supplied header passes the commitment check if and only if it is the chain's at its height in (highWater - 250, tip] |
| Promotion.PromotionFaithfulExactly | programs/btc-relay/src/lib.rs:320-348 | the ring is faithful to the fork's chain after a promotion if and only if the fork's ancestors in the new window are what the ring held before (and the new tip makes the ring readable) |
| Promotion.NextPromotionExactly | programs/btc-relay/src/lib.rs:259-348 | the next promoting call of a run leaves the ring faithful to the fork's chain if and only if the ring holds, before the call, the fork's ancestors in the coming window, which is given by the supplied height and the number of headers |
| Tracking.TracksStep | programs/btc-relay/src/lib.rs:75-374 | every instruction keeps all readable headers on the ghost chain, if a promotion leaves no header of another branch where the coming tip, or a later one, could read it |
| Tracking.PassingIsOnMainChain | programs/btc-relay/src/state.rs:43-95 | in every run whose promotions do so, wherever the promoted forks start, whatever passes the commitment check is on the main chain, a valid one from the initial header to the recorded tip |
| Tracking.SupportedIsCleared | programs/btc-relay/src/lib.rs:259-348 | runs under the stronger hypothesis, where the ring represents the chain exactly, are among these |
| Tracking.NextPassingExactly | programs/btc-relay/src/lib.rs:259-348 | after the next promotion whatever passes is on the fork's chain if and only if, before the call, no slot holds a header off its ancestry that the coming tip can read |
| DisplacedBase.RunThatBreaksTheRing | programs/btc-relay/src/lib.rs:259-348 | for any block hash and any nine valid headers, from an initial height of 250 or more with room above it, in which a heavier branch replaces a fork's base before the fork outweighs it, five calls succeed, after which the replaced base's rival passes the commitment check though it is off the main chain |
| ZeroHash.DisplacingHeaders | programs/btc-relay/src/lib.rs:259-348 | such headers exist |
| Payments.MintAmountIsSum | programs/btc-relay/src/utils.rs:342-354 | the filtered fold is the exact sum of matching outputs, and panics exactly when that exceeds 64 bits |
| Payments.TransferConserves | programs/btc-relay/src/lib.rs:419-427 | a payout debits one account, credits the other by the same amount and touches nobody else |
| Payments.LamportsConserved | programs/btc-relay/src/lib.rs:379-540 | no run changes the total of lamports |
| Payments.SmallTxPaysOnlyIncluded | programs/btc-relay/src/lib.rs:379-428 | in every run a payment implies that the txid folds to the Merkle root of a header that ends a valid chain from the initial one, with the asked confirmations, and moves exactly ten times the positive sum of matching outputs and nothing else; the header is on the main chain if no promotion of the run left another branch readable |
| Payments.ChunkAccounts | programs/btc-relay/src/lib.rs:476-517 | every chunk account was opened by an earlier successful inclusion check, holds the concatenation of all stored chunks, and never more than the size it was opened with |
| Payments.BigTxPaysOnlyIncluded | programs/btc-relay/src/lib.rs:476-540 | in every run finalizing pays only for the transaction the stored chunks decode to, under the id an earlier call proved into such a header, and ten times its positive sum; that header was on the main chain if no promotion before the opening left another branch readable |
| Payments.ProvedIsListed | programs/btc-relay/src/utils.rs:306-330 | if the header's Merkle root is that of a list of txids under an injective pair hash, what was proved into it is what the proof names in that list, and a listed txid if the proof has the tree's height |
| Payments.PaymentsAreListed | programs/btc-relay/src/lib.rs:379-540 | so both payment paths pay only for what the supplied proof names among the block's transactions |
| Accounting.SmallTxExactly | programs/btc-relay/src/lib.rs:379-428 | in a reachable state a small payment succeeds if and only if the deposit account exists, the header passes the commitment check with the asked confirmations counted inclusively, the bytes decode, ten times the positive sum is on the deposit account and fits the receiver's, and the proof folds to the root; exactly the two balances change; and the error otherwise |
| Accounting.OpenExactly | programs/btc-relay/src/lib.rs:476-508 | the same for opening a chunk account, which changes nothing but that account |
| Accounting.StoreExactly | programs/btc-relay/src/lib.rs:510-517 | bytes are appended if and only if the account exists and is not overfilled, exactly full included |
| Accounting.FinalizeExactly | programs/btc-relay/src/lib.rs:519-540 | finalizing succeeds if and only if both accounts exist, the bytes decode under that txid and the payout is covered; exactly the two balances change; and the error otherwise |
| Accounting.DepositExactly | programs/btc-relay/src/lib.rs:458-474 | a deposit succeeds if and only if it is the first, the signer has the amount and the deposit account can hold it; the signer then has that much less and the deposit account that much more |
| Accounting.CloseExactly | programs/btc-relay/src/lib.rs:372-374 | closing removes the signer's fork under that id and nothing else, and fails exactly if there is none |
| Accounting.InitializesExactly | programs/btc-relay/src/lib.rs:27-72 | the one commitment is to the header, height, work, adjustment time and window given, in slot 0 of an otherwise empty ring |
| Accounting.TipOutOfRing | programs/btc-relay/src/state.rs:80-95 | once the tip is 250 or more below the ring's start, no append, short reorganisation, opening of a fork or inclusion proof succeeds |
| Accounting.TipPasses | programs/btc-relay/src/state.rs:61-75 | in runs whose promotions find a chain to their base in the ring, from a height of 250 on, the tip always passes the commitment check |
| TxParser.ReadEncodedVarInt | utils/txutils.rs:41-54 | the variable-length integer is read back from every encoding |
| TxParser.VarIntExactly | utils/txutils.rs:41-54 | which bytes the variable-length integer is read from, minimal or not, and when it is out of bounds |
| TxParser.Parse | utils/txutils.rs:58-156 | the cursor's nested loops compute the specified transaction and stop where it says, with the same failures |
| TxParser.ParserInvertsLegacyExactly | utils/txutils.rs:58-156 | the legacy form is recovered in full, all bytes consumed and hashed, if and only if the transaction has an input |
| TxParser.ParserInvertsSegwitExactly | utils/txutils.rs:58-156 | the BIP 144 form is recovered in full, all bytes consumed and the legacy form hashed, if and only if the version is at least 2 and all scriptSigs are empty |
| TxParser.ParserInvertsLegacy | utils/txutils.rs:58-156 | with bytes behind the legacy form the same is recovered and consumed, and all bytes are hashed |
| TxParser.ParserInvertsSegwit | utils/txutils.rs:58-156 | with bytes behind the BIP 144 form the same is recovered and consumed, and the legacy form and those bytes are hashed |
| TxParser.ParseStable | utils/txutils.rs:58-156 | whatever parses parses the same with more bytes behind it, but for the hash |
| TxParser.PrefixFails | utils/txutils.rs:58-156 | no strict prefix of an invertible form parses |
| TxParser.MixedScriptsStopEarly | utils/txutils.rs:118-129 | with a non-empty scriptSig the parser skips too few witness stacks and, if it succeeds at all, stops before the end |
| TxParser.OldVersionLosesInputs | utils/txutils.rs:60-69 | below version 2 the marker is read as an input count of zero |
| Relayer.ReconstructCommitedHeader | block_relayer/src/relay_program_interaction.rs:21-51 | walks back ten blocks and fails exactly when the node lacks an answer or the walk would pass height zero |
| Relayer.ReconstructedMatchesExactly | block_relayer/src/relay_program_interaction.rs:30-50 | on a node that has the chain's headers the result is the committed header if and only if that one carries no work, the supplied adjustment time is its own, and the entries of the initial window it still shows are the node's |
| Relayer.LaterHeadersAreRebuilt | block_relayer/src/relay_program_interaction.rs:30-50 | from the tenth header on, the result is the committed header but for zero work and the supplied adjustment time, whatever initial window was given |
| Relayer.RebuiltHeadersNeverPass | block_relayer/src/relay_program_interaction.rs:37-50 | with headroom and an initial target up to the maximum, a rebuilt header passes the commitment check at no height but the initial one, in any run |

## Left out

- Refinement.RingRefinesChain: assumes that each promoting call of the run finds a valid chain to its fork's base in the ring's coming window, because otherwise the statement is false as `Promotion.NextPromotionExactly` and `DisplacedBase.RunThatBreaksTheRing` show. It leaves aside forks whose first header already lies below that window: headers stored below it can be read for a while, so the window it names is not exact there; `Tracking.PassingIsOnMainChain` covers them in the direction from passing to being on the chain.
- Runs.HeaviestChain: for runs in which no append overflows; `Runs.AlwaysHeaviestExactly` and `Runs.WorkNeverDecreasesExactly` are the exact statements.
- Relayer.RebuiltHeadersNeverPass: assumes headroom and the difficulty floor, because a chain_work that has wrapped round can be zero again.
- Accounts.MainState.Initialize: runs start after `initialize`, which checks none of its arguments; the second call the framework refuses is not part of the model.
- Bank.Ledger.InitBigTxVerify: the framework's own upper limit on the size of a new account is not part of the model.
- Relayer.ReconstructCommitedHeader: the remote node is two maps, from height to block hash and from hash to header, fixed for the duration of the call.
- TxParser.Parse: lengths read from the data are not converted to machine words, so an offset that would overflow panics as out of bounds instead.
- Program-derived addresses, rent, signatures and events: framework behaviour. Only "fork account keyed by id and signer" and "chunk account keyed by txid, created once" remain.
- The `bitcoin_testnet` feature, which switches off the nBits rule.
- SHA-256, HASH160, Borsh encoding, `consensus_decode`, `compute_txid`, and the deposit script and its address: library code, kept as unconstrained functions.
- The `block_height` instruction and utils/txverify.rs: settled by reading one branch.
- The relayer's RPC loop, HTTP server, configuration, faucet and HTML form.
- At-most-once payment: the program keeps no record of processed transactions, so it does not promise it.
- The fixed-width fields of the zero-copy accounts in memory: the model keeps their values and ranges, not their layout.
