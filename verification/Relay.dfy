/** lib.rs as functions: what each instruction makes of the stored accounts. */
module Relay {
  import opened Bytes
  import opened Results
  import opened Structs
  import opened Accounts
  import opened Headers
  import Merkle

  type Script = seq<byte>

  datatype Output = Output(script: Script, value: u64)

  /** What `consensus_decode` and `compute_txid` make of raw bytes. */
  datatype DecodedTx = DecodedTx(txid: Digest, outputs: seq<Output>)

  /** The library code the program calls, as functions about which nothing is assumed. */
  datatype Env = Env(
    blockHash: BlockHash,
    nodeHash: (Digest, Digest) -> Digest,
    decode: seq<byte> -> Option<DecodedTx>,
    depositScript: Pubkey -> Script)

  datatype ForkKey = ForkKey(id: u64, signer: Pubkey)

  /** The owners of lamports: the program's deposit account and everybody else. */
  datatype Owner = DepositAccount | Wallet(key: Pubkey)

  type Lamports = map<Owner, u64>

  /** A chunk account: the bytes stored so far and the size it was opened for. */
  datatype BigTx = BigTx(bytes: seq<byte>, size: u64)

  type BigTxs = map<Digest, BigTx>

  /** All accounts the program touches, after `initialize`. */
  datatype State = State(
    main: MainView,
    forks: map<ForkKey, ForkView>,
    txs: BigTxs,
    depositOpen: bool,
    lamports: Lamports)

  datatype Inclusion = Inclusion(confirmations: u32, txIndex: u32, proof: seq<Digest>, committed: CommittedBlockHeader)

  /** The three submissions say how many remaining accounts came along; each header is paired with the one at its
      index. */
  datatype Instruction =
    | SubmitBlockHeaders(accounts: nat, headers: seq<Offer>, committed: CommittedBlockHeader)
    | SubmitShortForkHeaders(accounts: nat, headers: seq<Offer>, committed: CommittedBlockHeader)
    | SubmitForkHeaders(signer: Pubkey, accounts: nat, headers: seq<Offer>, committed: CommittedBlockHeader,
                        forkId: u64, init: bool)
    | CloseForkAccount(signer: Pubkey, forkId: u64)
    | VerifySmallTx(receiver: Pubkey, txBytes: seq<byte>, inclusion: Inclusion)
    | Deposit(signer: Pubkey, amount: u64)
    | InitBigTxVerify(txId: Digest, txSize: u64, inclusion: Inclusion)
    | StoreTxBytes(txId: Digest, bytes: seq<byte>)
    | FinalizeTxProcessing(receiver: Pubkey, txId: Digest)

  /** An instruction together with the clock reading it runs under. */
  datatype Call = Call(ix: Instruction, now: u32)

  // ---------------------------------------------------------------- initialize

  function InitialHeader(data: BlockHeader, blockHeight: u32, chainWork: U256, lastDiffAdjustment: u32, stamps: Window)
    : CommittedBlockHeader
  {
    CommittedBlockHeader(chainWork, data, lastDiffAdjustment, blockHeight, stamps)
  }

  // ---------------------------------------------------------------- header loops

  /** Where a header loop stands: the account it writes, its own height counter, the last header. */
  datatype Progress<V> = Progress(account: V, height: u32, last: CommittedBlockHeader)

  /** One round of the loops: link, count, verify. */
  ghost function Accepted(bh: BlockHash, last: CommittedBlockHeader, height: u32, offer: Offer, now: u32)
    : Result<CommittedBlockHeader>
  {
    if bh(last.header) != offer.header.prevBlockhash then Err(PrevBlock)
    else if height == U32_MAX then Err(Panic)
    else Verified(bh, offer.header, offer.topic, last, now)
  }

  /** The loop of the two main-chain instructions. */
  ghost function AppendToMain(bh: BlockHash, p: Progress<MainView>, headers: seq<Offer>, now: u32)
    : Result<Progress<MainView>>
    decreases |headers|
  {
    if headers == [] then Ok(p) else
      var next :- Accepted(bh, p.last, p.height, headers[0], now);
      var account :- p.account.Stored(p.height + 1, CommitHash(next));
      AppendToMain(bh, Progress(account, p.height + 1, next), headers[1..], now)
  }

  /** The loop of the long-fork instruction. */
  ghost function AppendToFork(bh: BlockHash, p: Progress<ForkView>, headers: seq<Offer>, now: u32)
    : Result<Progress<ForkView>>
    decreases |headers|
  {
    if headers == [] then Ok(p) else
      var next :- Accepted(bh, p.last, p.height, headers[0], now);
      var account :- p.account.Stored(CommitHash(next));
      AppendToFork(bh, Progress(account, p.height + 1, next), headers[1..], now)
  }

  /** The closing "update globals" of the three submissions. */
  function WithTip(bh: BlockHash, m: MainView, height: u32, last: CommittedBlockHeader): MainView {
    m.(lastDiffAdjustment := last.lastDiffAdjustment,
       blockHeight := height,
       chainWork := last.chainWork,
       tipCommitHash := CommitHash(last),
       tipBlockHash := bh(last.header))
  }

  // ---------------------------------------------------------------- header submissions

  function NonEmpty(accounts: nat, headers: seq<Offer>): Check {
    if headers == [] then Failed(NoHeaders)
    else if |headers| != accounts then Failed(InvalidRemainingAccounts)
    else Passed
  }

  ghost function Appended(bh: BlockHash, m: MainView, accounts: nat, headers: seq<Offer>, c: CommittedBlockHeader,
                          now: u32)
    : Result<MainView>
  {
    var nonEmpty := NonEmpty(accounts, headers);
    :- nonEmpty;
    var tip :- m.CommitmentAt(m.blockHeight);
    :- Require(CommitHash(c) == tip, PrevBlockCommitment);
    var p :- AppendToMain(bh, Progress(m, m.blockHeight, c), headers, now);
    Ok(WithTip(bh, p.account, p.height, p.last))
  }

  ghost function ShortForked(bh: BlockHash, m: MainView, accounts: nat, headers: seq<Offer>,
                             c: CommittedBlockHeader, now: u32)
    : Result<MainView>
  {
    var nonEmpty := NonEmpty(accounts, headers);
    :- nonEmpty;
    var base :- m.CommitmentAt(c.blockheight);
    :- Require(CommitHash(c) == base, PrevBlockCommitment);
    var p :- AppendToMain(bh, Progress(m, c.blockheight, c), headers, now);
    :- Require(Val(p.last.chainWork) > Val(m.chainWork), ForkTooShort);
    :- Require(m.forkCounter < U64_MAX, Panic);
    Ok(WithTip(bh, p.account, p.height, p.last).(forkCounter := m.forkCounter + 1))
  }

  /** Copying a fork's commitments, from its i-th on, over the ring. */
  ghost function Promoted(m: MainView, f: ForkView, i: nat): Result<MainView>
    decreases f.length - i
  {
    if i >= f.length then Ok(m) else
      :- Require(f.startHeight + 1 + i <= U32_MAX && i < 250, Panic);
      var m' :- m.Stored(f.startHeight + 1 + i, f.blockCommitments[i]);
      Promoted(m', f, i + 1)
  }

  datatype Forked = Forked(main: MainView, fork: Option<ForkView>)

  /** The opening of submit_fork_headers: a fresh fork takes the next id and a base, an open one must match its tip. */
  ghost function ForkOpened(m: MainView, f: ForkView, c: CommittedBlockHeader, forkId: u64): Result<(MainView,
                            ForkView)> {
    if f.initialized == 0 then
      :- Require(m.forkCounter == forkId, InvalidForkId);
      :- Require(forkId < U64_MAX, Panic);
      var m' := m.(forkCounter := forkId + 1);
      var base :- m'.CommitmentAt(c.blockheight);
      :- Require(CommitHash(c) == base, PrevBlockCommitment);
      Ok((m', f.(initialized := 1, startHeight := c.blockheight)))
    else
      :- Require(CommitHash(c) == f.tipCommitHash, PrevBlockCommitment);
      Ok((m, f))
  }

  /** The closing: a heavier fork overwrites the ring and its account is closed (None), a lighter one waits. */
  ghost function ForkSettled(bh: BlockHash, m: MainView, p: Progress<ForkView>): Result<Forked> {
    if Val(p.last.chainWork) > Val(m.chainWork) then
      var m' :- Promoted(m, p.account, 0);
      Ok(Forked(WithTip(bh, m', p.height, p.last), None))
    else
      Ok(Forked(m, Some(p.account.(tipBlockHash := bh(p.last.header), tipCommitHash := CommitHash(p.last)))))
  }

  ghost function LongForked(bh: BlockHash, m: MainView, stored: Option<ForkView>, accounts: nat,
                            headers: seq<Offer>,
                            c: CommittedBlockHeader, forkId: u64, init: bool, now: u32)
    : Result<Forked>
  {
    var nonEmpty := NonEmpty(accounts, headers);
    :- nonEmpty;
    :- Require(init == stored.None?, BadAccount);
    var f := if stored.Some? then stored.value else EmptyFork();
    :- Require(init == (f.initialized == 0), ErrInit);
    var started :- ForkOpened(m, f, c, forkId);
    var p :- AppendToFork(bh, Progress(started.1, c.blockheight, c), headers, now);
    ForkSettled(bh, started.0, p)
  }

  // ---------------------------------------------------------------- inclusion and payment

  /** The checks verify_small_tx and init_big_tx_verify share before the Merkle proof. */
  ghost function Confirmed(m: MainView, inc: Inclusion): Check {
    var height := inc.committed.blockheight;
    if height > m.blockHeight || m.blockHeight - height == U32_MAX then Failed(Panic)
    else if m.blockHeight - height + 1 < inc.confirmations then Failed(BlockConfirmations)
    else match m.CommitmentAt(height)
      case Err(e) => Failed(e)
      case Ok(found) => Require(CommitHash(inc.committed) == found, PrevBlockCommitment)
  }

  function ProofHolds(env: Env, txid: Digest, inc: Inclusion): bool {
    Merkle.Fold(env.nodeHash, txid, inc.txIndex, inc.proof) == inc.committed.header.merkleRoot
  }

  /** bridge_mint_amount: filter and sum, in checked 64-bit arithmetic. */
  function MintAmount(outputs: seq<Output>, script: Script): Result<u64> {
    if outputs == [] then Ok(0) else
      var front :- MintAmount(outputs[..|outputs| - 1], script);
      var out := outputs[|outputs| - 1];
      if out.script != script then Ok(front)
      else if front + out.value > U64_MAX then Err(Panic)
      else Ok(front + out.value)
  }

  function Balance(lamports: Lamports, owner: Owner): u64 {
    if owner in lamports then lamports[owner] else 0
  }

  /** Moving lamports with checked arithmetic on both sides. */
  function Moved(lamports: Lamports, source: Owner, target: Owner, amount: u64): Result<Lamports> {
    if Balance(lamports, source) < amount then Err(Panic) else
      var debited := lamports[source := Balance(lamports, source) - amount];
      if Balance(debited, target) + amount > U64_MAX then Err(Panic)
      else Ok(debited[target := Balance(debited, target) + amount])
  }

  /** Ten lamports for every satoshi, from the deposit account. */
  function PaidOut(lamports: Lamports, receiver: Pubkey, satoshi: u64): Result<Lamports> {
    if satoshi * 10 > U64_MAX then Err(Panic)
    else Moved(lamports, DepositAccount, Wallet(receiver), satoshi * 10)
  }

  ghost function SmallTxPaid(env: Env, s: State, receiver: Pubkey, txBytes: seq<byte>, inc: Inclusion): Result<Lamports>
  {
    if !s.depositOpen then Err(BadAccount) else
    var confirmed := Confirmed(s.main, inc);
    :- confirmed;
    :- Require(env.decode(txBytes).Some?, Panic);
    var tx := env.decode(txBytes).value;
    var amount :- MintAmount(tx.outputs, env.depositScript(receiver));
    :- Require(amount > 0, NoDepositOutputs);
    :- Require(ProofHolds(env, tx.txid, inc), MerkleRoot);
    PaidOut(s.lamports, receiver, amount)
  }

  /** The discriminator and the length prefix every chunk account starts with. */
  const BIG_TX_OVERHEAD: u64 := 8 + 4

  ghost function BigTxOpened(env: Env, s: State, txId: Digest, txSize: u64, inc: Inclusion): Result<BigTxs>
  {
    if BIG_TX_OVERHEAD + txSize > U64_MAX then Err(Panic) else
    if txId in s.txs then Err(BadAccount) else
    var confirmed := Confirmed(s.main, inc);
    :- confirmed;
    :- Require(ProofHolds(env, txId, inc), MerkleRoot);
    Ok(s.txs[txId := BigTx([], txSize)])
  }

  /** Bytes that no longer fit the account fail when it is written back. */
  function BigTxExtended(s: State, txId: Digest, bytes: seq<byte>): Result<BigTxs> {
    if txId !in s.txs || |s.txs[txId].bytes + bytes| > s.txs[txId].size then Err(BadAccount)
    else Ok(s.txs[txId := s.txs[txId].(bytes := s.txs[txId].bytes + bytes)])
  }

  function BigTxPaid(env: Env, s: State, receiver: Pubkey, txId: Digest): Result<Lamports> {
    if txId !in s.txs || !s.depositOpen then Err(BadAccount) else
    match env.decode(s.txs[txId].bytes)
    case None => Err(Panic)
    case Some(tx) =>
      if txId != tx.txid then Err(Panic) else
      var amount :- MintAmount(tx.outputs, env.depositScript(receiver));
      if amount == 0 then Err(NoDepositOutputs) else
      PaidOut(s.lamports, receiver, amount)
  }

  // ---------------------------------------------------------------- one step, and runs

  function StoredFork(s: State, key: ForkKey): Option<ForkView> {
    if key in s.forks then Some(s.forks[key]) else None
  }

  function WithFork(forks: map<ForkKey, ForkView>, key: ForkKey, fork: Option<ForkView>): map<ForkKey, ForkView> {
    if fork.Some? then forks[key := fork.value] else forks - {key}
  }

  /** What a submit_fork_headers call makes of the main account and of the signer's fork account. */
  ghost function ForkOutcome(env: Env, s: State, call: Call): Result<Forked>
    requires call.ix.SubmitForkHeaders?
  {
    var ix := call.ix;
    LongForked(env.blockHash, s.main, StoredFork(s, ForkKey(ix.forkId, ix.signer)),
               ix.accounts, ix.headers, ix.committed, ix.forkId, ix.init, call.now)
  }

  /** What a successful instruction leaves behind. */
  ghost function Executed(env: Env, s: State, call: Call): Result<State> {
    match call.ix
    case SubmitBlockHeaders(accounts, headers, c) =>
      var m :- Appended(env.blockHash, s.main, accounts, headers, c, call.now);
      Ok(s.(main := m))
    case SubmitShortForkHeaders(accounts, headers, c) =>
      var m :- ShortForked(env.blockHash, s.main, accounts, headers, c, call.now);
      Ok(s.(main := m))
    case SubmitForkHeaders(signer, accounts, headers, c, forkId, init) =>
      var r :- ForkOutcome(env, s, call);
      Ok(s.(main := r.main, forks := WithFork(s.forks, ForkKey(forkId, signer), r.fork)))
    case CloseForkAccount(signer, forkId) =>
      :- Require(ForkKey(forkId, signer) in s.forks, BadAccount);
      Ok(s.(forks := s.forks - {ForkKey(forkId, signer)}))
    case VerifySmallTx(receiver, txBytes, inc) =>
      var lamports :- SmallTxPaid(env, s, receiver, txBytes, inc);
      Ok(s.(lamports := lamports))
    case Deposit(signer, amount) =>
      :- Require(!s.depositOpen, BadAccount);
      var lamports :- Moved(s.lamports, Wallet(signer), DepositAccount, amount);
      Ok(s.(depositOpen := true, lamports := lamports))
    case InitBigTxVerify(txId, txSize, inc) =>
      var txs :- BigTxOpened(env, s, txId, txSize, inc);
      Ok(s.(txs := txs))
    case StoreTxBytes(txId, bytes) =>
      var txs :- BigTxExtended(s, txId, bytes);
      Ok(s.(txs := txs))
    case FinalizeTxProcessing(receiver, txId) =>
      var lamports :- BigTxPaid(env, s, receiver, txId);
      Ok(s.(lamports := lamports))
  }

  /** The runtime's view: a failed instruction changes nothing. */
  ghost function Step(env: Env, s: State, call: Call): State {
    match Executed(env, s, call)
    case Ok(s') => s'
    case Err(_) => s
  }

  ghost function Run(env: Env, s: State, calls: seq<Call>): State {
    if calls == [] then s else Step(env, Run(env, s, calls[..|calls| - 1]), calls[|calls| - 1])
  }

  /** The state `initialize` leaves, with whatever lamports the accounts hold. */
  function InitialState(env: Env, c: CommittedBlockHeader, lamports: Lamports): State {
    State(InitialMain(env.blockHash, c), map[], map[], false, lamports)
  }
}
