/** Exactly when the remaining instructions succeed in a reachable state, with which error they fail, and all they
    change. */
module Accounting {
  import opened Bytes
  import opened Results
  import opened Structs
  import opened Accounts
  import opened Relay
  import opened Chains
  import opened Ring
  import opened Soundness
  import opened Payments
  import opened Refinement
  import opened Admission
  import Headers
  import Merkle

  // ---------------------------------------------------------------- inclusion

  /** The header passes the commitment check, and counted with it, enough blocks reach up to the tip. */
  ghost predicate Buried(m: MainView, inc: Inclusion) {
    Passes(m, inc.committed) && m.blockHeight - inc.committed.blockheight + 1 >= inc.confirmations
  }

  ghost predicate Folds(env: Env, txid: Digest, inc: Inclusion) {
    Merkle.Fold(env.nodeHash, txid, inc.txIndex, inc.proof) == inc.committed.header.merkleRoot
  }

  lemma ConfirmedExactly(m: MainView, inc: Inclusion)
    requires m.blockHeight < m.startHeight + 250
    ensures Confirmed(m, inc) == Passed <==> Buried(m, inc)
    ensures var (r, height, tip) := (Confirmed(m, inc), inc.committed.blockheight, m.blockHeight);
            if height > tip || tip - height == U32_MAX then r == Failed(Panic)
            else if tip - height + 1 < inc.confirmations then r == Failed(BlockConfirmations)
            else if tip < 250 then r == Failed(Panic)
            else !Passes(m, inc.committed) ==> r == Failed(PrevBlockCommitment)
  {
    hide InSlot;
    ReadExactly(m, inc.committed);
  }

  // ---------------------------------------------------------------- payouts

  /** The transaction sends something to the receiver's deposit script, ten times of which the deposit account has and
      the receiver can hold. */
  ghost predicate Payable(env: Env, lamports: Lamports, receiver: Pubkey, outputs: seq<Output>) {
    var sent := SentTo(outputs, env.depositScript(receiver));
    && 0 < sent
    && 10 * sent <= Balance(lamports, DepositAccount)
    && Balance(lamports, Wallet(receiver)) + 10 * sent <= U64_MAX
  }

  /** Ten times what is sent, off the deposit account and onto the receiver. */
  ghost function AfterPayout(env: Env, lamports: Lamports, receiver: Pubkey, outputs: seq<Output>): Lamports
    requires Payable(env, lamports, receiver, outputs)
  {
    var amount := 10 * SentTo(outputs, env.depositScript(receiver));
    lamports[DepositAccount := Balance(lamports, DepositAccount) - amount]
            [Wallet(receiver) := Balance(lamports, Wallet(receiver)) + amount]
  }

  lemma PayoutExactly(env: Env, lamports: Lamports, receiver: Pubkey, outputs: seq<Output>)
    ensures var script := env.depositScript(receiver);
            var (r, sent) := (MintAmount(outputs, script), SentTo(outputs, script));
            && (sent > U64_MAX ==> r == Err(Panic))
            && (sent <= U64_MAX ==> r == Ok(sent))
            && (0 < sent <= U64_MAX ==>
                  PaidOut(lamports, receiver, sent)
                  == if Payable(env, lamports, receiver, outputs) then Ok(AfterPayout(env, lamports, receiver, outputs))
                     else Err(Panic))
            && (Payable(env, lamports, receiver, outputs) ==> sent <= U64_MAX)
  {
    MintAmountIsSum(outputs, env.depositScript(receiver));
    MintAmountPanics(outputs, env.depositScript(receiver));
  }

  lemma {:induction false} MintAmountPanics(outputs: seq<Output>, script: Script)
    ensures MintAmount(outputs, script).Err? ==> MintAmount(outputs, script) == Err(Panic)
  {
    if outputs != [] {
      MintAmountPanics(outputs[..|outputs| - 1], script);
    }
  }

  /** verify_small_tx in a reachable state: success, outcome and errors. */
  lemma SmallTxExactly(env: Env, genesis: CommittedBlockHeader, s: State, call: Call)
    requires Sound(env, genesis, s) && call.ix.VerifySmallTx?
    ensures var (ix, inc) := (call.ix, call.ix.inclusion);
            var tx := env.decode(ix.txBytes);
            Executed(env, s, call).Ok? <==>
              && s.depositOpen && Buried(s.main, inc)
              && tx.Some? && Payable(env, s.lamports, ix.receiver, tx.value.outputs)
              && Folds(env, tx.value.txid, inc)
    ensures Executed(env, s, call).Ok? ==>
              var outputs := env.decode(call.ix.txBytes).value.outputs;
              && Payable(env, s.lamports, call.ix.receiver, outputs)
              && Executed(env, s, call) == Ok(s.(lamports := AfterPayout(env, s.lamports, call.ix.receiver, outputs)))
    ensures var (ix, inc, m, r) := (call.ix, call.ix.inclusion, s.main, Executed(env, s, call));
            var (tx, height) := (env.decode(ix.txBytes), inc.committed.blockheight);
            if !s.depositOpen then r == Err(BadAccount)
            else if height > m.blockHeight || m.blockHeight - height == U32_MAX then r == Err(Panic)
            else if m.blockHeight - height + 1 < inc.confirmations then r == Err(BlockConfirmations)
            else if m.blockHeight < 250 then r == Err(Panic)
            else if !Passes(m, inc.committed) then r == Err(PrevBlockCommitment)
            else if tx.None? || SentTo(tx.value.outputs, env.depositScript(ix.receiver)) > U64_MAX then r == Err(Panic)
            else if SentTo(tx.value.outputs, env.depositScript(ix.receiver)) == 0 then r == Err(NoDepositOutputs)
            else if !Folds(env, tx.value.txid, inc) then r == Err(MerkleRoot)
            else !Payable(env, s.lamports, ix.receiver, tx.value.outputs) ==> r == Err(Panic)
  {
    hide Confirmed, MintAmount, PaidOut, AfterPayout, InSlot, SentTo, ForkSound, Balance;
    var (ix, inc) := (call.ix, call.ix.inclusion);
    ConfirmedExactly(s.main, inc);
    if env.decode(ix.txBytes).Some? {
      var outputs := env.decode(ix.txBytes).value.outputs;
      PayoutExactly(env, s.lamports, ix.receiver, outputs);
    }
  }

  // ---------------------------------------------------------------- transactions sent in chunks

  /** init_big_tx_verify. */
  lemma OpenExactly(env: Env, genesis: CommittedBlockHeader, s: State, call: Call)
    requires Sound(env, genesis, s) && call.ix.InitBigTxVerify?
    ensures var (ix, inc, m, r) := (call.ix, call.ix.inclusion, s.main, Executed(env, s, call));
            var height := inc.committed.blockheight;
            && (r.Ok? <==> 12 + ix.txSize <= U64_MAX && ix.txId !in s.txs && Buried(m, inc) && Folds(env, ix.txId, inc))
            && (r.Ok? ==> r == Ok(s.(txs := s.txs[ix.txId := BigTx([], ix.txSize)])))
            && if 12 + ix.txSize > U64_MAX then r == Err(Panic)
               else if ix.txId in s.txs then r == Err(BadAccount)
               else if height > m.blockHeight || m.blockHeight - height == U32_MAX then r == Err(Panic)
               else if m.blockHeight - height + 1 < inc.confirmations then r == Err(BlockConfirmations)
               else if m.blockHeight < 250 then r == Err(Panic)
               else if !Passes(m, inc.committed) then r == Err(PrevBlockCommitment)
               else !Folds(env, ix.txId, inc) ==> r == Err(MerkleRoot)
  {
    hide Confirmed, InSlot, ForkSound;
    ConfirmedExactly(s.main, call.ix.inclusion);
  }

  /** store_tx_bytes: anyone may append to an open account, up to and including its size. */
  lemma StoreExactly(env: Env, s: State, call: Call)
    requires call.ix.StoreTxBytes?
    ensures var (ix, r) := (call.ix, Executed(env, s, call));
            if ix.txId in s.txs && |s.txs[ix.txId].bytes| + |ix.bytes| <= s.txs[ix.txId].size then
              var tx := s.txs[ix.txId];
              r == Ok(s.(txs := s.txs[ix.txId := BigTx(tx.bytes + ix.bytes, tx.size)]))
            else r == Err(BadAccount)
  {}

  /** finalize_tx_processing: anyone may, as often as there is something to pay with. */
  lemma FinalizeExactly(env: Env, s: State, call: Call)
    requires call.ix.FinalizeTxProcessing?
    ensures var (ix, r) := (call.ix, Executed(env, s, call));
            var tx := if ix.txId in s.txs then env.decode(s.txs[ix.txId].bytes) else None;
            && (r.Ok? <==> s.depositOpen && tx.Some? && tx.value.txid == ix.txId
                           && Payable(env, s.lamports, ix.receiver, tx.value.outputs))
            && (r.Ok? ==> r == Ok(s.(lamports := AfterPayout(env, s.lamports, ix.receiver, tx.value.outputs))))
            && if ix.txId !in s.txs || !s.depositOpen then r == Err(BadAccount)
               else if tx.None? || tx.value.txid != ix.txId then r == Err(Panic)
               else if SentTo(tx.value.outputs, env.depositScript(ix.receiver)) == 0 then r == Err(NoDepositOutputs)
               else !Payable(env, s.lamports, ix.receiver, tx.value.outputs) ==> r == Err(Panic)
  {
    hide MintAmount, PaidOut, AfterPayout, SentTo, Balance;
    var ix := call.ix;
    if ix.txId in s.txs && env.decode(s.txs[ix.txId].bytes).Some? {
      PayoutExactly(env, s.lamports, ix.receiver, env.decode(s.txs[ix.txId].bytes).value.outputs);
    }
  }

  // ---------------------------------------------------------------- deposit, closing a fork, initialize

  /** deposit: once, from the signer to the deposit account. */
  lemma DepositExactly(env: Env, s: State, call: Call)
    requires call.ix.Deposit?
    ensures var (signer, amount, r) := (Wallet(call.ix.signer), call.ix.amount, Executed(env, s, call));
            var (held, kept) := (Balance(s.lamports, DepositAccount), Balance(s.lamports, signer));
            && (r.Ok? <==> !s.depositOpen && amount <= kept && held + amount <= U64_MAX)
            && (s.depositOpen ==> r == Err(BadAccount)) && (!s.depositOpen && r.Err? ==> r == Err(Panic))
            && (r.Ok? ==>
                  var s' := r.value;
                  && s' == s.(depositOpen := true, lamports := s'.lamports)
                  && Balance(s'.lamports, signer) == kept - amount
                  && Balance(s'.lamports, DepositAccount) == held + amount
                  && forall o :: o != signer && o != DepositAccount ==>
                       Balance(s'.lamports, o) == Balance(s.lamports, o))
  {}

  /** close_fork_account: only the signer's own fork, at any time; nothing else changes. */
  lemma CloseExactly(env: Env, s: State, call: Call)
    requires call.ix.CloseForkAccount?
    ensures var key := ForkKey(call.ix.forkId, call.ix.signer);
            Executed(env, s, call)
            == if key in s.forks then Ok(s.(forks := map k | k in s.forks && k != key :: s.forks[k]))
               else Err(BadAccount)
  {
    var key := ForkKey(call.ix.forkId, call.ix.signer);
    assert s.forks - {key} == map k | k in s.forks && k != key :: s.forks[k];
  }

  /** initialize: the one commitment, in slot 0, is to the arguments put together. */
  lemma InitializesExactly(env: Env, data: BlockHeader, height: u32, work: U256, adjusted: u32, stamps: Window,
                           lamports: Lamports)
    ensures var s := InitialState(env, InitialHeader(data, height, work, adjusted, stamps), lamports);
            var (m, k) := (s.main, s.main.tipCommitHash);
            && k.CommitHash? && k.committed.header == data && k.committed.blockheight == height
            && k.committed.chainWork == work && k.committed.lastDiffAdjustment == adjusted
            && k.committed.prevBlockTimestamps == stamps
            && m.blockCommitments[0] == k && (forall p :: 0 < p < 250 ==> m.blockCommitments[p] == NoCommitment)
            && m.startHeight == m.blockHeight == height && m.chainWork == work && m.lastDiffAdjustment == adjusted
            && m.tipBlockHash == env.blockHash(data) && m.totalBlocks == 1 && m.forkCounter == 0
            && s == State(m, map[], map[], false, lamports)
  {}

  // ---------------------------------------------------------------- when the tip has left the ring

  /** A fork promoted from 250 or more below the ring's start leaves a tip that was not stored. From then on nothing
      can be appended, reorganised, opened or proved; only forks already open may still change that. */
  lemma TipOutOfRing(env: Env, genesis: CommittedBlockHeader, s: State, call: Call)
    requires Sound(env, genesis, s) && s.main.blockHeight <= s.main.startHeight - 250
    requires match call.ix
             case SubmitForkHeaders(_, _, _, _, _, init) => init
             case SubmitBlockHeaders(_, _, _) => true
             case SubmitShortForkHeaders(_, _, _) => true
             case VerifySmallTx(_, _, _) => true
             case InitBigTxVerify(_, _, _) => true
             case _ => false
    ensures Executed(env, s, call).Err?
  {
    hide Executed, Sound;
    match call.ix
    case SubmitBlockHeaders(_, _, _) => AppendSucceedsExactly(env, genesis, s, call);
    case SubmitShortForkHeaders(_, _, _) => ShortForkSucceedsExactly(env, genesis, s, call);
    case SubmitForkHeaders(_, _, _, _, _, _) => LongForkSucceedsExactly(env, genesis, s, call);
    case VerifySmallTx(_, _, _) => SmallTxExactly(env, genesis, s, call);
    case InitBigTxVerify(_, _, _) => OpenExactly(env, genesis, s, call);
    case _ =>
  }

  /** In runs whose promotions find a chain to their base in the ring, the tip always passes the commitment check, so
      that valid headers can be appended as long as the counter has room. */
  lemma TipPasses(env: Env, c: CommittedBlockHeader, lamports: Lamports, calls: seq<Call>)
    requires PromotionsSupported(env, c, lamports, calls) && c.blockheight >= 250
    ensures var m := Run(env, InitialState(env, c, lamports), calls).main;
            && m.tipCommitHash.CommitHash? && Passes(m, m.tipCommitHash.committed)
            && m.startHeight - 250 < m.blockHeight && 250 <= m.blockHeight
  {
    hide Executed, Run, TracedRun, PromotionsSupported, Links;
    var t := TracedRun(env, c, lamports, calls);
    var tip := Last(t.history.chain);
    RingRefinesChain(env, c, lamports, calls, tip);
    ChainHeights(env.blockHash, t.history.chain, |t.history.chain| - 1);
    ReadExactly(t.state.main, tip);
  }
}
