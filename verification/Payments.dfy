/** What the two payment paths check before they pay, and what they pay. */
module Payments {
  import opened Bytes
  import opened Results
  import opened Structs
  import opened Relay
  import opened Chains
  import opened Ring
  import opened Refinement
  import opened Soundness
  import opened Runs
  import opened Tracking
  import Merkle

  // ---------------------------------------------------------------- amounts and balances

  /** The satoshi a transaction sends to a script, in unbounded arithmetic. */
  ghost function SentTo(outputs: seq<Output>, script: Script): nat {
    if outputs == [] then 0
    else (if outputs[0].script == script then outputs[0].value else 0) + SentTo(outputs[1..], script)
  }

  lemma {:induction false} SentToSnoc(outputs: seq<Output>, out: Output, script: Script)
    ensures SentTo(outputs + [out], script) == SentTo(outputs, script) + (if out.script == script then out.value else 0)
  {
    if outputs == [] {
      assert ([] + [out])[1..] == [];
    } else {
      SentToSnoc(outputs[1..], out, script);
      assert (outputs + [out])[1..] == outputs[1..] + [out];
    }
  }

  /** The checked fold returns the exact sum, and panics exactly when it exceeds 64 bits. */
  lemma {:induction false} MintAmountIsSum(outputs: seq<Output>, script: Script)
    ensures MintAmount(outputs, script).Ok? <==> SentTo(outputs, script) <= U64_MAX
    ensures MintAmount(outputs, script).Ok? ==> MintAmount(outputs, script).value == SentTo(outputs, script)
  {
    if outputs != [] {
      var front, out := outputs[..|outputs| - 1], outputs[|outputs| - 1];
      MintAmountIsSum(front, script);
      SentToSnoc(front, out, script);
      assert outputs == front + [out];
    }
  }

  /** All lamports there are. */
  ghost function Total(lamports: Lamports): nat {
    if lamports == map[] then 0 else
      var owner :| owner in lamports;
      lamports[owner] + Total(lamports - {owner})
  }

  lemma {:induction false} TotalWithout(lamports: Lamports, owner: Owner)
    requires owner in lamports
    ensures Total(lamports) == lamports[owner] + Total(lamports - {owner})
    decreases |lamports|
  {
    var first :| first in lamports && Total(lamports) == lamports[first] + Total(lamports - {first});
    if first != owner {
      TotalWithout(lamports - {first}, owner);
      TotalWithout(lamports - {owner}, first);
      assert lamports - {first} - {owner} == lamports - {owner} - {first};
    }
  }

  lemma TotalUpdate(lamports: Lamports, owner: Owner, amount: u64)
    ensures Total(lamports[owner := amount]) + Balance(lamports, owner) == Total(lamports) + amount
  {
    var updated := lamports[owner := amount];
    TotalWithout(updated, owner);
    if owner in lamports {
      TotalWithout(lamports, owner);
      assert updated - {owner} == lamports - {owner};
    } else {
      assert updated - {owner} == lamports;
    }
  }

  /** A transfer moves exactly the amount, touches nobody else, and loses nothing. */
  lemma TransferConserves(lamports: Lamports, source: Owner, target: Owner, amount: u64)
    requires Moved(lamports, source, target, amount).Ok? && source != target
    ensures var after := Moved(lamports, source, target, amount).value;
            && Balance(after, source) + amount == Balance(lamports, source)
            && Balance(after, target) == Balance(lamports, target) + amount
            && (forall o :: o != source && o != target ==> Balance(after, o) == Balance(lamports, o))
            && Total(after) == Total(lamports)
  {
    var debited := lamports[source := Balance(lamports, source) - amount];
    TotalUpdate(lamports, source, Balance(lamports, source) - amount);
    TotalUpdate(debited, target, Balance(debited, target) + amount);
  }

  lemma TotalStep(env: Env, s: State, call: Call)
    ensures Total(Step(env, s, call).lamports) == Total(s.lamports)
  {
    hide Appended, ShortForked, LongForked, Confirmed;
    if Executed(env, s, call).Ok? {
      match call.ix
      case VerifySmallTx(receiver, txBytes, inc) =>
        var amount := MintAmount(env.decode(txBytes).value.outputs, env.depositScript(receiver)).value;
        TransferConserves(s.lamports, DepositAccount, Wallet(receiver), amount * 10);
      case FinalizeTxProcessing(receiver, txId) =>
        var amount := MintAmount(env.decode(s.txs[txId].bytes).value.outputs, env.depositScript(receiver)).value;
        TransferConserves(s.lamports, DepositAccount, Wallet(receiver), amount * 10);
      case Deposit(signer, amount) =>
        TransferConserves(s.lamports, Wallet(signer), DepositAccount, amount);
      case _ =>
    }
  }

  /** No run creates or destroys lamports. */
  lemma {:induction false} LamportsConserved(env: Env, s: State, calls: seq<Call>)
    ensures Total(Run(env, s, calls).lamports) == Total(s.lamports)
  {
    hide Executed;
    if calls != [] {
      LamportsConserved(env, s, calls[..|calls| - 1]);
      TotalStep(env, Run(env, s, calls[..|calls| - 1]), calls[|calls| - 1]);
    }
  }

  /** A payout of a transaction's deposits: ten lamports a satoshi, from the deposit account to the receiver only. */
  ghost predicate Pays(env: Env, before: Lamports, after: Lamports, receiver: Pubkey, outputs: seq<Output>) {
    var sent := SentTo(outputs, env.depositScript(receiver));
    && sent > 0
    && Balance(after, DepositAccount) + 10 * sent == Balance(before, DepositAccount)
    && Balance(after, Wallet(receiver)) == Balance(before, Wallet(receiver)) + 10 * sent
    && forall o :: o != DepositAccount && o != Wallet(receiver) ==> Balance(after, o) == Balance(before, o)
  }

  // ---------------------------------------------------------------- inclusion

  /** txid folds to the Merkle root of a header, deep enough below the tip, that ends a valid chain from the initial
      header. */
  ghost predicate ProvedIn(env: Env, genesis: CommittedBlockHeader, s: State, txid: Digest, inc: Inclusion) {
    && Anchored(env.blockHash, genesis, inc.committed)
    && inc.committed.blockheight <= s.main.blockHeight
    && s.main.blockHeight - inc.committed.blockheight + 1 >= inc.confirmations
    && Merkle.Fold(env.nodeHash, txid, inc.txIndex, inc.proof) == inc.committed.header.merkleRoot
  }

  /** The shared checks mean this in every reachable state; the header is on the main chain if no promotion of the
      run left another branch in the way. */
  lemma ConfirmedIsProved(env: Env, c: CommittedBlockHeader, lamports: Lamports, calls: seq<Call>, txid: Digest,
                          inc: Inclusion)
    requires var s := Run(env, InitialState(env, c, lamports), calls);
             Confirmed(s.main, inc) == Passed && ProofHolds(env, txid, inc)
    ensures ProvedIn(env, c, Run(env, InitialState(env, c, lamports), calls), txid, inc)
    ensures PromotionsCleared(env, c, lamports, calls) ==>
              OnChain(TracedRun(env, c, lamports, calls).history.chain, inc.committed)
  {
    hide Run, TracedRun, PromotionsCleared, OnChain, Anchored, ValidChain;
    var s := Run(env, InitialState(env, c, lamports), calls);
    SoundRun(env, c, lamports, calls);
    ReadIsAnchored(env.blockHash, c, s.main, inc.committed.blockheight, inc.committed);
    if PromotionsCleared(env, c, lamports, calls) {
      PassingIsOnMainChain(env, c, lamports, calls, inc.committed);
    }
  }

  /** verify_small_tx succeeds, in any run, only for a transaction proved into an anchored header with enough
      confirmations, and then pays exactly ten times what it sends to the receiver's deposit script. The header is
      on the main chain if no promotion left another branch in the way. */
  lemma SmallTxPaysOnlyIncluded(env: Env, c: CommittedBlockHeader, lamports: Lamports, calls: seq<Call>, call: Call)
    requires var s := Run(env, InitialState(env, c, lamports), calls);
             call.ix.VerifySmallTx? && Executed(env, s, call).Ok?
    ensures var s := Run(env, InitialState(env, c, lamports), calls);
            var (after, tx) := (Executed(env, s, call).value, env.decode(call.ix.txBytes));
            && tx.Some?
            && ProvedIn(env, c, s, tx.value.txid, call.ix.inclusion)
            && Pays(env, s.lamports, after.lamports, call.ix.receiver, tx.value.outputs)
            && after == s.(lamports := after.lamports)
    ensures PromotionsCleared(env, c, lamports, calls) ==>
              OnChain(TracedRun(env, c, lamports, calls).history.chain, call.ix.inclusion.committed)
  {
    hide Appended, ShortForked, LongForked, ProvedIn, Pays, MintAmount, SentTo, Confirmed, ProofHolds;
    hide Run, TracedRun, PromotionsCleared, OnChain;
    var s := Run(env, InitialState(env, c, lamports), calls);
    SmallTxChecks(env, s, call.ix.receiver, call.ix.txBytes, call.ix.inclusion);
    var tx := env.decode(call.ix.txBytes).value;
    ConfirmedIsProved(env, c, lamports, calls, tx.txid, call.ix.inclusion);
    PaidOutPays(env, s.lamports, call.ix.receiver, tx.outputs);
  }

  lemma SmallTxChecks(env: Env, s: State, receiver: Pubkey, txBytes: seq<byte>, inc: Inclusion)
    requires SmallTxPaid(env, s, receiver, txBytes, inc).Ok?
    ensures Confirmed(s.main, inc) == Passed && env.decode(txBytes).Some?
    ensures var tx := env.decode(txBytes).value;
            && ProofHolds(env, tx.txid, inc)
            && MintAmount(tx.outputs, env.depositScript(receiver)).Ok?
            && var amount := MintAmount(tx.outputs, env.depositScript(receiver)).value;
            && amount > 0 && SmallTxPaid(env, s, receiver, txBytes, inc) == PaidOut(s.lamports, receiver, amount)
  {
    hide Confirmed;
  }

  lemma PaidOutPays(env: Env, lamports: Lamports, receiver: Pubkey, outputs: seq<Output>)
    requires MintAmount(outputs, env.depositScript(receiver)).Ok?
    requires var amount := MintAmount(outputs, env.depositScript(receiver)).value;
             amount > 0 && PaidOut(lamports, receiver, amount).Ok?
    ensures var amount := MintAmount(outputs, env.depositScript(receiver)).value;
            Pays(env, lamports, PaidOut(lamports, receiver, amount).value, receiver, outputs)
  {
    var amount := MintAmount(outputs, env.depositScript(receiver)).value;
    MintAmountIsSum(outputs, env.depositScript(receiver));
    TransferConserves(lamports, DepositAccount, Wallet(receiver), amount * 10);
  }

  // ---------------------------------------------------------------- transactions sent in chunks

  /** Call i of the run succeeds in opening the account of txId. */
  ghost predicate OpensBigTx(env: Env, s0: State, calls: seq<Call>, i: nat, txId: Digest) {
    && i < |calls| && calls[i].ix.InitBigTxVerify? && calls[i].ix.txId == txId
    && Executed(env, Run(env, s0, calls[..i]), calls[i]).Ok?
  }

  /** The bytes of the run's successful store_tx_bytes calls for txId, in order. */
  ghost function Chunks(env: Env, s0: State, calls: seq<Call>, txId: Digest): seq<byte> {
    if calls == [] then [] else
      var front, last := calls[..|calls| - 1], calls[|calls| - 1];
      Chunks(env, s0, front, txId) +
      if last.ix.StoreTxBytes? && last.ix.txId == txId && Executed(env, Run(env, s0, front), last).Ok?
      then last.ix.bytes
      else []
  }

  /** How one call can change the chunk accounts. */
  lemma BigTxStep(env: Env, s: State, call: Call, txId: Digest)
    requires Executed(env, s, call).Ok?
    ensures var s' := Executed(env, s, call).value;
            && (txId in s.txs ==> txId in s'.txs)
            && (txId in s.txs && call.ix.StoreTxBytes? && call.ix.txId == txId ==>
                  && s'.txs[txId] == s.txs[txId].(bytes := s.txs[txId].bytes + call.ix.bytes)
                  && |s'.txs[txId].bytes| <= s.txs[txId].size)
            && (txId in s.txs && !(call.ix.StoreTxBytes? && call.ix.txId == txId) ==> s'.txs[txId] == s.txs[txId])
            && (call.ix.StoreTxBytes? && call.ix.txId == txId ==> txId in s.txs)
            && (txId !in s.txs && txId in s'.txs ==>
                  call.ix.InitBigTxVerify? && call.ix.txId == txId && s'.txs[txId] == BigTx([], call.ix.txSize))
  {
    hide Appended, ShortForked, LongForked, Confirmed, MintAmount;
  }

  /** Every open chunk account was opened by an earlier inclusion check, holds exactly its chunks in order, and never
      more of them than the size it was opened with. */
  lemma {:induction false} ChunkAccounts(env: Env, s0: State, calls: seq<Call>, txId: Digest)
    requires s0.txs == map[]
    ensures var s := Run(env, s0, calls);
            if txId in s.txs then
              && s.txs[txId].bytes == Chunks(env, s0, calls, txId) && |s.txs[txId].bytes| <= s.txs[txId].size
              && exists i: nat :: OpensBigTx(env, s0, calls, i, txId) && calls[i].ix.txSize == s.txs[txId].size
            else Chunks(env, s0, calls, txId) == []
  {
    hide Executed;
    if calls != [] {
      var front, last := calls[..|calls| - 1], calls[|calls| - 1];
      var s := Run(env, s0, front);
      ChunkAccounts(env, s0, front, txId);
      if txId in s.txs {
        var i: nat :| OpensBigTx(env, s0, front, i, txId) && front[i].ix.txSize == s.txs[txId].size;
        assert calls[..i] == front[..i] && OpensBigTx(env, s0, calls, i, txId);
      }
      if Executed(env, s, last).Ok? {
        BigTxStep(env, s, last, txId);
        if txId !in s.txs && last.ix.InitBigTxVerify? && last.ix.txId == txId {
          assert OpensBigTx(env, s0, calls, |front|, txId);
        }
      }
    }
  }

  /** finalize_tx_processing pays, in any run, only for the transaction its chunks decode to, under the id that an
      earlier call proved into an anchored header, and pays exactly ten times what it sends to the deposit script. That
      header was then on the main chain if no promotion before the opening left another branch in the way. */
  lemma BigTxPaysOnlyIncluded(env: Env, c: CommittedBlockHeader, lamports: Lamports, calls: seq<Call>, call: Call)
    returns (opening: nat)
    requires var s := Run(env, InitialState(env, c, lamports), calls);
             call.ix.FinalizeTxProcessing? && Executed(env, s, call).Ok?
    ensures opening < |calls| && calls[opening].ix.InitBigTxVerify? && calls[opening].ix.txId == call.ix.txId
    ensures ProvedIn(env, c, Run(env, InitialState(env, c, lamports), calls[..opening]), call.ix.txId,
                     calls[opening].ix.inclusion)
    ensures PromotionsCleared(env, c, lamports, calls[..opening]) ==>
              OnChain(TracedRun(env, c, lamports, calls[..opening]).history.chain,
                      calls[opening].ix.inclusion.committed)
    ensures var s := Run(env, InitialState(env, c, lamports), calls);
            var after := Executed(env, s, call).value;
            var tx := env.decode(Chunks(env, InitialState(env, c, lamports), calls, call.ix.txId));
            && tx.Some? && tx.value.txid == call.ix.txId
            && Pays(env, s.lamports, after.lamports, call.ix.receiver, tx.value.outputs)
            && after == s.(lamports := after.lamports)
  {
    hide Appended, ShortForked, LongForked, Confirmed, MintAmount, SentTo, ProvedIn, Pays, Chunks;
    hide Run, TracedRun, PromotionsCleared, OnChain;
    var s0, txId := InitialState(env, c, lamports), call.ix.txId;
    var s := Run(env, s0, calls);
    ChunkAccounts(env, s0, calls, txId);
    PaidOutPays(env, s.lamports, call.ix.receiver, env.decode(s.txs[txId].bytes).value.outputs);
    opening :| OpensBigTx(env, s0, calls, opening, txId);
    OpeningChecks(env, Run(env, s0, calls[..opening]), calls[opening]);
    ConfirmedIsProved(env, c, lamports, calls[..opening], txId, calls[opening].ix.inclusion);
  }

  lemma OpeningChecks(env: Env, s: State, call: Call)
    requires call.ix.InitBigTxVerify? && Executed(env, s, call).Ok?
    ensures Confirmed(s.main, call.ix.inclusion) == Passed && ProofHolds(env, call.ix.txId, call.ix.inclusion)
  {
    hide Confirmed;
  }

  // ---------------------------------------------------------------- what a proof in a payment says about the block

  /** If the header commits to a list of txids by an injective pair hash, what was proved into it is what its proof
      names in that list; a proof of the tree's height names a listed txid. */
  lemma ProvedIsListed(env: Env, genesis: CommittedBlockHeader, s: State, txid: Digest, inc: Inclusion,
                       txids: seq<Digest>)
    requires ProvedIn(env, genesis, s, txid, inc)
    requires Merkle.InjectivePair(env.nodeHash) && txids != []
    requires inc.committed.header.merkleRoot == Merkle.Root(env.nodeHash, txids)
    ensures Merkle.Names(env.nodeHash, txids, txid, inc.txIndex, inc.proof)
    ensures |inc.proof| == Merkle.Height(|txids|) ==> txid == txids[Merkle.Meant(|txids|, inc.txIndex)]
  {
    hide Anchored, Merkle.Fold, Merkle.Root, Merkle.Names, Merkle.InjectivePair, Merkle.Height, Merkle.Meant;
    hide Merkle.Branch;
    Merkle.AcceptsExactly(env.nodeHash, txids, txid, inc.txIndex, inc.proof);
    if |inc.proof| == Merkle.Height(|txids|) {
      Merkle.AcceptsFullProofsExactly(env.nodeHash, txids, txid, inc.txIndex, inc.proof);
    }
  }

  /** So both payment paths pay only for what the proof names among the block's transactions. */
  lemma PaymentsAreListed(env: Env, c: CommittedBlockHeader, lamports: Lamports, calls: seq<Call>, call: Call,
                          txids: seq<Digest>) returns (txid: Digest, inc: Inclusion)
    requires Executed(env, Run(env, InitialState(env, c, lamports), calls), call).Ok?
    requires call.ix.VerifySmallTx? || call.ix.FinalizeTxProcessing?
    requires Merkle.InjectivePair(env.nodeHash) && txids != []
    ensures call.ix.VerifySmallTx? ==> inc == call.ix.inclusion && env.decode(call.ix.txBytes).Some?
    ensures call.ix.VerifySmallTx? ==> txid == env.decode(call.ix.txBytes).value.txid
    ensures call.ix.FinalizeTxProcessing? ==> txid == call.ix.txId && Opens(calls, txid, inc)
    ensures inc.committed.header.merkleRoot == Merkle.Root(env.nodeHash, txids) ==>
              && Merkle.Names(env.nodeHash, txids, txid, inc.txIndex, inc.proof)
              && (|inc.proof| == Merkle.Height(|txids|) ==> txid == txids[Merkle.Meant(|txids|, inc.txIndex)])
  {
    hide Executed, ProvedIn, Run, Pays, Chunks, TracedRun, PromotionsCleared;
    var at := calls;
    if call.ix.VerifySmallTx? {
      SmallTxPaysOnlyIncluded(env, c, lamports, calls, call);
      txid, inc := env.decode(call.ix.txBytes).value.txid, call.ix.inclusion;
    } else {
      var opening := BigTxPaysOnlyIncluded(env, c, lamports, calls, call);
      txid, inc, at := call.ix.txId, calls[opening].ix.inclusion, calls[..opening];
    }
    if inc.committed.header.merkleRoot == Merkle.Root(env.nodeHash, txids) {
      ProvedIsListed(env, c, Run(env, InitialState(env, c, lamports), at), txid, inc, txids);
    }
  }

  /** Some call of the run asks to open the account of this id with this proof. */
  ghost predicate Opens(calls: seq<Call>, txid: Digest, inc: Inclusion) {
    exists i :: 0 <= i < |calls| && calls[i].ix.InitBigTxVerify? &&
      calls[i].ix.txId == txid && calls[i].ix.inclusion == inc
  }
}
