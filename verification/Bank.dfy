/** The runtime around the program: accounts are loaded for a call and written back only if it succeeds. */
module Bank {
  import opened Bytes
  import opened Results
  import opened Structs
  import opened Accounts
  import opened Relay
  import Headers
  import Merkle
  import Program

  /** A call ended in r: on success the accounts are the specified ones, on failure untouched. */
  ghost predicate Ended(r: Result<()>, spec: Result<State>, before: State, after: State) {
    match r
    case Ok(_) => spec == Ok(after)
    case Err(e) => spec == Err(e) && after == before
  }

  class Ledger {
    const env: Env
    var main: MainView
    var forks: map<ForkKey, ForkView>
    var txs: BigTxs
    var depositOpen: bool
    var lamports: Lamports

    function Snapshot(): State
      reads this
    {
      State(main, forks, txs, depositOpen, lamports)
    }

    /** `initialize`. */
    constructor Initialize(env: Env, data: BlockHeader, blockHeight: u32, chainWork: U256,
                           lastDiffAdjustment: u32, stamps: Window, lamports: Lamports)
      ensures this.env == env
      ensures Snapshot()
           == InitialState(env, InitialHeader(data, blockHeight, chainWork, lastDiffAdjustment, stamps), lamports)
    {
      var state := new MainState.Initialize(env.blockHash,
                     InitialHeader(data, blockHeight, chainWork, lastDiffAdjustment, stamps));
      this.env := env;
      main := state.View();
      forks, txs, depositOpen := map[], map[], false;
      this.lamports := lamports;
    }

    method SubmitBlockHeaders(accounts: nat, headers: seq<Offer>, committed: CommittedBlockHeader, now: u32)
      returns (r: Result<()>)
      modifies this
      ensures Ended(r, Executed(env, old(Snapshot()),
                           Call(Instruction.SubmitBlockHeaders(accounts, headers, committed), now)),
                  old(Snapshot()), Snapshot())
    {
      hide Headers.Verified;
      var state := new MainState.Load(main);
      r := Program.SubmitBlockHeaders(env.blockHash, state, accounts, headers, committed, now);
      if r.Ok? {
        main := state.View();
      }
    }

    method SubmitShortForkHeaders(accounts: nat, headers: seq<Offer>, committed: CommittedBlockHeader, now: u32)
      returns (r: Result<()>)
      modifies this
      ensures Ended(r, Executed(env, old(Snapshot()),
                           Call(Instruction.SubmitShortForkHeaders(accounts, headers, committed), now)),
                  old(Snapshot()), Snapshot())
    {
      hide Headers.Verified;
      var state := new MainState.Load(main);
      r := Program.SubmitShortForkHeaders(env.blockHash, state, accounts, headers, committed, now);
      if r.Ok? {
        main := state.View();
      }
    }

    method SubmitForkHeaders(signer: Pubkey, accounts: nat, headers: seq<Offer>, committed: CommittedBlockHeader,
                             forkId: u64, init: bool, now: u32)
      returns (r: Result<()>)
      modifies this
      ensures Ended(r, Executed(env, old(Snapshot()),
                           Call(Instruction.SubmitForkHeaders(signer, accounts, headers, committed, forkId, init),
                                now)),
                  old(Snapshot()), Snapshot())
    {
      hide Headers.Verified;
      var key := ForkKey(forkId, signer);
      var created := key !in forks;
      var state := new MainState.Load(main);
      var fork := new ForkState.Load(if created then EmptyFork() else forks[key]);
      var close :- Program.SubmitForkHeaders(env.blockHash, state, fork, created, accounts, headers, committed, forkId,
                                             init, now);
      main := state.View();
      forks := if close then forks - {key} else forks[key := fork.View()];
      r := Ok(());
    }

    method CloseForkAccount(signer: Pubkey, forkId: u64) returns (r: Result<()>)
      modifies this
      ensures forall now :: Ended(r, Executed(env, old(Snapshot()),
                           Call(Instruction.CloseForkAccount(signer, forkId), now)),
                  old(Snapshot()), Snapshot())
    {
      if ForkKey(forkId, signer) !in forks {
        return Err(BadAccount);
      }
      forks := forks - {ForkKey(forkId, signer)};
      r := Ok(());
    }

    /** The confirmation and commitment checks. */
    method CheckConfirmed(inc: Inclusion) returns (r: Result<()>)
      ensures r == match Confirmed(main, inc) case Passed => Ok(()) case Failed(e) => Err(e)
    {
      var state := new MainState.Load(main);
      var blockHeight := inc.committed.blockheight;
      if blockHeight > state.blockHeight || state.blockHeight - blockHeight == U32_MAX {
        return Err(Panic);
      }
      if state.blockHeight - blockHeight + 1 < inc.confirmations {
        return Err(BlockConfirmations);
      }
      var found :- state.GetCommitment(blockHeight);
      if CommitHash(inc.committed) != found {
        return Err(PrevBlockCommitment);
      }
      r := Ok(());
    }

    method VerifySmallTx(receiver: Pubkey, txBytes: seq<byte>, inc: Inclusion) returns (r: Result<()>)
      modifies this
      ensures forall now :: Ended(r, Executed(env, old(Snapshot()),
                           Call(Instruction.VerifySmallTx(receiver, txBytes, inc), now)),
                  old(Snapshot()), Snapshot())
    {
      if !depositOpen {
        return Err(BadAccount);
      }
      var confirmed :- CheckConfirmed(inc);
      var decoded := env.decode(txBytes);
      if decoded.None? {
        return Err(Panic);
      }
      var amount :- MintAmount(decoded.value.outputs, env.depositScript(receiver));
      if amount == 0 {
        return Err(NoDepositOutputs);
      }
      var computed := Merkle.ComputeMerkle(env.nodeHash, decoded.value.txid, inc.txIndex, inc.proof);
      if computed != inc.committed.header.merkleRoot {
        return Err(MerkleRoot);
      }
      var paid :- PaidOut(lamports, receiver, amount);
      lamports := paid;
      r := Ok(());
    }

    method Deposit(signer: Pubkey, amount: u64) returns (r: Result<()>)
      modifies this
      ensures forall now :: Ended(r, Executed(env, old(Snapshot()),
                           Call(Instruction.Deposit(signer, amount), now)),
                  old(Snapshot()), Snapshot())
    {
      if depositOpen {
        return Err(BadAccount);
      }
      var moved :- Moved(lamports, Wallet(signer), DepositAccount, amount);
      depositOpen, lamports := true, moved;
      r := Ok(());
    }

    method InitBigTxVerify(txId: Digest, txSize: u64, inc: Inclusion) returns (r: Result<()>)
      modifies this
      ensures forall now :: Ended(r, Executed(env, old(Snapshot()),
                           Call(Instruction.InitBigTxVerify(txId, txSize, inc), now)),
                  old(Snapshot()), Snapshot())
    {
      if BIG_TX_OVERHEAD + txSize > U64_MAX {
        return Err(Panic);
      }
      if txId in txs {
        return Err(BadAccount);
      }
      var confirmed :- CheckConfirmed(inc);
      var computed := Merkle.ComputeMerkle(env.nodeHash, txId, inc.txIndex, inc.proof);
      if computed != inc.committed.header.merkleRoot {
        return Err(MerkleRoot);
      }
      txs := txs[txId := BigTx([], txSize)];
      r := Ok(());
    }

    method StoreTxBytes(txId: Digest, bytes: seq<byte>) returns (r: Result<()>)
      modifies this
      ensures forall now :: Ended(r, Executed(env, old(Snapshot()),
                           Call(Instruction.StoreTxBytes(txId, bytes), now)),
                  old(Snapshot()), Snapshot())
    {
      if txId !in txs {
        return Err(BadAccount);
      }
      var tx := txs[txId];
      var extended := tx.bytes + bytes;
      if |extended| > tx.size {
        return Err(BadAccount);
      }
      txs := txs[txId := tx.(bytes := extended)];
      r := Ok(());
    }

    method FinalizeTxProcessing(receiver: Pubkey, txId: Digest) returns (r: Result<()>)
      modifies this
      ensures forall now :: Ended(r, Executed(env, old(Snapshot()),
                           Call(Instruction.FinalizeTxProcessing(receiver, txId), now)),
                  old(Snapshot()), Snapshot())
    {
      if txId !in txs || !depositOpen {
        return Err(BadAccount);
      }
      var decoded := env.decode(txs[txId].bytes);
      if decoded.None? || txId != decoded.value.txid {
        return Err(Panic);
      }
      var amount :- MintAmount(decoded.value.outputs, env.depositScript(receiver));
      if amount == 0 {
        return Err(NoDepositOutputs);
      }
      var paid :- PaidOut(lamports, receiver, amount);
      lamports := paid;
      r := Ok(());
    }

    /** One transaction. */
    method Process(call: Call) returns (r: Result<()>)
      modifies this
      ensures Ended(r, Executed(env, old(Snapshot()), call), old(Snapshot()), Snapshot())
      ensures Snapshot() == Step(env, old(Snapshot()), call)
    {
      hide Headers.Verified;
      match call.ix
      case SubmitBlockHeaders(accounts, headers, c) =>
        r := SubmitBlockHeaders(accounts, headers, c, call.now);
      case SubmitShortForkHeaders(accounts, headers, c) =>
        r := SubmitShortForkHeaders(accounts, headers, c, call.now);
      case SubmitForkHeaders(signer, accounts, headers, c, forkId, init) =>
        r := SubmitForkHeaders(signer, accounts, headers, c, forkId, init, call.now);
      case CloseForkAccount(signer, forkId) =>
        r := CloseForkAccount(signer, forkId);
      case VerifySmallTx(receiver, txBytes, inc) =>
        r := VerifySmallTx(receiver, txBytes, inc);
      case Deposit(signer, amount) =>
        r := Deposit(signer, amount);
      case InitBigTxVerify(txId, txSize, inc) =>
        r := InitBigTxVerify(txId, txSize, inc);
      case StoreTxBytes(txId, bytes) =>
        r := StoreTxBytes(txId, bytes);
      case FinalizeTxProcessing(receiver, txId) =>
        r := FinalizeTxProcessing(receiver, txId);
    }

    /** A whole run of transactions, failures included. */
    method ProcessAll(calls: seq<Call>)
      modifies this
      ensures Snapshot() == Run(env, old(Snapshot()), calls)
    {
      for i := 0 to |calls|
        invariant Snapshot() == Run(env, old(Snapshot()), calls[..i])
      {
        assert calls[..i + 1][..i] == calls[..i];
        var r := Process(calls[i]);
      }
      assert calls[..|calls|] == calls;
    }
  }
}
