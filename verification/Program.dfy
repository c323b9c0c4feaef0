/** lib.rs as it runs: handlers that write loaded accounts in place, and the runtime that commits or discards them. */
module Program {
  import opened Bytes
  import opened Results
  import opened Structs
  import opened Accounts
  import opened Relay
  import ArrayUtils
  import Headers

  /** Where a finished header loop stands. */
  datatype Tip = Tip(height: u32, last: CommittedBlockHeader, blockHash: U256, commitHash: Commitment)

  /** One round of a header loop: link, count, verify. */
  method Accept(bh: BlockHash, last: Headers.LastHeader, lastBlockHash: U256, height: u32, offer: Offer, now: u32)
    returns (r: Result<U256>)
    requires last.Valid() && lastBlockHash == bh(last.header)
    modifies last, last.chainWork, last.prevBlockTimestamps
    ensures r.Err? ==> Accepted(bh, old(last.View()), height, offer, now) == Err(r.error)
    ensures r.Ok? ==> Accepted(bh, old(last.View()), height, offer, now) == Ok(last.View())
    ensures r.Ok? ==> height < U32_MAX && last.header == offer.header && r.value == bh(offer.header)
  {
    if lastBlockHash != offer.header.prevBlockhash {
      return Err(PrevBlock);
    }
    if height == U32_MAX {
      return Err(Panic);
    }
    r := Headers.VerifyHeader(bh, offer.header, offer.topic, last, now);
  }

  lemma MainRound(bh: BlockHash, p: Progress<MainView>, headers: seq<Offer>, now: u32,
                  next: CommittedBlockHeader, account: MainView)
    requires headers != [] && p.height < U32_MAX
    requires Accepted(bh, p.last, p.height, headers[0], now) == Ok(next)
    requires p.account.Stored(p.height + 1, CommitHash(next)) == Ok(account)
    ensures AppendToMain(bh, p, headers, now)
            == AppendToMain(bh, Progress(account, p.height + 1, next), headers[1..], now)
  {
    hide Headers.Verified;
  }

  lemma ForkRound(bh: BlockHash, p: Progress<ForkView>, headers: seq<Offer>, now: u32,
                  next: CommittedBlockHeader, account: ForkView)
    requires headers != [] && p.height < U32_MAX
    requires Accepted(bh, p.last, p.height, headers[0], now) == Ok(next)
    requires p.account.Stored(CommitHash(next)) == Ok(account)
    ensures AppendToFork(bh, p, headers, now)
            == AppendToFork(bh, Progress(account, p.height + 1, next), headers[1..], now)
  {
    hide Headers.Verified;
  }

  /** The header loop of submit_block_headers and of submit_short_fork_headers. */
  method AppendMain(bh: BlockHash, main: MainState, start: u32, committed: CommittedBlockHeader,
                    headers: seq<Offer>, now: u32) returns (r: Result<Tip>)
    requires main.Valid()
    modifies main, main.blockCommitments
    ensures r.Err? ==> AppendToMain(bh, Progress(old(main.View()), start, committed), headers, now) == Err(r.error)
    ensures r.Ok? ==> AppendToMain(bh, Progress(old(main.View()), start, committed), headers, now)
                      == Ok(Progress(main.View(), r.value.height, r.value.last))
    ensures r.Ok? ==> r.value.blockHash == bh(r.value.last.header)
    ensures r.Ok? && headers != [] ==> r.value.commitHash == CommitHash(r.value.last)
  {
    hide Headers.Verified;
    var last := new Headers.LastHeader.Load(committed);
    var lastBlockHash, height, commitHash := bh(committed.header), start, NoCommitment;
    ghost var whole := AppendToMain(bh, Progress(main.View(), start, committed), headers, now);
    for i := 0 to |headers|
      invariant lastBlockHash == bh(last.header)
      invariant last.Valid() && fresh(last) && fresh(last.chainWork) && fresh(last.prevBlockTimestamps)
      invariant i > 0 ==> commitHash == CommitHash(last.View())
      invariant whole == AppendToMain(bh, Progress(main.View(), height, last.View()), headers[i..], now)
    {
      ghost var p := Progress(main.View(), height, last.View());
      assert headers[i..][0] == headers[i] && headers[i..][1..] == headers[i + 1..];
      lastBlockHash :- Accept(bh, last, lastBlockHash, height, headers[i], now);
      height := height + 1;
      commitHash := CommitHash(last.View());
      var stored :- main.StoreBlockCommitment(height, commitHash);
      MainRound(bh, p, headers[i..], now, last.View(), main.View());
    }
    r := Ok(Tip(height, last.View(), lastBlockHash, commitHash));
  }

  /** The header loop of submit_fork_headers. */
  method AppendFork(bh: BlockHash, fork: ForkState, start: u32, committed: CommittedBlockHeader,
                    headers: seq<Offer>, now: u32) returns (r: Result<Tip>)
    requires fork.Valid()
    modifies fork, fork.blockCommitments
    ensures r.Err? ==> AppendToFork(bh, Progress(old(fork.View()), start, committed), headers, now) == Err(r.error)
    ensures r.Ok? ==> AppendToFork(bh, Progress(old(fork.View()), start, committed), headers, now)
                      == Ok(Progress(fork.View(), r.value.height, r.value.last))
    ensures r.Ok? ==> r.value.blockHash == bh(r.value.last.header)
    ensures r.Ok? && headers != [] ==> r.value.commitHash == CommitHash(r.value.last)
  {
    hide Headers.Verified;
    var last := new Headers.LastHeader.Load(committed);
    var lastBlockHash, height, commitHash := bh(committed.header), start, NoCommitment;
    ghost var whole := AppendToFork(bh, Progress(fork.View(), start, committed), headers, now);
    for i := 0 to |headers|
      invariant lastBlockHash == bh(last.header)
      invariant last.Valid() && fresh(last) && fresh(last.chainWork) && fresh(last.prevBlockTimestamps)
      invariant i > 0 ==> commitHash == CommitHash(last.View())
      invariant whole == AppendToFork(bh, Progress(fork.View(), height, last.View()), headers[i..], now)
    {
      ghost var p := Progress(fork.View(), height, last.View());
      assert headers[i..][0] == headers[i] && headers[i..][1..] == headers[i + 1..];
      lastBlockHash :- Accept(bh, last, lastBlockHash, height, headers[i], now);
      height := height + 1;
      commitHash := CommitHash(last.View());
      var stored :- fork.StoreBlockCommitment(commitHash);
      ForkRound(bh, p, headers[i..], now, last.View(), fork.View());
    }
    r := Ok(Tip(height, last.View(), lastBlockHash, commitHash));
  }

  /** "Update globals". */
  method SetTip(main: MainState, tip: Tip, ghost bh: BlockHash)
    requires main.Valid()
    requires tip.blockHash == bh(tip.last.header) && tip.commitHash == CommitHash(tip.last)
    modifies main
    ensures main.View() == WithTip(bh, old(main.View()), tip.height, tip.last)
  {
    main.lastDiffAdjustment := tip.last.lastDiffAdjustment;
    main.blockHeight := tip.height;
    main.chainWork := tip.last.chainWork;
    main.tipCommitHash := tip.commitHash;
    main.tipBlockHash := tip.blockHash;
  }

  method SubmitBlockHeaders(bh: BlockHash, main: MainState, accounts: nat, headers: seq<Offer>,
                            committed: CommittedBlockHeader, now: u32) returns (r: Result<()>)
    requires main.Valid()
    modifies main, main.blockCommitments
    ensures r.Err? ==> Appended(bh, old(main.View()), accounts, headers, committed, now) == Err(r.error)
    ensures r.Ok? ==> Appended(bh, old(main.View()), accounts, headers, committed, now) == Ok(main.View())
  {
    hide Headers.Verified;
    if headers == [] {
      return Err(NoHeaders);
    }
    if |headers| != accounts {
      return Err(InvalidRemainingAccounts);
    }
    var mainStateTip :- main.GetCommitment(main.blockHeight);
    if CommitHash(committed) != mainStateTip {
      return Err(PrevBlockCommitment);
    }
    var tip :- AppendMain(bh, main, main.blockHeight, committed, headers, now);
    SetTip(main, tip, bh);
    r := Ok(());
  }

  method SubmitShortForkHeaders(bh: BlockHash, main: MainState, accounts: nat, headers: seq<Offer>,
                                committed: CommittedBlockHeader, now: u32) returns (r: Result<()>)
    requires main.Valid()
    modifies main, main.blockCommitments
    ensures r.Err? ==> ShortForked(bh, old(main.View()), accounts, headers, committed, now) == Err(r.error)
    ensures r.Ok? ==> ShortForked(bh, old(main.View()), accounts, headers, committed, now) == Ok(main.View())
  {
    hide Headers.Verified;
    if headers == [] {
      return Err(NoHeaders);
    }
    if |headers| != accounts {
      return Err(InvalidRemainingAccounts);
    }
    var base :- main.GetCommitment(committed.blockheight);
    if CommitHash(committed) != base {
      return Err(PrevBlockCommitment);
    }
    var forkId := main.forkCounter;
    var tip :- AppendMain(bh, main, committed.blockheight, committed, headers, now);
    StoringKeepsTotals(bh, Progress(old(main.View()), committed.blockheight, committed), headers, now);
    var heavier := ArrayUtils.GtArr(tip.last.chainWork, main.chainWork);
    if !heavier {
      return Err(ForkTooShort);
    }
    SetTip(main, tip, bh);
    if forkId == U64_MAX {
      return Err(Panic);
    }
    main.forkCounter := forkId + 1;
    r := Ok(());
  }

  /** The ring stores leave the work, the tip and the fork counter alone. */
  lemma {:induction false} StoringKeepsTotals(bh: BlockHash, p: Progress<MainView>, headers: seq<Offer>, now: u32)
    requires AppendToMain(bh, p, headers, now).Ok?
    ensures var q := AppendToMain(bh, p, headers, now).value;
            && q.account.chainWork == p.account.chainWork
            && q.account.forkCounter == p.account.forkCounter
            && q.account.blockHeight == p.account.blockHeight
            && q.height == p.height + |headers|
    decreases |headers|
  {
    hide Headers.Verified;
    if headers != [] {
      var next := Accepted(bh, p.last, p.height, headers[0], now).value;
      var account := p.account.Stored(p.height + 1, CommitHash(next)).value;
      StoringKeepsTotals(bh, Progress(account, p.height + 1, next), headers[1..], now);
    }
  }

  /** Overwrites the ring with the fork's commitments. */
  method Promote(main: MainState, fork: ForkState) returns (r: Result<()>)
    requires main.Valid() && fork.Valid()
    requires main.blockCommitments != fork.blockCommitments
    modifies main, main.blockCommitments
    ensures r.Err? ==> Promoted(old(main.View()), old(fork.View()), 0) == Err(r.error)
    ensures r.Ok? ==> Promoted(old(main.View()), old(fork.View()), 0) == Ok(main.View())
  {
    var startHeight := fork.startHeight;
    var i := 0;
    while i < fork.length
      invariant 0 <= i
      invariant fork.View() == old(fork.View())
      invariant Promoted(old(main.View()), old(fork.View()), 0) == Promoted(main.View(), fork.View(), i)
      decreases fork.length - i
    {
      if startHeight + 1 + i > U32_MAX || i >= 250 {
        return Err(Panic);
      }
      var stored :- main.StoreBlockCommitment(startHeight + 1 + i, fork.blockCommitments[i]);
      i := i + 1;
    }
    r := Ok(());
  }

  /** A fresh fork takes the next id and a committed base; an open one must be continued from its tip. */
  method OpenFork(main: MainState, fork: ForkState, committed: CommittedBlockHeader, forkId: u64)
    returns (r: Result<()>)
    requires main.Valid() && fork.Valid()
    modifies main, fork
    ensures r.Err? ==> ForkOpened(old(main.View()), old(fork.View()), committed, forkId) == Err(r.error)
    ensures r.Ok? ==> ForkOpened(old(main.View()), old(fork.View()), committed, forkId)
                      == Ok((main.View(), fork.View()))
  {
    if fork.initialized == 0 {
      if main.forkCounter != forkId {
        return Err(InvalidForkId);
      }
      if forkId == U64_MAX {
        return Err(Panic);
      }
      main.forkCounter := forkId + 1;
      var base :- main.GetCommitment(committed.blockheight);
      if CommitHash(committed) != base {
        return Err(PrevBlockCommitment);
      }
      fork.initialized := 1;
      fork.startHeight := committed.blockheight;
    } else {
      if CommitHash(committed) != fork.tipCommitHash {
        return Err(PrevBlockCommitment);
      }
    }
    r := Ok(());
  }

  /** Ok(true) asks the runtime to close the fork account. `created` says the call itself created the account. */
  method SubmitForkHeaders(bh: BlockHash, main: MainState, fork: ForkState, created: bool, accounts: nat,
                           headers: seq<Offer>,
                           committed: CommittedBlockHeader, forkId: u64, init: bool, now: u32)
    returns (r: Result<bool>)
    requires main.Valid() && fork.Valid()
    requires main.blockCommitments != fork.blockCommitments
    requires created ==> fork.View() == EmptyFork()
    modifies main, main.blockCommitments, fork, fork.blockCommitments
    ensures var stored := if created then None else Some(old(fork.View()));
            var spec := LongForked(bh, old(main.View()), stored, accounts, headers, committed, forkId, init, now);
            match r
            case Err(e) => spec == Err(e)
            case Ok(close) => spec == Ok(Forked(main.View(), if close then None else Some(fork.View())))
  {
    hide Headers.Verified;
    if headers == [] {
      return Err(NoHeaders);
    }
    if |headers| != accounts {
      return Err(InvalidRemainingAccounts);
    }
    if init != created {
      return Err(BadAccount);
    }
    if init != (fork.initialized == 0) {
      return Err(ErrInit);
    }
    var started :- OpenFork(main, fork, committed, forkId);
    var tip :- AppendFork(bh, fork, committed.blockheight, committed, headers, now);
    var heavier := ArrayUtils.GtArr(tip.last.chainWork, main.chainWork);
    if heavier {
      var promoted :- Promote(main, fork);
      SetTip(main, tip, bh);
      return Ok(true);
    }
    fork.tipBlockHash := tip.blockHash;
    fork.tipCommitHash := tip.commitHash;
    r := Ok(false);
  }
}
