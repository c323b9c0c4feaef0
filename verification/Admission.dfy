/** Exactly when a submission succeeds in a reachable state, and all it then changes, in terms of header chains and
    counts alone. */
module Admission {
  import opened Bytes
  import opened Results
  import opened Structs
  import opened NBits
  import opened Median
  import opened Accounts
  import opened Relay
  import opened Chains
  import opened Ring
  import opened Loops
  import opened Soundness
  import opened Runs
  import Headers

  // ---------------------------------------------------------------- one header

  /** The first check a header fails decides the error. */
  lemma RefusalsInOrder(bh: BlockHash, p: CommittedBlockHeader, offer: Offer, now: u32)
    ensures var (h, r) := (offer.header, Accepted(bh, p, p.blockheight, offer, now));
            var boundary := (p.blockheight + 1) % 2016 == 0;
            if h.prevBlockhash != bh(p.header) then r == Err(PrevBlock)
            else if p.blockheight == U32_MAX then r == Err(Panic)
            else if boundary && (SizeOf(p.header.nbits) > 32 || p.header.timestamp < p.lastDiffAdjustment) then
              r == Err(Panic)
            else if !NbitsFollow(p, h.nbits) then r == Err(ErrDiffTarget)
            else if offer.topic != HeaderTopic(bh(h)) then r == Err(InvalidHeaderTopic)
            else if SizeOf(h.nbits) > 32 then r == Err(Panic)
            else if Val(Reversed(bh(h))) > Decode(h.nbits) then r == Err(ErrPowTooLow)
            else if CountBelow(p.prevBlockTimestamps + [p.header.timestamp], h.timestamp) < 6 then
              r == Err(ErrTimestampTooLow)
            else if now + 14400 > U32_MAX then r == Err(Panic)
            else if h.timestamp >= now + 14400 then r == Err(ErrTimestampTooHigh)
            else if Decode(h.nbits) < 0x1_0000 then r == Err(Panic)
            else r.Ok?
  {
    hide Decode, MedianOf, Reversed, CountBelow, NbitsFollow;
    var h := offer.header;
    if p.blockheight < U32_MAX {
      RequiredExactly(p, h.nbits);
      RequiredPanics(p);
    }
    BeatsMedianExactly(p.prevBlockTimestamps, p.header.timestamp, h.timestamp);
    if SizeOf(h.nbits) <= 32 {
      NBitsTheorems.DifficultyOfDecoded(h.nbits);
    }
  }

  lemma RequiredPanics(p: CommittedBlockHeader)
    requires p.blockheight < U32_MAX
    ensures var r := Headers.RequiredNbits(p);
            var backwards := p.header.timestamp < p.lastDiffAdjustment;
            if (p.blockheight + 1) % 2016 == 0 && (SizeOf(p.header.nbits) > 32 || backwards)
            then r == Err(Panic)
            else r.Ok?
  {}

  // ---------------------------------------------------------------- a run of headers

  /** The offered headers have valid committed forms, one after the other from a first header on; the clock allows
      each, and beside each is the account derived from its hash. */
  ghost predicate Offered(bh: BlockHash, first: CommittedBlockHeader, grown: Chain, headers: seq<Offer>, now: u32) {
    && |grown| == |headers|
    && ValidChain(bh, [first] + grown)
    && forall i :: 0 <= i < |headers| ==> Fits(bh, grown[i], headers[i], now)
  }

  ghost predicate Fits(bh: BlockHash, c: CommittedBlockHeader, offer: Offer, now: u32) {
    c.header == offer.header && ClockAllows(offer.header, now) && offer.topic == HeaderTopic(bh(offer.header))
  }

  lemma OfferedFirst(bh: BlockHash, first: CommittedBlockHeader, grown: Chain, headers: seq<Offer>, now: u32)
    requires Offered(bh, first, grown, headers, now) && headers != []
    ensures Accepted(bh, first, first.blockheight, headers[0], now) == Ok(grown[0])
    ensures grown[0].blockheight == first.blockheight + 1
    ensures Offered(bh, grown[0], grown[1..], headers[1..], now)
  {
    hide Accepted, Links, ClockAllows;
    var chain, c := [first] + grown, grown[0];
    assert Links(bh, chain[0], chain[1]) && Fits(bh, c, headers[0], now);
    ChainHeights(bh, chain, 1);
    AcceptsExactlyValidHeaders(bh, first, c, headers[0].topic, now);
    assert [c] + grown[1..] == chain[1..];
    forall i | 0 <= i < |grown| - 1
      ensures Links(bh, chain[1..][i], chain[1..][i + 1])
    {
      assert Links(bh, chain[i + 1], chain[i + 2]);
    }
  }

  lemma OfferedCons(bh: BlockHash, first: CommittedBlockHeader, next: CommittedBlockHeader, rest: Chain,
                    headers: seq<Offer>, now: u32)
    requires headers != [] && Accepted(bh, first, first.blockheight, headers[0], now) == Ok(next)
    requires Offered(bh, next, rest, headers[1..], now)
    ensures Offered(bh, first, [next] + rest, headers, now)
  {
    hide Links, ClockAllows;
    AcceptedLinks(bh, first, headers[0], now);
    hide Accepted;
    ConsChain(bh, first, next, rest);
    forall i | 0 <= i < |headers|
      ensures Fits(bh, ([next] + rest)[i], headers[i], now)
    {
      if i > 0 {
        assert Fits(bh, rest[i - 1], headers[1..][i - 1], now);
      }
    }
  }

  lemma OfferedLast(bh: BlockHash, first: CommittedBlockHeader, grown: Chain, headers: seq<Offer>, now: u32)
    requires Offered(bh, first, grown, headers, now)
    ensures CountedFrom(first.blockheight, grown)
    ensures Last([first] + grown).blockheight == first.blockheight + |headers|
    ensures grown != [] ==> Last([first] + grown) == Last(grown)
  {
    hide Links;
    GrownIsCounted(bh, first, grown);
    ChainHeights(bh, [first] + grown, |grown|);
  }

  /** The loop of the main-chain instructions comes down to storing the offered headers. */
  lemma {:induction false} MainLoopStores(bh: BlockHash, p: Progress<MainView>, grown: Chain, headers: seq<Offer>,
                                          now: u32)
    requires p.height == p.last.blockheight && Offered(bh, p.last, grown, headers, now)
    ensures var (stored, last) := (StoredAll(p.account, grown), Last([p.last] + grown));
            AppendToMain(bh, p, headers, now)
            == if stored.Ok? then Ok(Progress(stored.value, last.blockheight, last)) else Err(stored.error)
    decreases |headers|
  {
    hide Accepted, Links, Offered;
    if headers != [] {
      OfferedFirst(bh, p.last, grown, headers, now);
      OfferedLength(bh, p.last, grown, headers, now);
      var stored := p.account.Stored(p.height + 1, CommitHash(grown[0]));
      if stored.Ok? {
        MainLoopStores(bh, Progress(stored.value, p.height + 1, grown[0]), grown[1..], headers[1..], now);
        assert [grown[0]] + grown[1..] == grown;
      }
    } else {
      OfferedLength(bh, p.last, grown, headers, now);
    }
  }

  lemma OfferedLength(bh: BlockHash, first: CommittedBlockHeader, grown: Chain, headers: seq<Offer>, now: u32)
    requires Offered(bh, first, grown, headers, now)
    ensures |grown| == |headers|
  {}

  /** It succeeds only for offered headers. */
  lemma {:induction false} MainLoopNeedsOffered(bh: BlockHash, p: Progress<MainView>, headers: seq<Offer>, now: u32)
    requires p.height == p.last.blockheight && AppendToMain(bh, p, headers, now).Ok?
    ensures Offered(bh, p.last, AcceptedAll(bh, p.last, headers, now), headers, now)
    decreases |headers|
  {
    hide Headers.Verified, ClockAllows;
    if headers != [] {
      var next := Accepted(bh, p.last, p.height, headers[0], now).value;
      AcceptedLinks(bh, p.last, headers[0], now);
      var account := p.account.Stored(p.height + 1, CommitHash(next)).value;
      MainLoopNeedsOffered(bh, Progress(account, p.height + 1, next), headers[1..], now);
      OfferedCons(bh, p.last, next, AcceptedAll(bh, next, headers[1..], now), headers, now);
    }
  }

  /** What the account of an open fork is after these headers are appended. */
  ghost predicate Extends(f: ForkView, grown: Chain, f': ForkView) {
    && f' == f.(length := f'.length, blockCommitments := f'.blockCommitments)
    && f'.length == f.length + |grown| <= 250
    && (forall i :: 0 <= i < |grown| ==> f'.blockCommitments[f.length + i] == CommitHash(grown[i]))
    && (forall i :: 0 <= i < 250 && !(f.length <= i < f'.length) ==> f'.blockCommitments[i] == f.blockCommitments[i])
  }

  /** The loop of the long-fork instruction appends them while there are slots. */
  lemma {:induction false} ForkLoopAppends(bh: BlockHash, p: Progress<ForkView>, grown: Chain, headers: seq<Offer>,
                                           now: u32)
    requires p.height == p.last.blockheight && Offered(bh, p.last, grown, headers, now) && p.account.length <= 250
    ensures var (r, last) := (AppendToFork(bh, p, headers, now), Last([p.last] + grown));
            if p.account.length + |headers| > 250 then r == Err(Panic) else
              && r.Ok? && Extends(p.account, grown, r.value.account)
              && r.value.height == last.blockheight && r.value.last == last
    decreases |headers|
  {
    hide Accepted, Links, Offered;
    OfferedLength(bh, p.last, grown, headers, now);
    if headers != [] {
      OfferedFirst(bh, p.last, grown, headers, now);
      if p.account.length < 250 {
        var account := p.account.Stored(CommitHash(grown[0])).value;
        ForkLoopAppends(bh, Progress(account, p.height + 1, grown[0]), grown[1..], headers[1..], now);
        assert [grown[0]] + grown[1..] == grown;
        if p.account.length + |headers| <= 250 {
          var f' := AppendToFork(bh, Progress(account, p.height + 1, grown[0]), headers[1..], now).value.account;
          forall i | 0 <= i < |grown|
            ensures f'.blockCommitments[p.account.length + i] == CommitHash(grown[i])
          {
            if i > 0 {
              assert f'.blockCommitments[account.length + (i - 1)] == CommitHash(grown[1..][i - 1]);
            }
          }
        }
      }
    }
  }

  lemma {:induction false} ForkLoopNeedsOffered(bh: BlockHash, p: Progress<ForkView>, headers: seq<Offer>, now: u32)
    requires p.height == p.last.blockheight && AppendToFork(bh, p, headers, now).Ok?
    ensures Offered(bh, p.last, AcceptedAll(bh, p.last, headers, now), headers, now)
    decreases |headers|
  {
    hide Headers.Verified, ClockAllows;
    if headers != [] {
      var next := Accepted(bh, p.last, p.height, headers[0], now).value;
      AcceptedLinks(bh, p.last, headers[0], now);
      var account := p.account.Stored(CommitHash(next)).value;
      ForkLoopNeedsOffered(bh, Progress(account, p.height + 1, next), headers[1..], now);
      OfferedCons(bh, p.last, next, AcceptedAll(bh, next, headers[1..], now), headers, now);
    }
  }

  // ---------------------------------------------------------------- where the main account ends up

  /** The tip is the last header; the counter grew by the headers the ring took; and what passes the commitment check
      are the last 250 heights of these headers, and of what was in its slot at or below the base. */
  ghost predicate MovedTo(bh: BlockHash, m: MainView, base: nat, grown: Chain, m': MainView)
    requires grown != []
  {
    && TipMatches(bh, m', Last(grown))
    && m'.totalBlocks == m.totalBlocks + Taken(m.startHeight, base, |grown|)
    && forall x: CommittedBlockHeader :: Passes(m', x) <==> Remains(m, base, grown, x)
  }

  ghost predicate Remains(m: MainView, base: nat, grown: Chain, x: CommittedBlockHeader) {
    var tip := base + |grown|;
    && 250 <= tip && tip - 250 < x.blockheight <= tip
    && if x.blockheight <= base then InSlot(m, x)
       else x == grown[x.blockheight - base - 1] && x.blockheight > m.startHeight - 250
  }

  lemma StoredMovesTo(bh: BlockHash, m: MainView, base: nat, grown: Chain, counter: u64)
    requires grown != [] && CountedFrom(base, grown) && base < m.startHeight + 250 && StoredAll(m, grown).Ok?
    ensures MovedTo(bh, m, base, grown,
                    WithTip(bh, StoredAll(m, grown).value, Last(grown).blockheight, Last(grown))
                    .(forkCounter := counter))
  {
    hide InSlot, StoredAll;
    var stored := StoredAll(m, grown).value;
    var m' := WithTip(bh, stored, Last(grown).blockheight, Last(grown)).(forkCounter := counter);
    StoreAllExactly(m, base, grown);
    forall x: CommittedBlockHeader
      ensures Passes(m', x) <==> Remains(m, base, grown, x)
    {
      SameSlots(stored, m', x);
      if base + |grown| - 250 < x.blockheight <= base + |grown| {
        StoreAllInSlot(m, base, grown, x);
      }
    }
  }

  lemma SameSlots(m: MainView, m': MainView, x: CommittedBlockHeader)
    requires m.startHeight == m'.startHeight && m.blockCommitments == m'.blockCommitments
    ensures InSlot(m, x) <==> InSlot(m', x)
  {}

  // ---------------------------------------------------------------- submit_block_headers

  /** In a reachable state an append succeeds if and only if there are headers, one account for each, the supplied
      header is the recorded tip, the tip is high enough and still in the ring, the headers are valid on it, and the
      counter has room. (The heights fit 32 bits because committed headers have 32-bit heights.) */
  lemma AppendSucceedsExactly(env: Env, genesis: CommittedBlockHeader, s: State, call: Call)
    requires Sound(env, genesis, s) && call.ix.SubmitBlockHeaders?
    ensures var (m, ix) := (s.main, call.ix);
            Executed(env, s, call).Ok? <==>
              && ix.headers != [] && |ix.headers| == ix.accounts
              && CommitHash(ix.committed) == m.tipCommitHash
              && 250 <= m.blockHeight && m.startHeight - 250 < m.blockHeight
              && (exists grown :: Offered(env.blockHash, ix.committed, grown, ix.headers, call.now))
              && m.totalBlocks + |ix.headers| <= U32_MAX
  {
    hide Headers.Verified, Links, Offered, StoredAll, AppendToMain;
    var (bh, m, ix) := (env.blockHash, s.main, call.ix);
    var p := Progress(m, m.blockHeight, ix.committed);
    if Executed(env, s, call).Ok? {
      AppendsToTip(bh, m, ix.accounts, ix.headers, ix.committed, call.now);
      ReadExactly(m, ix.committed);
      MainLoopNeedsOffered(bh, p, ix.headers, call.now);
    }
    if CommitHash(ix.committed) == m.tipCommitHash && m.startHeight - 250 < m.blockHeight {
      forall grown | Offered(bh, ix.committed, grown, ix.headers, call.now)
        ensures AppendToMain(bh, p, ix.headers, call.now).Ok? <==> m.totalBlocks + |ix.headers| <= U32_MAX
      {
        MainLoopStores(bh, p, grown, ix.headers, call.now);
        OfferedLength(bh, ix.committed, grown, ix.headers, call.now);
        OfferedLast(bh, ix.committed, grown, ix.headers, call.now);
        StoreAllExactly(m, m.blockHeight, grown);
      }
    }
  }

  /** It then moves the main account to the last of these headers, and changes nothing else. */
  lemma AppendOutcome(env: Env, genesis: CommittedBlockHeader, s: State, call: Call, grown: Chain)
    requires Sound(env, genesis, s) && call.ix.SubmitBlockHeaders? && Executed(env, s, call).Ok?
    requires Offered(env.blockHash, call.ix.committed, grown, call.ix.headers, call.now)
    ensures var s' := Executed(env, s, call).value;
            && grown != [] && MovedTo(env.blockHash, s.main, s.main.blockHeight, grown, s'.main)
            && s'.main.forkCounter == s.main.forkCounter
            && s' == s.(main := s'.main)
  {
    hide Headers.Verified, Links, Offered, StoredAll, AppendToMain, MovedTo;
    var (bh, m, ix) := (env.blockHash, s.main, call.ix);
    AppendsToTip(bh, m, ix.accounts, ix.headers, ix.committed, call.now);
    OfferedLength(bh, ix.committed, grown, ix.headers, call.now);
    OfferedLast(bh, ix.committed, grown, ix.headers, call.now);
    MainLoopStores(bh, Progress(m, m.blockHeight, ix.committed), grown, ix.headers, call.now);
    StoringKeepsRest(m, grown);
    StoredMovesTo(bh, m, m.blockHeight, grown, m.forkCounter);
  }

  // ---------------------------------------------------------------- submit_short_fork_headers

  /** A short reorganisation: the supplied header passes the commitment check, the headers are valid on it and end
      heavier than the main chain, and neither counter is full. */
  lemma ShortForkSucceedsExactly(env: Env, genesis: CommittedBlockHeader, s: State, call: Call)
    requires Sound(env, genesis, s) && call.ix.SubmitShortForkHeaders?
    ensures var (m, ix) := (s.main, call.ix);
            Executed(env, s, call).Ok? <==>
              && ix.headers != [] && |ix.headers| == ix.accounts
              && Passes(m, ix.committed)
              && (exists grown :: Offered(env.blockHash, ix.committed, grown, ix.headers, call.now) &&
                    Val(Last([ix.committed] + grown).chainWork) > Val(m.chainWork))
              && m.totalBlocks + |ix.headers| <= U32_MAX
              && m.forkCounter < U64_MAX
  {
    hide Headers.Verified, Links, Offered, StoredAll, AppendToMain, Val;
    var (bh, m, ix) := (env.blockHash, s.main, call.ix);
    var p := Progress(m, ix.committed.blockheight, ix.committed);
    ReadExactly(m, ix.committed);
    if Executed(env, s, call).Ok? {
      MainLoopNeedsOffered(bh, p, ix.headers, call.now);
    }
    if Passes(m, ix.committed) {
      forall grown | Offered(bh, ix.committed, grown, ix.headers, call.now)
        ensures var r := AppendToMain(bh, p, ix.headers, call.now);
                && (r.Ok? <==> m.totalBlocks + |ix.headers| <= U32_MAX)
                && (r.Ok? ==> r.value.last == Last([ix.committed] + grown))
      {
        MainLoopStores(bh, p, grown, ix.headers, call.now);
        OfferedLength(bh, ix.committed, grown, ix.headers, call.now);
        OfferedLast(bh, ix.committed, grown, ix.headers, call.now);
        StoreAllExactly(m, ix.committed.blockheight, grown);
      }
    }
  }

  lemma ShortForkOutcome(env: Env, genesis: CommittedBlockHeader, s: State, call: Call, grown: Chain)
    requires Sound(env, genesis, s) && call.ix.SubmitShortForkHeaders? && Executed(env, s, call).Ok?
    requires Offered(env.blockHash, call.ix.committed, grown, call.ix.headers, call.now)
    ensures var s' := Executed(env, s, call).value;
            && grown != [] && MovedTo(env.blockHash, s.main, call.ix.committed.blockheight, grown, s'.main)
            && s'.main.forkCounter == s.main.forkCounter + 1
            && s' == s.(main := s'.main)
  {
    hide Headers.Verified, Links, Offered, StoredAll, AppendToMain, MovedTo, Val;
    var (bh, m, ix) := (env.blockHash, s.main, call.ix);
    ReadExactly(m, ix.committed);
    OfferedLength(bh, ix.committed, grown, ix.headers, call.now);
    OfferedLast(bh, ix.committed, grown, ix.headers, call.now);
    MainLoopStores(bh, Progress(m, ix.committed.blockheight, ix.committed), grown, ix.headers, call.now);
    StoringKeepsRest(m, grown);
    StoredMovesTo(bh, m, ix.committed.blockheight, grown, m.forkCounter + 1);
  }

  // ---------------------------------------------------------------- submit_fork_headers

  /** The call opens a fork under the next id on a header that passes the commitment check, or continues one from its
      tip. */
  ghost predicate OpensOrContinues(m: MainView, stored: Option<ForkView>, c: CommittedBlockHeader, forkId: u64,
                                   init: bool) {
    if init then stored.None? && forkId == m.forkCounter && forkId < U64_MAX && Passes(m, c)
    else stored.Some? && stored.value.tipCommitHash == CommitHash(c)
  }

  ghost function LengthOf(stored: Option<ForkView>): nat {
    if stored.Some? then stored.value.length else 0
  }

  ghost function BaseHeight(stored: Option<ForkView>, c: CommittedBlockHeader): nat {
    if stored.Some? then stored.value.startHeight else c.blockheight
  }

  /** The counter has room for what the ring takes of so many headers above a base. */
  ghost predicate HasRoom(m: MainView, base: nat, length: nat) {
    m.totalBlocks + Taken(m.startHeight, base, length) <= U32_MAX
  }

  /** What has been called heavier: the last header outweighs the main chain. */
  ghost predicate Heavier(m: MainView, c: CommittedBlockHeader, grown: Chain) {
    Val(Last([c] + grown).chainWork) > Val(m.chainWork)
  }

  /** A fork account that holds these headers, and otherwise what it held before. */
  ghost predicate ForkIs(bh: BlockHash, before: Slots, base: nat, whole: Chain, f: ForkView)
    requires whole != []
  {
    && f.initialized == 1 && f.startHeight == base && f.length == |whole| <= 250
    && (forall i :: 0 <= i < |whole| ==> f.blockCommitments[i] == CommitHash(whole[i]))
    && (forall i :: |whole| <= i < 250 ==> f.blockCommitments[i] == before[i])
    && f.tipCommitHash == CommitHash(Last(whole)) && f.tipBlockHash == bh(Last(whole).header)
  }

  ghost function SlotsBefore(stored: Option<ForkView>): Slots {
    if stored.Some? then stored.value.blockCommitments else seq(250, _ => NoCommitment)
  }

  lemma ExtendsHeaders(f: ForkView, grown: Chain, f': ForkView)
    requires Filled(f) && Extends(f, grown, f')
    ensures Filled(f') && ForkHeaders(f') == ForkHeaders(f) + grown
  {
    forall i | f.length <= i < f'.length
      ensures f'.blockCommitments[i] == CommitHash(grown[i - f.length])
    {
      var k := i - f.length;
      assert f'.blockCommitments[f.length + k] == CommitHash(grown[k]);
    }
    assert ForkHeaders(f') == ForkHeaders(f) + grown;
  }

  /** Settling a fork that hangs off its base. */
  lemma SettlesExactly(bh: BlockHash, m: MainView, q: Progress<ForkView>, base: CommittedBlockHeader)
    requires HangsOff(bh, q, base) && base.blockheight < m.startHeight + 250
    ensures var (r, whole) := (ForkSettled(bh, m, q), ForkHeaders(q.account));
            var room := HasRoom(m, base.blockheight, |whole|);
            if Val(q.last.chainWork) <= Val(m.chainWork) then
              r == Ok(Forked(m, Some(q.account.(tipBlockHash := bh(q.last.header),
                                                tipCommitHash := CommitHash(q.last)))))
            else if !room then r == Err(Panic)
            else && r.Ok? && r.value.fork.None? && MovedTo(bh, m, base.blockheight, whole, r.value.main)
                 && r.value.main.forkCounter == m.forkCounter
  {
    hide Links, Val, MovedTo, StoredAll;
    var whole := ForkHeaders(q.account);
    GrownIsCounted(bh, base, whole);
    PromotionLoop(m, q.account, 0);
    assert whole[0..] == whole;
    StoreAllExactly(m, base.blockheight, whole);
    if StoredAll(m, whole).Ok? {
      StoringKeepsRest(m, whole);
      StoredMovesTo(bh, m, base.blockheight, whole, m.forkCounter);
    }
  }

  /** An admitted call up to its settlement. */
  lemma AppendsExactly(bh: BlockHash, m: MainView, stored: Option<ForkView>, c: CommittedBlockHeader, forkId: u64,
                       init: bool,
                       headers: seq<Offer>, now: u32, base: CommittedBlockHeader, grown: Chain)
    returns (m': MainView, q: Progress<ForkView>)
    requires m.blockHeight < m.startHeight + 250 && OpensOrContinues(m, stored, c, forkId, init) && headers != []
    requires if stored.Some? then ForkHangsOff(bh, stored.value, base) else base == c
    requires Offered(bh, c, grown, headers, now)
    ensures m' == m.(forkCounter := if init then forkId + 1 else m.forkCounter)
    ensures LengthOf(stored) + |headers| > 250 ==>
              LongForked(bh, m, stored, |headers|, headers, c, forkId, init, now) == Err(Panic)
    ensures LengthOf(stored) + |headers| <= 250 ==>
              && LongForked(bh, m, stored, |headers|, headers, c, forkId, init, now) == ForkSettled(bh, m', q)
              && HangsOff(bh, q, base) && ForkHeaders(q.account) == StoredHeaders(stored) + grown
              && q.last == Last(grown)
              && (forall i :: q.account.length <= i < 250 ==> q.account.blockCommitments[i] == SlotsBefore(stored)[i])
  {
    hide AppendToFork, ForkSettled, Links, Offered, InSlot;
    var f := if stored.Some? then stored.value else EmptyFork();
    ReadExactly(m.(forkCounter := if init then forkId + 1 else m.forkCounter), c);
    SameSlots(m, m.(forkCounter := if init then forkId + 1 else m.forkCounter), c);
    var started := ForkOpened(m, f, c, forkId).value;
    assert ForkHeaders(started.1) == ForkHeaders(f) == StoredHeaders(stored);
    assert Last([base] + ForkHeaders(f)) == c;
    var p := Progress(started.1, c.blockheight, c);
    OfferedLength(bh, c, grown, headers, now);
    OfferedLast(bh, c, grown, headers, now);
    ForkLoopAppends(bh, p, grown, headers, now);
    m' := started.0;
    q := p;
    if LengthOf(stored) + |headers| <= 250 {
      q := AppendToFork(bh, p, headers, now).value;
      ExtendsHeaders(started.1, grown, q.account);
      OfferedChain(bh, [base] + ForkHeaders(f), grown, headers, now);
      assert ([base] + ForkHeaders(f)) + grown == [base] + ForkHeaders(q.account);
    }
  }

  lemma OfferedChain(bh: BlockHash, chain: Chain, grown: Chain, headers: seq<Offer>, now: u32)
    requires ValidChain(bh, chain) && Offered(bh, Last(chain), grown, headers, now)
    ensures ValidChain(bh, chain + grown)
  {
    hide Links;
    ChainConcat(bh, chain, grown);
  }

  /** In a reachable state a long-fork call succeeds if and only if there are headers, one account for each, it opens or
      continues a fork, the headers are valid on the supplied one, the account has slots for them, and, if they end
      heavier than the main chain, the counter has room for those the ring takes. */
  lemma LongForkSucceedsExactly(env: Env, genesis: CommittedBlockHeader, s: State, call: Call)
    requires Sound(env, genesis, s) && call.ix.SubmitForkHeaders?
    ensures var (m, ix, c) := (s.main, call.ix, call.ix.committed);
            var stored := StoredFork(s, ForkKey(ix.forkId, ix.signer));
            var length := LengthOf(stored) + |ix.headers|;
            Executed(env, s, call).Ok? <==>
              && ix.headers != [] && |ix.headers| == ix.accounts
              && OpensOrContinues(m, stored, c, ix.forkId, ix.init)
              && length <= 250
              && exists grown :: Offered(env.blockHash, c, grown, ix.headers, call.now) &&
                   (Heavier(m, c, grown) ==> HasRoom(m, BaseHeight(stored, c), length))
  {
    hide Executed, LongForked, Links, Offered, Heavier, ForkSound, MainSound;
    var (m, ix) := (s.main, call.ix);
    var stored := StoredFork(s, ForkKey(ix.forkId, ix.signer));
    var length := LengthOf(stored) + |ix.headers|;
    LongForkRuns(env, genesis, s, call);
    if Executed(env, s, call).Ok? {
      LongForkNeeds(env, genesis, s, call);
      var grown: Chain :| Offered(env.blockHash, ix.committed, grown, ix.headers, call.now);
      LongForkEnds(env, genesis, s, call, grown);
    } else if exists grown :: Offered(env.blockHash, ix.committed, grown, ix.headers, call.now) &&
                (Heavier(m, ix.committed, grown) ==> HasRoom(m, BaseHeight(stored, ix.committed), length))
    {
      var grown: Chain :| Offered(env.blockHash, ix.committed, grown, ix.headers, call.now) &&
        (Heavier(m, ix.committed, grown) ==> HasRoom(m, BaseHeight(stored, ix.committed), length));
      var admitted := OpensOrContinues(m, stored, ix.committed, ix.forkId, ix.init);
      if ix.headers != [] && |ix.headers| == ix.accounts && admitted {
        LongForkEnds(env, genesis, s, call, grown);
      }
    }
  }

  lemma LongForkRuns(env: Env, genesis: CommittedBlockHeader, s: State, call: Call)
    requires call.ix.SubmitForkHeaders?
    ensures Executed(env, s, call).Ok? <==> ForkOutcome(env, s, call).Ok?
  {
    hide LongForked;
  }

  /** What success takes. */
  lemma LongForkNeeds(env: Env, genesis: CommittedBlockHeader, s: State, call: Call)
    requires Sound(env, genesis, s) && call.ix.SubmitForkHeaders? && ForkOutcome(env, s, call).Ok?
    ensures var ix := call.ix;
            && ix.headers != [] && |ix.headers| == ix.accounts
            && OpensOrContinues(s.main, StoredFork(s, ForkKey(ix.forkId, ix.signer)), ix.committed, ix.forkId, ix.init)
            && exists grown :: Offered(env.blockHash, ix.committed, grown, ix.headers, call.now)
  {
    hide AppendToFork, ForkSettled, Links, Offered, InSlot;
    var (m, ix, bh) := (s.main, call.ix, env.blockHash);
    var stored := StoredFork(s, ForkKey(ix.forkId, ix.signer));
    var f := if stored.Some? then stored.value else EmptyFork();
    var counted := m.(forkCounter := if ix.init then ix.forkId + 1 else m.forkCounter);
    ReadExactly(counted, ix.committed);
    SameSlots(m, counted, ix.committed);
    var started := ForkOpened(m, f, ix.committed, ix.forkId).value;
    ForkLoopNeedsOffered(bh, Progress(started.1, ix.committed.blockheight, ix.committed), ix.headers, call.now);
  }

  /** How an admitted call with offered headers ends. */
  lemma LongForkEnds(env: Env, genesis: CommittedBlockHeader, s: State, call: Call, grown: Chain)
    requires Sound(env, genesis, s) && call.ix.SubmitForkHeaders?
    requires var ix := call.ix;
             && ix.headers != [] && |ix.headers| == ix.accounts
             && OpensOrContinues(s.main, StoredFork(s, ForkKey(ix.forkId, ix.signer)), ix.committed, ix.forkId, ix.init)
    requires Offered(env.blockHash, call.ix.committed, grown, call.ix.headers, call.now)
    ensures var (m, ix, c, bh) := (s.main, call.ix, call.ix.committed, env.blockHash);
            var stored := StoredFork(s, ForkKey(ix.forkId, ix.signer));
            var (length, whole) := (LengthOf(stored) + |ix.headers|, StoredHeaders(stored) + grown);
            var room := HasRoom(m, BaseHeight(stored, c), length);
            var r := ForkOutcome(env, s, call);
            var m' := m.(forkCounter := if ix.init then ix.forkId + 1 else m.forkCounter);
            && |whole| == length > 0
            && (length > 250 || (Heavier(m, c, grown) && !room) ==> r == Err(Panic))
            && (length <= 250 && !Heavier(m, c, grown) ==>
                  && r.Ok? && r.value.main == m' && r.value.fork.Some?
                  && ForkIs(bh, SlotsBefore(stored), BaseHeight(stored, c), whole, r.value.fork.value))
            && (length <= 250 && Heavier(m, c, grown) && room ==>
                  && r.Ok? && r.value.fork.None? && r.value.main.forkCounter == m'.forkCounter
                  && MovedTo(bh, m', BaseHeight(stored, c), whole, r.value.main))
  {
    hide LongForked, ForkSettled, AppendToFork, Links, Offered, MovedTo, InSlot, Val;
    var (m, ix, c, bh) := (s.main, call.ix, call.ix.committed, env.blockHash);
    var stored := StoredFork(s, ForkKey(ix.forkId, ix.signer));
    var base := c;
    if stored.Some? {
      base :| Anchored(bh, genesis, base) && ForkHangsOff(bh, stored.value, base);
    }
    OfferedLength(bh, c, grown, ix.headers, call.now);
    OfferedLast(bh, c, grown, ix.headers, call.now);
    var m', q := AppendsExactly(bh, m, stored, c, ix.forkId, ix.init, ix.headers, call.now, base, grown);
    if LengthOf(stored) + |ix.headers| <= 250 {
      SettlesExactly(bh, m', q, base);
      HoldsWhole(q.account);
      assert Last(ForkHeaders(q.account)) == Last(grown);
    }
  }

  lemma HoldsWhole(f: ForkView)
    requires Filled(f)
    ensures forall i :: 0 <= i < f.length ==> f.blockCommitments[i] == CommitHash(ForkHeaders(f)[i])
  {}

  /** And what it changes: only the fork's account while the fork is not heavier; only the main account and the fork's,
      which is closed, when it is. */
  lemma LongForkOutcome(env: Env, genesis: CommittedBlockHeader, s: State, call: Call, grown: Chain)
    requires Sound(env, genesis, s) && call.ix.SubmitForkHeaders? && Executed(env, s, call).Ok?
    requires Offered(env.blockHash, call.ix.committed, grown, call.ix.headers, call.now)
    ensures var (m, ix, c, bh, s') := (s.main, call.ix, call.ix.committed, env.blockHash, Executed(env, s, call).value);
            var key := ForkKey(ix.forkId, ix.signer);
            var (stored, counter) := (StoredFork(s, key), if ix.init then ix.forkId + 1 else m.forkCounter);
            var whole := StoredHeaders(stored) + grown;
            && whole != []
            && if Heavier(m, c, grown) then
                 && s' == s.(main := s'.main, forks := s.forks - {key})
                 && s'.main.forkCounter == counter
                 && MovedTo(bh, m.(forkCounter := counter), BaseHeight(stored, c), whole, s'.main)
               else
                 && key in s'.forks
                 && s' == s.(main := m.(forkCounter := counter), forks := s.forks[key := s'.forks[key]])
                 && ForkIs(bh, SlotsBefore(stored), BaseHeight(stored, c), whole, s'.forks[key])
  {
    hide LongForked, Offered, Heavier, MovedTo, ForkIs, ForkSound, MainSound;
    LongForkRuns(env, genesis, s, call);
    LongForkNeeds(env, genesis, s, call);
    LongForkEnds(env, genesis, s, call, grown);
  }

  // ---------------------------------------------------------------- refusals

  /** The header after k offered ones fails. */
  ghost predicate FailsAt(bh: BlockHash, c: CommittedBlockHeader, grown: Chain, headers: seq<Offer>, k: nat, now: u32,
                          e: Error)
  {
    && k < |headers| && Offered(bh, c, grown, headers[..k], now)
    && var last := Last([c] + grown);
    Accepted(bh, last, last.blockheight, headers[k], now) == Err(e)
  }

  lemma FailsLater(bh: BlockHash, c: CommittedBlockHeader, grown: Chain, headers: seq<Offer>, k: nat, now: u32,
                   e: Error)
    requires FailsAt(bh, c, grown, headers, k, now, e)
    ensures |grown| == k
    ensures k == 0 ==> Accepted(bh, c, c.blockheight, headers[0], now) == Err(e)
    ensures k > 0 ==>
              && Accepted(bh, c, c.blockheight, headers[0], now) == Ok(grown[0])
              && grown[0].blockheight == c.blockheight + 1
              && FailsAt(bh, grown[0], grown[1..], headers[1..], k - 1, now, e)
  {
    hide Accepted, Links;
    OfferedLength(bh, c, grown, headers[..k], now);
    if k > 0 {
      OfferedFirst(bh, c, grown, headers[..k], now);
      assert headers[..k][1..] == headers[1..][..k - 1] && [grown[0]] + grown[1..] == grown;
      assert Last([c] + grown) == Last([grown[0]] + grown[1..]);
    }
  }

  lemma {:induction false} MainLoopRefuses(bh: BlockHash, p: Progress<MainView>, grown: Chain, headers: seq<Offer>,
                                           k: nat,
                                           now: u32, e: Error)
    requires p.height == p.last.blockheight && FailsAt(bh, p.last, grown, headers, k, now, e)
    requires StoredAll(p.account, grown).Ok?
    ensures AppendToMain(bh, p, headers, now) == Err(e)
    decreases k
  {
    hide Accepted, FailsAt;
    FailsLater(bh, p.last, grown, headers, k, now, e);
    FailsInRange(bh, p.last, grown, headers, k, now, e);
    if k > 0 {
      var stored := p.account.Stored(p.height + 1, CommitHash(grown[0])).value;
      MainLoopRefuses(bh, Progress(stored, p.height + 1, grown[0]), grown[1..], headers[1..], k - 1, now, e);
    }
  }

  lemma FailsInRange(bh: BlockHash, c: CommittedBlockHeader, grown: Chain, headers: seq<Offer>, k: nat, now: u32,
                     e: Error)
    requires FailsAt(bh, c, grown, headers, k, now, e)
    ensures k < |headers|
  {}

  lemma {:induction false} ForkLoopRefuses(bh: BlockHash, p: Progress<ForkView>, grown: Chain, headers: seq<Offer>,
                                           k: nat,
                                           now: u32, e: Error)
    requires p.height == p.last.blockheight && FailsAt(bh, p.last, grown, headers, k, now, e)
    requires p.account.length + k <= 250
    ensures AppendToFork(bh, p, headers, now) == Err(e)
    decreases k
  {
    hide Accepted, FailsAt;
    FailsLater(bh, p.last, grown, headers, k, now, e);
    FailsInRange(bh, p.last, grown, headers, k, now, e);
    if k > 0 {
      var stored := p.account.Stored(CommitHash(grown[0])).value;
      ForkLoopRefuses(bh, Progress(stored, p.height + 1, grown[0]), grown[1..], headers[1..], k - 1, now, e);
    }
  }

  /** Why submissions are refused before their headers are looked at. */
  lemma SubmissionRefusals(env: Env, genesis: CommittedBlockHeader, s: State, call: Call)
    requires Sound(env, genesis, s)
    requires call.ix.SubmitBlockHeaders? || call.ix.SubmitShortForkHeaders? || call.ix.SubmitForkHeaders?
    ensures var (m, ix, c, r) := (s.main, call.ix, call.ix.committed, Executed(env, s, call));
            if ix.headers == [] then r == Err(NoHeaders)
            else if |ix.headers| != ix.accounts then r == Err(InvalidRemainingAccounts)
            else if ix.SubmitBlockHeaders? then
              if m.blockHeight < 250 then r == Err(Panic)
              else CommitHash(c) != m.tipCommitHash || m.blockHeight <= m.startHeight - 250 ==>
                r == Err(PrevBlockCommitment)
            else if ix.SubmitShortForkHeaders? then
              if c.blockheight <= m.blockHeight < 250 then r == Err(Panic)
              else !Passes(m, c) ==> r == Err(PrevBlockCommitment)
            else
              var stored := StoredFork(s, ForkKey(ix.forkId, ix.signer));
              if ix.init != stored.None? then r == Err(BadAccount)
              else if ix.init && ix.forkId != m.forkCounter then r == Err(InvalidForkId)
              else if ix.init && ix.forkId == U64_MAX then r == Err(Panic)
              else if ix.init && c.blockheight <= m.blockHeight < 250 then r == Err(Panic)
              else !OpensOrContinues(m, stored, c, ix.forkId, ix.init) ==> r == Err(PrevBlockCommitment)
  {
    hide AppendToMain, AppendToFork, ForkSettled, Links;
    var (m, ix) := (s.main, call.ix);
    ReadExactly(m, ix.committed);
    if ix.SubmitForkHeaders? {
      var counted := m.(forkCounter := if ix.forkId < U64_MAX then ix.forkId + 1 else m.forkCounter);
      ReadExactly(counted, ix.committed);
      SameSlots(m, counted, ix.committed);
    }
  }

  /** Why they are refused at a header: with that header's own error, if what precedes it could be stored. And a short
      reorganisation that does not end heavier is too short. */
  lemma HeaderRefusals(env: Env, genesis: CommittedBlockHeader, s: State, call: Call, grown: Chain, k: nat, e: Error)
    requires Sound(env, genesis, s)
    requires call.ix.SubmitBlockHeaders? || call.ix.SubmitShortForkHeaders? || call.ix.SubmitForkHeaders?
    requires |call.ix.headers| == call.ix.accounts
    requires FailsAt(env.blockHash, call.ix.committed, grown, call.ix.headers, k, call.now, e)
    ensures var (m, ix, c, r) := (s.main, call.ix, call.ix.committed, Executed(env, s, call));
            if ix.SubmitForkHeaders? then
              var stored := StoredFork(s, ForkKey(ix.forkId, ix.signer));
              OpensOrContinues(m, stored, c, ix.forkId, ix.init) && LengthOf(stored) + k <= 250 ==> r == Err(e)
            else
              var admitted := Passes(m, c) && (ix.SubmitBlockHeaders? ==> CommitHash(c) == m.tipCommitHash);
              admitted && m.totalBlocks + k <= U32_MAX ==> r == Err(e)
  {
    hide AppendToMain, AppendToFork, ForkSettled, Links, FailsAt, StoredAll;
    var (m, ix, c, bh) := (s.main, call.ix, call.ix.committed, env.blockHash);
    ReadExactly(m, c);
    FailsLater(bh, c, grown, ix.headers, k, call.now, e);
    FailsInRange(bh, c, grown, ix.headers, k, call.now, e);
    FailsCounted(bh, c, grown, ix.headers, k, call.now, e);
    if ix.SubmitForkHeaders? {
      var stored := StoredFork(s, ForkKey(ix.forkId, ix.signer));
      if OpensOrContinues(m, stored, c, ix.forkId, ix.init) && LengthOf(stored) + k <= 250 {
        ForkRefuses(env, genesis, s, call, grown, k, e);
      }
    } else if m.startHeight - 250 < c.blockheight < m.startHeight + 250 && m.totalBlocks + k <= U32_MAX {
      StoreAllExactly(m, c.blockheight, grown);
      MainLoopRefuses(bh, Progress(m, c.blockheight, c), grown, ix.headers, k, call.now, e);
    }
  }

  lemma FailsCounted(bh: BlockHash, c: CommittedBlockHeader, grown: Chain, headers: seq<Offer>, k: nat, now: u32,
                     e: Error)
    requires FailsAt(bh, c, grown, headers, k, now, e)
    ensures CountedFrom(c.blockheight, grown)
  {
    OfferedLast(bh, c, grown, headers[..k], now);
  }

  lemma ForkRefuses(env: Env, genesis: CommittedBlockHeader, s: State, call: Call, grown: Chain, k: nat, e: Error)
    requires Sound(env, genesis, s) && call.ix.SubmitForkHeaders? && |call.ix.headers| == call.ix.accounts
    requires FailsAt(env.blockHash, call.ix.committed, grown, call.ix.headers, k, call.now, e)
    requires var (ix, stored) := (call.ix, StoredFork(s, ForkKey(call.ix.forkId, call.ix.signer)));
             OpensOrContinues(s.main, stored, ix.committed, ix.forkId, ix.init) && LengthOf(stored) + k <= 250
    ensures Executed(env, s, call) == Err(e)
  {
    hide AppendToFork, ForkSettled, Links, FailsAt, InSlot;
    var (m, ix, c) := (s.main, call.ix, call.ix.committed);
    var stored := StoredFork(s, ForkKey(ix.forkId, ix.signer));
    var f := if stored.Some? then stored.value else EmptyFork();
    var counted := m.(forkCounter := if ix.init then ix.forkId + 1 else m.forkCounter);
    ReadExactly(counted, c);
    SameSlots(m, counted, c);
    FailsInRange(env.blockHash, c, grown, ix.headers, k, call.now, e);
    var started := ForkOpened(m, f, c, ix.forkId).value;
    ForkLoopRefuses(env.blockHash, Progress(started.1, c.blockheight, c), grown, ix.headers, k, call.now, e);
  }

  lemma TooShort(env: Env, genesis: CommittedBlockHeader, s: State, call: Call, grown: Chain)
    requires Sound(env, genesis, s) && call.ix.SubmitShortForkHeaders?
    requires call.ix.headers != [] && |call.ix.headers| == call.ix.accounts && Passes(s.main, call.ix.committed)
    requires Offered(env.blockHash, call.ix.committed, grown, call.ix.headers, call.now)
    requires s.main.totalBlocks + |grown| <= U32_MAX && !Heavier(s.main, call.ix.committed, grown)
    ensures Executed(env, s, call) == Err(ForkTooShort)
  {
    hide AppendToMain, Links, Offered, StoredAll, Val;
    var (m, ix, c) := (s.main, call.ix, call.ix.committed);
    ReadExactly(m, c);
    OfferedLast(env.blockHash, c, grown, ix.headers, call.now);
    StoreAllExactly(m, c.blockheight, grown);
    MainLoopStores(env.blockHash, Progress(m, c.blockheight, c), grown, ix.headers, call.now);
  }
}
