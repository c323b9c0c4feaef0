/** The header loops and the promotion loop, seen as growing a chain and storing its headers. */
module Loops {
  import opened Bytes
  import opened Results
  import opened Structs
  import opened Accounts
  import opened Relay
  import opened Chains
  import opened Ring
  import Headers

  /** The committed headers a loop produces, up to the first refusal. */
  ghost function AcceptedAll(bh: BlockHash, last: CommittedBlockHeader, headers: seq<Offer>, now: u32): Chain
    decreases |headers|
  {
    if headers == [] then [] else
    match Accepted(bh, last, last.blockheight, headers[0], now)
    case Err(_) => []
    case Ok(c) => [c] + AcceptedAll(bh, c, headers[1..], now)
  }

  /** The main account after storing a list of headers one by one. */
  ghost function StoredAll(m: MainView, chain: Chain): Result<MainView>
    decreases |chain|
  {
    if chain == [] then Ok(m) else
    match m.Stored(chain[0].blockheight, CommitHash(chain[0]))
    case Err(e) => Err(e)
    case Ok(m') => StoredAll(m', chain[1..])
  }

  /** A successful main-chain loop stores the accepted headers, each a valid successor of the one before. */
  lemma {:induction false} MainLoop(bh: BlockHash, p: Progress<MainView>, headers: seq<Offer>, now: u32)
    requires p.height == p.last.blockheight && AppendToMain(bh, p, headers, now).Ok?
    ensures var q, grown := AppendToMain(bh, p, headers, now).value, AcceptedAll(bh, p.last, headers, now);
            && Carries(grown, headers)
            && StoredAll(p.account, grown) == Ok(q.account)
            && ValidChain(bh, [p.last] + grown)
            && Last([p.last] + grown) == q.last
            && q.height == q.last.blockheight
    decreases |headers|
  {
    hide Headers.Verified;
    if headers != [] {
      var next := Accepted(bh, p.last, p.height, headers[0], now).value;
      AcceptedLinks(bh, p.last, headers[0], now);
      var account := p.account.Stored(p.height + 1, CommitHash(next)).value;
      MainLoop(bh, Progress(account, p.height + 1, next), headers[1..], now);
      var rest := AcceptedAll(bh, next, headers[1..], now);
      assert ([next] + rest)[1..] == rest;
      ConsChain(bh, p.last, next, rest);
    }
  }

  lemma ConsChain(bh: BlockHash, p: CommittedBlockHeader, next: CommittedBlockHeader, rest: Chain)
    requires Links(bh, p, next) && ValidChain(bh, [next] + rest)
    ensures ValidChain(bh, [p] + ([next] + rest))
    ensures Last([p] + ([next] + rest)) == Last([next] + rest)
  {
    var chain := [p] + ([next] + rest);
    forall i | 0 <= i < |chain| - 1
      ensures Links(bh, chain[i], chain[i + 1])
    {
      if i > 0 {
        assert chain[i] == ([next] + rest)[i - 1] && chain[i + 1] == ([next] + rest)[i];
      }
    }
  }

  // ---------------------------------------------------------------- fork accounts

  ghost predicate Filled(f: ForkView) {
    f.length <= 250 && forall i :: 0 <= i < f.length ==> f.blockCommitments[i].CommitHash?
  }

  ghost function HeaderIn(f: ForkView, i: nat): CommittedBlockHeader
    requires Filled(f) && i < f.length
  {
    f.blockCommitments[i].committed
  }

  /** The headers a fork account holds. */
  ghost function ForkHeaders(f: ForkView): (r: Chain)
    requires Filled(f)
    ensures |r| == f.length
  {
    seq(f.length, i requires 0 <= i < f.length => HeaderIn(f, i))
  }

  /** The account records this header as its tip. */
  ghost predicate TipMatches(bh: BlockHash, m: MainView, tip: CommittedBlockHeader) {
    && m.tipCommitHash == CommitHash(tip)
    && m.tipBlockHash == bh(tip.header)
    && m.blockHeight == tip.blockheight
    && m.chainWork == tip.chainWork
    && m.lastDiffAdjustment == tip.lastDiffAdjustment
  }

  /** The headers an opened fork holds, none at first, are linked to each other and to the base at start_height. */
  ghost predicate HeadersHangOff(bh: BlockHash, f: ForkView, base: CommittedBlockHeader) {
    && f.initialized == 1 && Filled(f)
    && base.blockheight == f.startHeight
    && ValidChain(bh, [base] + ForkHeaders(f))
  }

  /** An open fork between calls: 1 to 250 such headers, the last of them recorded as the tip. */
  ghost predicate ForkHangsOff(bh: BlockHash, f: ForkView, base: CommittedBlockHeader) {
    && HeadersHangOff(bh, f, base) && 1 <= f.length
    && f.tipCommitHash == CommitHash(Last(ForkHeaders(f)))
    && f.tipBlockHash == bh(Last(ForkHeaders(f)).header)
  }

  /** A fork in the middle of a call: its headers end in the last one verified. */
  ghost predicate HangsOff(bh: BlockHash, q: Progress<ForkView>, base: CommittedBlockHeader) {
    && HeadersHangOff(bh, q.account, base) && 1 <= q.account.length
    && q.last == Last(ForkHeaders(q.account)) && q.height == q.last.blockheight
  }

  /** A successful fork loop appends the accepted headers to the account. */
  lemma {:induction false} ForkLoop(bh: BlockHash, p: Progress<ForkView>, headers: seq<Offer>, now: u32)
    requires p.height == p.last.blockheight && AppendToFork(bh, p, headers, now).Ok?
    requires Filled(p.account)
    ensures var q, grown := AppendToFork(bh, p, headers, now).value, AcceptedAll(bh, p.last, headers, now);
            && |grown| == |headers|
            && Filled(q.account) && ForkHeaders(q.account) == ForkHeaders(p.account) + grown
            && q.account.initialized == p.account.initialized
            && q.account.startHeight == p.account.startHeight
            && ValidChain(bh, [p.last] + grown)
            && Last([p.last] + grown) == q.last
            && q.height == q.last.blockheight
    decreases |headers|
  {
    hide Headers.Verified;
    if headers == [] {
      assert ForkHeaders(p.account) + [] == ForkHeaders(p.account);
    } else {
      var next := Accepted(bh, p.last, p.height, headers[0], now).value;
      AcceptedLinks(bh, p.last, headers[0], now);
      var account := p.account.Stored(CommitHash(next)).value;
      assert Filled(account) && ForkHeaders(account) == ForkHeaders(p.account) + [next];
      ForkLoop(bh, Progress(account, p.height + 1, next), headers[1..], now);
      var rest := AcceptedAll(bh, next, headers[1..], now);
      assert ForkHeaders(p.account) + ([next] + rest) == (ForkHeaders(p.account) + [next]) + rest;
      ConsChain(bh, p.last, next, rest);
    }
  }

  ghost predicate CountedFrom(height: nat, chain: Chain) {
    forall i :: 0 <= i < |chain| ==> chain[i].blockheight == height + 1 + i
  }

  /** Promotion stores the fork's headers one by one. */
  lemma {:induction false} PromotionLoop(m: MainView, f: ForkView, i: nat)
    requires Filled(f) && i <= f.length && CountedFrom(f.startHeight, ForkHeaders(f))
    ensures StoredAll(m, ForkHeaders(f)[i..]) == Promoted(m, f, i)
    decreases f.length - i
  {
    if i < f.length {
      var headers := ForkHeaders(f);
      assert headers[i] == HeaderIn(f, i) && headers[i..][0] == headers[i] && headers[i..][1..] == headers[i + 1..];
      var stored := m.Stored(f.startHeight + 1 + i, f.blockCommitments[i]);
      if stored.Ok? {
        PromotionLoop(stored.value, f, i + 1);
      }
    }
  }

  // ---------------------------------------------------------------- what storing a list does

  /** Stores touch only the slots, start_height and total_blocks. */
  lemma {:induction false} StoringKeepsRest(m: MainView, chain: Chain)
    requires StoredAll(m, chain).Ok?
    ensures var m' := StoredAll(m, chain).value;
            m' == m.(blockCommitments := m'.blockCommitments, startHeight := m'.startHeight,
                     totalBlocks := m'.totalBlocks)
    decreases |chain|
  {
    if chain != [] {
      StoringKeepsRest(m.Stored(chain[0].blockheight, CommitHash(chain[0])).value, chain[1..]);
    }
  }

  /** How many of the n heights above a base the ring still takes. */
  ghost function Taken(startHeight: int, base: int, n: nat): int {
    var oldest := startHeight - 250;
    if base + n <= oldest then 0 else if base <= oldest then base + n - oldest else n
  }

  /** Storing consecutive headers succeeds exactly if the counter has room for those the ring takes. */
  lemma {:induction false} StoreAllExactly(m: MainView, base: nat, grown: Chain)
    requires CountedFrom(base, grown) && base < m.startHeight + 250
    ensures StoredAll(m, grown).Ok? <==> m.totalBlocks + Taken(m.startHeight, base, |grown|) <= U32_MAX
    ensures StoredAll(m, grown).Err? ==> StoredAll(m, grown) == Err(Panic)
    ensures StoredAll(m, grown).Ok? ==>
              var m' := StoredAll(m, grown).value;
              && m'.totalBlocks == m.totalBlocks + Taken(m.startHeight, base, |grown|)
              && m.startHeight <= m'.startHeight && base + |grown| < m'.startHeight + 250
    decreases |grown|
  {
    if grown != [] {
      var c := grown[0];
      assert c.blockheight == base + 1;
      StoredExactly(m, c.blockheight, CommitHash(c));
      forall i | 0 <= i < |grown| - 1
        ensures grown[1..][i].blockheight == base + 2 + i
      {
        assert grown[1..][i] == grown[i + 1];
      }
      var stored := m.Stored(c.blockheight, CommitHash(c));
      if stored.Ok? {
        StoreAllExactly(stored.value, base + 1, grown[1..]);
      }
    }
  }

  /** Which headers of the last 250 heights are in their slots afterwards. */
  lemma {:induction false} StoreAllInSlot(m: MainView, base: nat, grown: Chain, x: CommittedBlockHeader)
    requires CountedFrom(base, grown) && base < m.startHeight + 250 && StoredAll(m, grown).Ok?
    requires base + |grown| - 250 < x.blockheight <= base + |grown|
    ensures InSlot(StoredAll(m, grown).value, x) <==>
              if x.blockheight <= base then InSlot(m, x)
              else x == grown[x.blockheight - base - 1] && x.blockheight > m.startHeight - 250
    decreases |grown|
  {
    hide InSlot;
    if grown != [] {
      var c, rest := grown[0], grown[1..];
      assert c.blockheight == base + 1;
      var m' := m.Stored(c.blockheight, CommitHash(c)).value;
      StoredExactly(m, c.blockheight, CommitHash(c));
      forall i | 0 <= i < |rest|
        ensures rest[i].blockheight == base + 2 + i
      {
        assert rest[i] == grown[i + 1];
      }
      StoreAllInSlot(m', base + 1, rest, x);
      if x.blockheight <= base + 1 {
        StoreInSlot(m, c, m', x);
      } else {
        assert rest[x.blockheight - base - 2] == grown[x.blockheight - base - 1];
      }
    }
  }

  /** Storing successors of the tip keeps the ring and extends the chain. */
  lemma {:induction false} StoreAllInRing(m: MainView, chain: Chain, highWater: nat, floor: int, grown: Chain)
    requires RingHoldsAbove(m, chain, highWater, floor)
    requires CountedFrom(Last(chain).blockheight, grown)
    requires StoredAll(m, grown).Ok?
    ensures RingHoldsAbove(StoredAll(m, grown).value, chain + grown,
                           MaxOf(highWater, Last(chain + grown).blockheight), floor)
    decreases |grown|
  {
    if grown == [] {
      assert chain + grown == chain;
    } else {
      var c, rest := grown[0], grown[1..];
      var m' := m.Stored(c.blockheight, CommitHash(c)).value;
      StoreInRing(m, chain, highWater, floor, c, m');
      hide RingHoldsAbove;
      assert Last(chain + [c]) == c;
      forall i | 0 <= i < |rest|
        ensures rest[i].blockheight == c.blockheight + 1 + i
      {
        assert rest[i] == grown[i + 1];
      }
      StoreAllInRing(m', chain + [c], MaxOf(highWater, c.blockheight), floor, rest);
      assert (chain + [c]) + rest == chain + grown;
    }
  }

  lemma StoreChainInRing(m: MainView, chain: Chain, highWater: nat, floor: int, grown: Chain)
    requires RingHoldsAbove(m, chain, highWater, floor)
    requires CountedFrom(Last(chain).blockheight, grown) && grown != [] && StoredAll(m, grown).Ok?
    requires floor <= MaxOf(highWater, Last(chain).blockheight + |grown|) - 250 <= Last(chain).blockheight
    ensures RingHolds(StoredAll(m, grown).value, chain + grown, MaxOf(highWater, Last(chain).blockheight + |grown|))
  {
    StoreAllInRing(m, chain, highWater, floor, grown);
    hide RingHoldsAbove;
    assert Last(chain + grown) == Last(grown) == grown[|grown| - 1];
    RaiseFloor(StoredAll(m, grown).value, chain + grown, MaxOf(highWater, Last(grown).blockheight), floor);
  }

  /** The tail of a valid chain counts up from its head. */
  lemma GrownIsCounted(bh: BlockHash, last: CommittedBlockHeader, grown: Chain)
    requires ValidChain(bh, [last] + grown)
    ensures CountedFrom(last.blockheight, grown)
  {
    forall i | 0 <= i < |grown|
      ensures grown[i].blockheight == last.blockheight + 1 + i
    {
      ChainHeights(bh, [last] + grown, i + 1);
    }
  }

  // ---------------------------------------------------------------- the three submissions, taken apart

  lemma AppendedParts(bh: BlockHash, m: MainView, accounts: nat, headers: seq<Offer>, c: CommittedBlockHeader,
                      now: u32)
    requires Appended(bh, m, accounts, headers, c, now).Ok? && c.blockheight == m.blockHeight
    ensures var grown := AcceptedAll(bh, c, headers, now);
            && m.CommitmentAt(m.blockHeight) == Ok(CommitHash(c))
            && grown != [] && Carries(grown, headers) && ValidChain(bh, [c] + grown) && StoredAll(m, grown).Ok?
            && Appended(bh, m, accounts, headers, c, now).value
               == WithTip(bh, StoredAll(m, grown).value, Last(grown).blockheight, Last(grown))
  {
    hide Headers.Verified;
    MainLoop(bh, Progress(m, m.blockHeight, c), headers, now);
  }

  lemma ShortForkedParts(bh: BlockHash, m: MainView, accounts: nat, headers: seq<Offer>, c: CommittedBlockHeader,
                         now: u32)
    requires ShortForked(bh, m, accounts, headers, c, now).Ok?
    ensures var grown := AcceptedAll(bh, c, headers, now);
            && m.CommitmentAt(c.blockheight) == Ok(CommitHash(c))
            && grown != [] && ValidChain(bh, [c] + grown) && StoredAll(m, grown).Ok?
            && Val(Last(grown).chainWork) > Val(m.chainWork)
            && m.forkCounter < U64_MAX
            && ShortForked(bh, m, accounts, headers, c, now).value
               == WithTip(bh, StoredAll(m, grown).value, Last(grown).blockheight, Last(grown))
                  .(forkCounter := m.forkCounter + 1)
  {
    hide Headers.Verified;
    MainLoop(bh, Progress(m, c.blockheight, c), headers, now);
  }

  /** The headers of a fork account, none while there is no account. */
  ghost function StoredHeaders(stored: Option<ForkView>): Chain {
    if stored.Some? && Filled(stored.value) then ForkHeaders(stored.value) else []
  }

  /** Growing a fork that hangs off its base. */
  lemma ForkGrown(bh: BlockHash, f: ForkView, base: CommittedBlockHeader, c: CommittedBlockHeader,
                  headers: seq<Offer>, now: u32)
    requires HeadersHangOff(bh, f, base) && c == Last([base] + ForkHeaders(f))
    requires headers != [] && AppendToFork(bh, Progress(f, c.blockheight, c), headers, now).Ok?
    ensures var q := AppendToFork(bh, Progress(f, c.blockheight, c), headers, now).value;
            && HangsOff(bh, q, base)
            && ForkHeaders(q.account) == ForkHeaders(f) + AcceptedAll(bh, c, headers, now)
            && q.height == c.blockheight + |headers|
  {
    hide Headers.Verified, Links, AppendToFork, AcceptedAll;
    var p := Progress(f, c.blockheight, c);
    ForkLoop(bh, p, headers, now);
    var q, grown := AppendToFork(bh, p, headers, now).value, AcceptedAll(bh, c, headers, now);
    GrownIsCounted(bh, c, grown);
    ChainConcat(bh, [base] + ForkHeaders(f), grown);
    assert ([base] + ForkHeaders(f)) + grown == [base] + ForkHeaders(q.account);
    assert q.height == grown[|grown| - 1].blockheight;
  }

  /** A long-fork call up to its settlement; an opening call takes the supplied header for base. */
  lemma LongForkedParts(bh: BlockHash, m: MainView, stored: Option<ForkView>, accounts: nat, headers: seq<Offer>,
                        c: CommittedBlockHeader, forkId: u64, init: bool, now: u32, base: CommittedBlockHeader)
    returns (m': MainView, q: Progress<ForkView>)
    requires LongForked(bh, m, stored, accounts, headers, c, forkId, init, now).Ok?
    requires if stored.Some? then ForkHangsOff(bh, stored.value, base) else base == c
    ensures m' == m.(forkCounter := if init then forkId + 1 else m.forkCounter)
    ensures init <==> stored.None?
    ensures init ==> m.forkCounter == forkId && m.CommitmentAt(c.blockheight) == Ok(CommitHash(c))
    ensures LongForked(bh, m, stored, accounts, headers, c, forkId, init, now) == ForkSettled(bh, m', q)
    ensures HangsOff(bh, q, base)
    ensures ForkHeaders(q.account) == StoredHeaders(stored) + AcceptedAll(bh, c, headers, now)
    ensures q.height == c.blockheight + |headers|
  {
    hide AppendToFork, ForkSettled, Links;
    var f := if stored.Some? then stored.value else EmptyFork();
    var started := ForkOpened(m, f, c, forkId).value;
    assert ForkHeaders(started.1) == ForkHeaders(f) == StoredHeaders(stored);
    assert Last([base] + ForkHeaders(f)) == c;
    ForkGrown(bh, started.1, base, c, headers, now);
    m' := started.0;
    q := AppendToFork(bh, Progress(started.1, c.blockheight, c), headers, now).value;
  }

  /** The settlement: a heavier fork is stored over the ring, any other waits. */
  lemma SettledParts(bh: BlockHash, m: MainView, q: Progress<ForkView>, base: CommittedBlockHeader)
    requires HangsOff(bh, q, base) && ForkSettled(bh, m, q).Ok?
    ensures var r, whole := ForkSettled(bh, m, q).value, ForkHeaders(q.account);
            && CountedFrom(base.blockheight, whole)
            && (r.fork.None? <==> Val(q.last.chainWork) > Val(m.chainWork))
            && (r.fork.None? ==> StoredAll(m, whole).Ok?
                                 && r.main == WithTip(bh, StoredAll(m, whole).value, Last(whole).blockheight,
                                                      Last(whole)))
            && (r.fork.Some? ==> r.main == m && ForkHangsOff(bh, r.fork.value, base)
                                 && ForkHeaders(r.fork.value) == whole)
  {
    hide Links, Val;
    var whole := ForkHeaders(q.account);
    GrownIsCounted(bh, base, whole);
    if ForkSettled(bh, m, q).value.fork.None? {
      PromotionLoop(m, q.account, 0);
      assert whole[0..] == whole;
    } else {
      assert ForkHeaders(ForkSettled(bh, m, q).value.fork.value) == whole;
    }
  }
}
