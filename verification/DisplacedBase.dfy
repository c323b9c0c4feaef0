/** A run of five calls after which the ring does not represent the main chain: a fork is opened on a block, another
    branch replaces that block, and the fork is then promoted over it. */
module DisplacedBase {
  import opened Bytes
  import opened Results
  import opened Structs
  import opened Accounts
  import opened Relay
  import opened Chains
  import opened Ring
  import opened Loops
  import opened Promotion
  import Headers

  // ---------------------------------------------------------------- what the calls do

  /** Each header of the list is accepted on top of the one before. */
  ghost predicate AcceptedOnTop(bh: BlockHash, last: CommittedBlockHeader, list: Chain, now: u32)
    decreases |list|
  {
    list == [] || (Accepted(bh, last, last.blockheight, OfferOf(bh, list[0]), now) == Ok(list[0])
                   && list[0].blockheight == last.blockheight + 1 && AcceptedOnTop(bh, list[0], list[1..], now))
  }

  ghost function OfferOf(bh: BlockHash, c: CommittedBlockHeader): Offer {
    Offer(c.header, HeaderTopic(bh(c.header)))
  }

  ghost function HeadersOf(bh: BlockHash, list: Chain): (r: seq<Offer>)
    ensures |r| == |list|
  {
    if list == [] then [] else [OfferOf(bh, list[0])] + HeadersOf(bh, list[1..])
  }

  lemma FirstAccepted(bh: BlockHash, m: MainView, last: CommittedBlockHeader, list: Chain, now: u32)
    requires list != [] && AcceptedOnTop(bh, last, list, now) && StoredAll(m, list).Ok?
    ensures var stored := m.Stored(list[0].blockheight, CommitHash(list[0]));
            && stored.Ok?
            && AppendToMain(bh, Progress(m, last.blockheight, last), HeadersOf(bh, list), now)
               == AppendToMain(bh, Progress(stored.value, list[0].blockheight, list[0]), HeadersOf(bh, list[1..]), now)
  {
    hide Accepted;
    assert HeadersOf(bh, list)[1..] == HeadersOf(bh, list[1..]);
  }

  lemma {:induction false} MainAccepts(bh: BlockHash, m: MainView, last: CommittedBlockHeader, list: Chain, now: u32)
    requires AcceptedOnTop(bh, last, list, now) && StoredAll(m, list).Ok?
    ensures AppendToMain(bh, Progress(m, last.blockheight, last), HeadersOf(bh, list), now)
            == Ok(Progress(StoredAll(m, list).value, Last([last] + list).blockheight, Last([last] + list)))
    decreases |list|
  {
    hide Accepted;
    if list != [] {
      FirstAccepted(bh, m, last, list, now);
      hide AppendToMain, HeadersOf;
      MainAccepts(bh, m.Stored(list[0].blockheight, CommitHash(list[0])).value, list[0], list[1..], now);
      assert [list[0]] + list[1..] == list;
    }
  }

  /** A young ring: it starts where reads and a hundred more heights are possible. */
  ghost predicate LowRing(m: MainView) {
    PRUNING_FACTOR <= m.startHeight <= U32_MAX - 1000 && m.totalBlocks < 1000
  }

  lemma StoreLow(m: MainView, c: CommittedBlockHeader)
    requires LowRing(m) && m.totalBlocks < 900 && m.startHeight < c.blockheight < m.startHeight + 100
    ensures m.Stored(c.blockheight, CommitHash(c))
            == Ok(m.(blockCommitments := m.blockCommitments[c.blockheight - m.startHeight := CommitHash(c)],
                     totalBlocks := m.totalBlocks + 1))
  {}

  lemma ReadLow(m: MainView, height: u32)
    requires LowRing(m) && m.startHeight <= height <= m.blockHeight < m.startHeight + 100
    ensures m.CommitmentAt(height) == Ok(m.blockCommitments[height - m.startHeight])
  {}

  lemma AppendCall(bh: BlockHash, m: MainView, c: CommittedBlockHeader, list: Chain, now: u32)
    requires LowRing(m) && m.startHeight <= c.blockheight == m.blockHeight < m.startHeight + 50
    requires m.blockCommitments[c.blockheight - m.startHeight] == CommitHash(c)
    requires list != [] && AcceptedOnTop(bh, c, list, now) && StoredAll(m, list).Ok?
    ensures Appended(bh, m, |list|, HeadersOf(bh, list), c, now)
            == Ok(WithTip(bh, StoredAll(m, list).value, Last(list).blockheight, Last(list)))
  {
    hide Accepted, AppendToMain, AcceptedOnTop, HeadersOf, StoredAll, Val;
    ReadLow(m, c.blockheight);
    MainAccepts(bh, m, c, list, now);
    assert Last([c] + list) == Last(list);
  }

  lemma ShortForkCall(bh: BlockHash, m: MainView, c: CommittedBlockHeader, list: Chain, now: u32)
    requires LowRing(m) && m.startHeight <= c.blockheight <= m.blockHeight < m.startHeight + 50 && m.forkCounter < 1000
    requires m.blockCommitments[c.blockheight - m.startHeight] == CommitHash(c)
    requires list != [] && AcceptedOnTop(bh, c, list, now) && StoredAll(m, list).Ok?
    requires Val(Last(list).chainWork) > Val(m.chainWork)
    ensures ShortForked(bh, m, |list|, HeadersOf(bh, list), c, now)
            == Ok(WithTip(bh, StoredAll(m, list).value, Last(list).blockheight, Last(list))
                  .(forkCounter := m.forkCounter + 1))
  {
    hide Accepted, AppendToMain, AcceptedOnTop, HeadersOf, StoredAll, Val;
    ReadLow(m, c.blockheight);
    MainAccepts(bh, m, c, list, now);
    assert Last([c] + list) == Last(list);
  }

  /** Opening a fork with one header that does not outweigh the main chain. */
  lemma OpenForkCall(bh: BlockHash, m: MainView, c: CommittedBlockHeader, f: CommittedBlockHeader, now: u32)
    requires LowRing(m) && m.startHeight <= c.blockheight <= m.blockHeight < m.startHeight + 50 && m.forkCounter == 0
    requires m.blockCommitments[c.blockheight - m.startHeight] == CommitHash(c)
    requires AcceptedOnTop(bh, c, [f], now) && Val(f.chainWork) <= Val(m.chainWork)
    ensures LongForked(bh, m, None, 1, [OfferOf(bh, f)], c, 0, true, now)
            == Ok(Forked(m.(forkCounter := 1), Some(ForkView(1, c.blockheight, 1, CommitHash(f), bh(f.header),
                                                             EmptyFork().blockCommitments[0 := CommitHash(f)]))))
  {
    hide Accepted;
    ReadLow(m.(forkCounter := 1), c.blockheight);
    var f0 := EmptyFork().(initialized := 1, startHeight := c.blockheight);
    assert [OfferOf(bh, f)][1..] == [];
    assert f0.Stored(CommitHash(f))
        == Ok(f0.(blockCommitments := f0.blockCommitments[0 := CommitHash(f)], length := 1));
    assert AppendToFork(bh, Progress(f0, c.blockheight, c), [OfferOf(bh, f)], now)
        == Ok(Progress(f0.Stored(CommitHash(f)).value, f.blockheight, f));
  }

  /** Extending that fork by two headers that do outweigh it. */
  lemma PromoteCall(bh: BlockHash, m: MainView, fork: ForkView, f2: CommittedBlockHeader, f3: CommittedBlockHeader,
                    f4: CommittedBlockHeader, now: u32)
    requires LowRing(m) && fork.initialized == 1 && fork.length == 1
    requires m.startHeight <= fork.startHeight < m.startHeight + 50
    requires fork.tipCommitHash == CommitHash(f2) == fork.blockCommitments[0] && f2.blockheight == fork.startHeight + 1
    requires AcceptedOnTop(bh, f2, [f3, f4], now) && Val(f4.chainWork) > Val(m.chainWork)
    requires StoredAll(m, [f2, f3, f4]).Ok?
    ensures LongForked(bh, m, Some(fork), 2, [OfferOf(bh, f3), OfferOf(bh, f4)], f2, 0, false, now)
            == Ok(Forked(WithTip(bh, StoredAll(m, [f2, f3, f4]).value, f4.blockheight, f4), None))
  {
    hide Accepted;
    var g3 := fork.Stored(CommitHash(f3)).value;
    var g4 := g3.Stored(CommitHash(f4)).value;
    assert [f3, f4][1..] == [f4] && [f4][1..] == [];
    assert [OfferOf(bh, f3), OfferOf(bh, f4)][1..] == [OfferOf(bh, f4)] && [OfferOf(bh, f4)][1..] == [];
    assert AppendToFork(bh, Progress(g3, f3.blockheight, f3), [OfferOf(bh, f4)], now)
        == Ok(Progress(g4, f4.blockheight, f4));
    assert AppendToFork(bh, Progress(fork, f2.blockheight, f2), [OfferOf(bh, f3), OfferOf(bh, f4)], now)
        == Ok(Progress(g4, f4.blockheight, f4));
    assert ForkHeaders(g4) == [f2, f3, f4];
    PromotesThree(m, g4, f2, f3, f4);
  }

  lemma PromotesThree(m: MainView, g: ForkView, f2: CommittedBlockHeader, f3: CommittedBlockHeader,
                      f4: CommittedBlockHeader)
    requires g.length == 3 && Filled(g) && ForkHeaders(g) == [f2, f3, f4] && g.startHeight <= U32_MAX - 10
    requires f2.blockheight == g.startHeight + 1 && f3.blockheight == g.startHeight + 2
    requires f4.blockheight == g.startHeight + 3
    requires StoredAll(m, [f2, f3, f4]).Ok?
    ensures Promoted(m, g, 0) == StoredAll(m, [f2, f3, f4])
  {
    assert HeaderIn(g, 0) == ForkHeaders(g)[0] == f2 && HeaderIn(g, 1) == ForkHeaders(g)[1] == f3;
    assert HeaderIn(g, 2) == ForkHeaders(g)[2] == f4;
    assert [f2, f3, f4][1..] == [f3, f4] && [f3, f4][1..] == [f4] && [f4][1..] == [];
    var m2 := m.Stored(f2.blockheight, CommitHash(f2)).value;
    assert StoredAll(m2, [f3, f4]).Ok?;
    var m3 := m2.Stored(f3.blockheight, CommitHash(f3)).value;
    assert StoredAll(m3, [f4]).Ok?;
    var m4 := m3.Stored(f4.blockheight, CommitHash(f4)).value;
    assert Promoted(m3, g, 2) == Ok(m4) && StoredAll(m3, [f4]) == Ok(m4);
    assert Promoted(m2, g, 1) == Ok(m4) && StoredAll(m2, [f3, f4]) == Ok(m4);
  }

  // ---------------------------------------------------------------- the run

  /** The slots of a low ring after storing one or three headers. */
  lemma StoreOne(m: MainView, a: CommittedBlockHeader)
    requires LowRing(m) && m.totalBlocks < 900 && m.startHeight < a.blockheight < m.startHeight + 100
    ensures StoredAll(m, [a])
            == Ok(m.(blockCommitments := m.blockCommitments[a.blockheight - m.startHeight := CommitHash(a)],
                     totalBlocks := m.totalBlocks + 1))
  {
    StoreLow(m, a);
    assert [a][1..] == [];
  }

  lemma StoreThree(m: MainView, a: CommittedBlockHeader, b: CommittedBlockHeader, c: CommittedBlockHeader)
    requires LowRing(m) && m.totalBlocks < 800
    requires m.startHeight < a.blockheight < m.startHeight + 90
    requires b.blockheight == a.blockheight + 1 && c.blockheight == a.blockheight + 2
    ensures StoredAll(m, [a, b, c]).Ok?
    ensures var m' := StoredAll(m, [a, b, c]).value;
            m' == m.(blockCommitments := m.blockCommitments[a.blockheight - m.startHeight := CommitHash(a)]
                                          [b.blockheight - m.startHeight := CommitHash(b)]
                                          [c.blockheight - m.startHeight := CommitHash(c)],
                     totalBlocks := m.totalBlocks + 3)
  {
    assert [a, b, c][1..] == [b, c] && [b, c][1..] == [c];
    StoreLow(m, a);
    var m1 := m.Stored(a.blockheight, CommitHash(a)).value;
    StoreLow(m1, b);
    StoreOne(m1.Stored(b.blockheight, CommitHash(b)).value, c);
  }

  /** The nine headers: the initial one, two appended, three of the fork, three of the branch that displaces its
      base. */
  datatype Nine = Nine(g: CommittedBlockHeader, a1: CommittedBlockHeader, a2: CommittedBlockHeader,
                       f2: CommittedBlockHeader, f3: CommittedBlockHeader, f4: CommittedBlockHeader,
                       b1: CommittedBlockHeader, b2: CommittedBlockHeader, b3: CommittedBlockHeader)
  {
    /** a1 a2 and b1 b2 b3 grow on g, the fork on a1; the fork starts light, then b outweighs a, then the fork b. */
    ghost predicate Displaces(bh: BlockHash, now: u32) {
      && PRUNING_FACTOR <= g.blockheight <= U32_MAX - 1000
      && AcceptedOnTop(bh, g, [a1, a2], now)
      && AcceptedOnTop(bh, a1, [f2, f3, f4], now)
      && AcceptedOnTop(bh, g, [b1, b2, b3], now)
      && Val(f2.chainWork) <= Val(a2.chainWork) < Val(b3.chainWork) < Val(f4.chainWork)
      && a1 != b1
    }
  }

  lemma OnTopParts(bh: BlockHash, last: CommittedBlockHeader, list: Chain, now: u32, n: nat)
    requires AcceptedOnTop(bh, last, list, now) && 0 < n < |list|
    ensures AcceptedOnTop(bh, last, list[..n], now) && AcceptedOnTop(bh, list[n - 1], list[n..], now)
    decreases n
  {
    hide Accepted;
    assert list[..n][1..] == list[1..][..n - 1] && list[1..][n - 1..] == list[n..];
    if n > 1 {
      OnTopParts(bh, list[0], list[1..], now, n - 1);
    } else {
      assert list[..n][1..] == [];
    }
  }

  lemma {:induction false} OnTopHeights(bh: BlockHash, last: CommittedBlockHeader, list: Chain, now: u32)
    requires AcceptedOnTop(bh, last, list, now)
    ensures ValidChain(bh, [last] + list)
    ensures CountedFrom(last.blockheight, list)
    decreases |list|
  {
    if list != [] {
      AcceptedLinks(bh, last, OfferOf(bh, list[0]), now);
      hide Accepted, Links;
      OnTopHeights(bh, list[0], list[1..], now);
      assert list == [list[0]] + list[1..];
      ConsChain(bh, last, list[0], list[1..]);
      GrownIsCounted(bh, last, list);
    }
  }

  /** The main account through the five calls. */
  lemma FiveCalls(bh: BlockHash, n: Nine, now: u32)
    returns (m1: MainView, m2: MainView, fork: ForkView, m4: MainView, m5: MainView)
    requires n.Displaces(bh, now)
    ensures Appended(bh, InitialMain(bh, n.g), 1, HeadersOf(bh, [n.a1]), n.g, now) == Ok(m1)
    ensures Appended(bh, m1, 1, HeadersOf(bh, [n.a2]), n.a1, now) == Ok(m2)
    ensures LongForked(bh, m2, None, 1, [OfferOf(bh, n.f2)], n.a1, 0, true, now)
            == Ok(Forked(m2.(forkCounter := 1), Some(fork)))
    ensures ShortForked(bh, m2.(forkCounter := 1), 3, HeadersOf(bh, [n.b1, n.b2, n.b3]), n.g, now) == Ok(m4)
    ensures LongForked(bh, m4, Some(fork), 2, [OfferOf(bh, n.f3), OfferOf(bh, n.f4)], n.f2, 0, false, now)
            == Ok(Forked(m5, None))
    ensures m5.blockHeight == n.f4.blockheight && m5.tipCommitHash == CommitHash(n.f4)
    ensures LowRing(m5) && m5.startHeight == n.g.blockheight && m5.blockCommitments[1] == CommitHash(n.b1)
  {
    hide Accepted, Appended, ShortForked, LongForked, Val;
    var m0 := InitialMain(bh, n.g);
    NineHeights(bh, n, now);
    NineOnTop(bh, n, now);
    hide AcceptedOnTop;
    StoreOne(m0, n.a1);
    AppendCall(bh, m0, n.g, [n.a1], now);
    m1 := WithTip(bh, StoredAll(m0, [n.a1]).value, n.a1.blockheight, n.a1);
    StoreOne(m1, n.a2);
    AppendCall(bh, m1, n.a1, [n.a2], now);
    m2 := WithTip(bh, StoredAll(m1, [n.a2]).value, n.a2.blockheight, n.a2);
    OpenForkCall(bh, m2, n.a1, n.f2, now);
    fork := ForkView(1, n.a1.blockheight, 1, CommitHash(n.f2), bh(n.f2.header),
                     EmptyFork().blockCommitments[0 := CommitHash(n.f2)]);
    var m3 := m2.(forkCounter := 1);
    StoreThree(m3, n.b1, n.b2, n.b3);
    ShortForkCall(bh, m3, n.g, [n.b1, n.b2, n.b3], now);
    m4 := WithTip(bh, StoredAll(m3, [n.b1, n.b2, n.b3]).value, n.b3.blockheight, n.b3).(forkCounter := 2);
    StoreThree(m4, n.f2, n.f3, n.f4);
    PromoteCall(bh, m4, fork, n.f2, n.f3, n.f4, now);
    m5 := WithTip(bh, StoredAll(m4, [n.f2, n.f3, n.f4]).value, n.f4.blockheight, n.f4);
  }

  lemma NineHeights(bh: BlockHash, n: Nine, now: u32)
    requires n.Displaces(bh, now)
    ensures var h := n.g.blockheight;
            && n.a1.blockheight == h + 1 && n.a2.blockheight == h + 2
            && n.f2.blockheight == h + 2 && n.f3.blockheight == h + 3 && n.f4.blockheight == h + 4
            && n.b1.blockheight == h + 1 && n.b2.blockheight == h + 2 && n.b3.blockheight == h + 3
  {
    hide AcceptedOnTop, Val;
    var a, f, b := [n.a1, n.a2], [n.f2, n.f3, n.f4], [n.b1, n.b2, n.b3];
    OnTopHeights(bh, n.g, a, now);
    OnTopHeights(bh, n.a1, f, now);
    OnTopHeights(bh, n.g, b, now);
    assert a[0] == n.a1 && a[1] == n.a2 && b[0] == n.b1 && b[1] == n.b2 && b[2] == n.b3;
    assert f[0] == n.f2 && f[1] == n.f3 && f[2] == n.f4;
  }

  /** The stretches each call submits. */
  lemma NineOnTop(bh: BlockHash, n: Nine, now: u32)
    requires n.Displaces(bh, now)
    ensures AcceptedOnTop(bh, n.g, [n.a1], now) && AcceptedOnTop(bh, n.a1, [n.a2], now)
    ensures AcceptedOnTop(bh, n.a1, [n.f2], now) && AcceptedOnTop(bh, n.f2, [n.f3, n.f4], now)
  {
    hide AcceptedOnTop, Val;
    var a, f := [n.a1, n.a2], [n.f2, n.f3, n.f4];
    OnTopParts(bh, n.g, a, now, 1);
    OnTopParts(bh, n.a1, f, now, 1);
    assert a[..1] == [n.a1] && a[1..] == [n.a2] && f[..1] == [n.f2] && f[1..] == [n.f3, n.f4];
  }

  /** Whatever the block hash: five calls that submit such headers are accepted, and after them a header that is not
      on the main chain passes the commitment check at its height. */
  lemma RunThatBreaksTheRing(env: Env, n: Nine, now: u32, signer: Pubkey, lamports: Lamports)
    returns (calls: seq<Call>, chain: Chain)
    requires n.Displaces(env.blockHash, now)
    ensures |calls| == 5
    ensures var m := Run(env, InitialState(env, n.g, lamports), calls).main;
            && chain == [n.g, n.a1, n.f2, n.f3, n.f4] && ValidChain(env.blockHash, chain)
            && m.tipCommitHash == CommitHash(Last(chain)) && m.blockHeight == Last(chain).blockheight
            && !OnChain(chain, n.b1) && m.CommitmentAt(n.b1.blockheight) == Ok(CommitHash(n.b1))
            && !Faithful(m, chain, m.blockHeight)
  {
    hide Accepted, Links, Appended, ShortForked, LongForked, Faithful, OnChain, Run, Val;
    var bh := env.blockHash;
    var m1, m2, fork, m4, m5 := FiveCalls(bh, n, now);
    calls := [
      Call(SubmitBlockHeaders(1, HeadersOf(bh, [n.a1]), n.g), now),
      Call(SubmitBlockHeaders(1, HeadersOf(bh, [n.a2]), n.a1), now),
      Call(SubmitForkHeaders(signer, 1, [OfferOf(bh, n.f2)], n.a1, 0, true), now),
      Call(SubmitShortForkHeaders(3, HeadersOf(bh, [n.b1, n.b2, n.b3]), n.g), now),
      Call(SubmitForkHeaders(signer, 2, [OfferOf(bh, n.f3), OfferOf(bh, n.f4)], n.f2, 0, false), now)];
    RunsThrough(env, n.g, lamports, signer, calls, now, m1, m2, fork, m4, m5);
    NineHeights(bh, n, now);
    chain := [n.g, n.a1] + [n.f2, n.f3, n.f4];
    NineChain(bh, n, now);
    ReadLow(m5, n.b1.blockheight);
    NotFaithful(m5, chain, n.b1);
  }

  lemma NineChain(bh: BlockHash, n: Nine, now: u32)
    requires n.Displaces(bh, now)
    ensures ValidChain(bh, [n.g, n.a1] + [n.f2, n.f3, n.f4])
  {
    hide Links, Val, AcceptedOnTop;
    OnTopHeights(bh, n.g, [n.a1, n.a2], now);
    OnTopHeights(bh, n.a1, [n.f2, n.f3, n.f4], now);
    ChainPrefix(bh, [n.g] + [n.a1, n.a2], 2);
    assert ([n.g] + [n.a1, n.a2])[..2] == [n.g, n.a1];
    ChainConcat(bh, [n.g, n.a1], [n.f2, n.f3, n.f4]);
  }

  lemma NotFaithful(m: MainView, chain: Chain, c: CommittedBlockHeader)
    requires |chain| > 1 && c.blockheight == chain[0].blockheight + 1 && chain[1] != c
    requires m.CommitmentAt(c.blockheight) == Ok(CommitHash(c))
    ensures !OnChain(chain, c) && !Faithful(m, chain, m.blockHeight)
  {}

  lemma RunsThrough(env: Env, g: CommittedBlockHeader, lamports: Lamports, signer: Pubkey, calls: seq<Call>, now: u32,
                    m1: MainView, m2: MainView, fork: ForkView, m4: MainView, m5: MainView)
    requires |calls| == 5 && forall i :: 0 <= i < 5 ==> calls[i].now == now
    requires calls[0].ix.SubmitBlockHeaders? && calls[1].ix.SubmitBlockHeaders? && calls[3].ix.SubmitShortForkHeaders?
    requires calls[2].ix.SubmitForkHeaders? && calls[2].ix.signer == signer
    requires calls[2].ix.forkId == 0 && calls[2].ix.init
    requires calls[4].ix.SubmitForkHeaders? && calls[4].ix.signer == signer
    requires calls[4].ix.forkId == 0 && !calls[4].ix.init
    requires var ix := calls[0].ix;
             Appended(env.blockHash, InitialMain(env.blockHash, g), ix.accounts, ix.headers, ix.committed, now)
             == Ok(m1)
    requires var ix := calls[1].ix; Appended(env.blockHash, m1, ix.accounts, ix.headers, ix.committed, now) == Ok(m2)
    requires var ix := calls[2].ix;
             LongForked(env.blockHash, m2, None, ix.accounts, ix.headers, ix.committed, 0, true, now)
             == Ok(Forked(m2.(forkCounter := 1), Some(fork)))
    requires var ix := calls[3].ix;
             ShortForked(env.blockHash, m2.(forkCounter := 1), ix.accounts, ix.headers, ix.committed, now)
             == Ok(m4)
    requires var ix := calls[4].ix;
             LongForked(env.blockHash, m4, Some(fork), ix.accounts, ix.headers, ix.committed, 0, false, now)
             == Ok(Forked(m5, None))
    ensures Run(env, InitialState(env, g, lamports), calls).main == m5
  {
    hide Appended, ShortForked, LongForked;
    var s0 := InitialState(env, g, lamports);
    var s1, s2 := s0.(main := m1), s0.(main := m2);
    var s3 := s0.(main := m2.(forkCounter := 1), forks := map[ForkKey(0, signer) := fork]);
    assert Step(env, s0, calls[0]) == s1 && Step(env, s1, calls[1]) == s2;
    assert Step(env, s2, calls[2]) == s3;
    assert Step(env, s3, calls[3]) == s3.(main := m4);
    assert Step(env, s3.(main := m4), calls[4]).main == m5;
    RunOfFive(env, s0, calls);
  }

  lemma RunOfFive(env: Env, s: State, calls: seq<Call>)
    requires |calls| == 5
    ensures Run(env, s, calls)
         == Step(env, Step(env, Step(env, Step(env, Step(env, s, calls[0]), calls[1]), calls[2]), calls[3]), calls[4])
  {
    hide Step;
    assert calls[..4][..3] == calls[..3] && calls[..3][..2] == calls[..2];
    assert calls[..2][..1] == calls[..1] && calls[..1][..0] == [];
    assert Run(env, s, calls[..1]) == Step(env, s, calls[0]);
    assert Run(env, s, calls[..2]) == Step(env, Run(env, s, calls[..1]), calls[1]);
    assert Run(env, s, calls[..3]) == Step(env, Run(env, s, calls[..2]), calls[2]);
    assert Run(env, s, calls[..4]) == Step(env, Run(env, s, calls[..3]), calls[3]);
  }
}
