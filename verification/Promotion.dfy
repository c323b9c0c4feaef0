/** Exactly when promoting a long fork leaves the ring faithful. The program checks a fork's base only when the
    fork is opened; if another branch has since replaced it, the ring keeps that branch below the fork. */
module Promotion {
  import opened Bytes
  import opened Results
  import opened Structs
  import opened Accounts
  import opened Relay
  import opened Chains
  import opened Ring
  import opened Loops
  import opened Refinement
  import opened Runs

  /** Whoever passes the commitment check is on the chain, and whoever is on it in the ring's range passes. */
  ghost predicate Faithful(m: MainView, chain: Chain, highWater: nat)
    requires chain != []
  {
    && (forall c: CommittedBlockHeader :: m.CommitmentAt(c.blockheight) == Ok(CommitHash(c)) ==> OnChain(chain, c))
    && (forall c: CommittedBlockHeader :: OnChain(chain, c) && c.blockheight > highWater - 250
          ==> m.CommitmentAt(c.blockheight) == Ok(CommitHash(c)))
  }

  // ---------------------------------------------------------------- what the stores overwrite

  /** After k stores above height f: stored heights in range read back, lower ones in range are untouched, and
      no slot holds anything else. */
  ghost predicate Overlaid(old0: MainView, m: MainView, highWater: nat, f: nat, whole: Chain, k: nat) {
    var hw := MaxOf(highWater, f + k);
    && k <= |whole|
    && m.startHeight <= hw < m.startHeight + 250
    && (forall i :: 0 <= i < k && whole[i].blockheight > hw - 250 ==> Reads(m, whole[i]))
    && (forall h: u32 :: hw - 250 < h <= f ==> SameSlot(old0, m, h))
    && (forall p :: 0 <= p < 250 ==>
         m.blockCommitments[p] == old0.blockCommitments[p] || FromList(m.blockCommitments[p], whole))
  }

  ghost predicate SameSlot(m: MainView, m': MainView, h: u32) {
    var pos := Position(m.startHeight, h);
    pos < 250 && pos == Position(m'.startHeight, h) && m'.blockCommitments[pos] == m.blockCommitments[pos]
  }

  ghost predicate FromList(c: Commitment, whole: Chain) {
    exists i :: 0 <= i < |whole| && c == CommitHash(whole[i])
  }

  lemma OverlayStep(old0: MainView, m: MainView, highWater: nat, f: nat, whole: Chain, k: nat, m': MainView)
    requires Overlaid(old0, m, highWater, f, whole, k) && k < |whole| && f <= highWater <= U32_MAX
    requires CountedFrom(f, whole)
    requires m.Stored(whole[k].blockheight, CommitHash(whole[k])) == Ok(m')
    ensures Overlaid(old0, m', highWater, f, whole, k + 1)
  {
    var h0, pos := whole[k].blockheight, Position(m.startHeight, whole[k].blockheight);
    var hw := MaxOf(highWater, f + k + 1);
    assert FromList(CommitHash(whole[k]), whole);
    forall i | 0 <= i < k + 1 && whole[i].blockheight > hw - 250
      ensures Reads(m', whole[i])
    {
      if i < k {
        assert whole[i].blockheight == f + 1 + i;
        assert Reads(m, whole[i]);
      }
    }
    forall h: u32 | hw - 250 < h <= f
      ensures SameSlot(old0, m', h)
    {
      assert SameSlot(old0, m, h);
    }
  }

  lemma {:induction false} OverlayAll(old0: MainView, m: MainView, highWater: nat, f: nat, whole: Chain, k: nat)
    requires Overlaid(old0, m, highWater, f, whole, k) && f <= highWater <= U32_MAX
    requires CountedFrom(f, whole) && StoredAll(m, whole[k..]).Ok?
    ensures Overlaid(old0, StoredAll(m, whole[k..]).value, highWater, f, whole, |whole|)
    decreases |whole| - k
  {
    if k < |whole| {
      assert whole[k..][0] == whole[k] && whole[k..][1..] == whole[k + 1..];
      var m' := m.Stored(whole[k].blockheight, CommitHash(whole[k])).value;
      OverlayStep(old0, m, highWater, f, whole, k, m');
      OverlayAll(old0, m', highWater, f, whole, k + 1);
    }
  }

  /** Moving the tip leaves the overlay as it is. */
  lemma OverlayOfTip(old0: MainView, m: MainView, m': MainView, highWater: nat, f: nat, whole: Chain)
    requires Overlaid(old0, m, highWater, f, whole, |whole|)
    requires m'.startHeight == m.startHeight && m'.blockCommitments == m.blockCommitments
    ensures Overlaid(old0, m', highWater, f, whole, |whole|)
  {
    forall h: u32 | MaxOf(highWater, f + |whole|) - 250 < h <= f
      ensures SameSlot(old0, m', h)
    {
      assert SameSlot(old0, m, h);
    }
    forall i | 0 <= i < |whole| && whole[i].blockheight > MaxOf(highWater, f + |whole|) - 250
      ensures Reads(m', whole[i])
    {
      assert Reads(m, whole[i]);
    }
  }

  // ---------------------------------------------------------------- both directions

  /** A header left in its slot has a height in the old ring's range. */
  lemma LeftInSlot(m: MainView, chain: Chain, highWater: nat, pos: nat, c: CommittedBlockHeader)
    requires RingHolds(m, chain, highWater) && pos < 250 && m.blockCommitments[pos] == CommitHash(c)
    ensures chain[0].blockheight <= c.blockheight && highWater - 250 < c.blockheight <= highWater
    ensures Position(m.startHeight, c.blockheight) == pos
  {
    assert SlotHolds(m.blockCommitments[pos], HeightAt(m.startHeight, highWater, pos), chain, highWater - 250);
  }

  /** Stored heights in range read back from the list. */
  lemma StoredReadsBack(old0: MainView, m: MainView, highWater: nat, f: nat, whole: Chain, h: u32)
    requires Overlaid(old0, m, highWater, f, whole, |whole|) && CountedFrom(f, whole)
    requires f < h <= f + |whole| && h > MaxOf(highWater, f + |whole|) - 250
    ensures Position(m.startHeight, h) < 250 && FromList(m.blockCommitments[Position(m.startHeight, h)], whole)
  {
    var i := h - f - 1;
    assert whole[i].blockheight == f + 1 + i;
    assert Reads(m, whole[i]);
  }

  /** Under the missing check, whatever passes afterwards is on the fork's chain. */
  lemma PassingIsOnChain(m: MainView, chain: Chain, highWater: nat, ancestry: Chain, whole: Chain, m': MainView,
                         c: CommittedBlockHeader)
    requires RingHolds(m, chain, highWater)
    requires Counted(ancestry + whole) && ancestry != [] && ancestry[0].blockheight == chain[0].blockheight
    requires whole != [] && Last(ancestry).blockheight <= highWater
    requires m'.blockHeight == Last(whole).blockheight
    requires Overlaid(m, m', highWater, Last(ancestry).blockheight, whole, |whole|)
    requires AncestryCommitted(m, ancestry, MaxOf(highWater, m'.blockHeight))
    requires m'.CommitmentAt(c.blockheight) == Ok(CommitHash(c))
    ensures OnChain(ancestry + whole, c)
  {
    var n, f, hw := ancestry + whole, Last(ancestry).blockheight, MaxOf(highWater, m'.blockHeight);
    var pos, h := Position(m'.startHeight, c.blockheight), c.blockheight;
    WholeIsCounted(ancestry, whole);
    if f < h && h > hw - 250 {
      StoredReadsBack(m, m', highWater, f, whole, h);
    }
    if FromList(m'.blockCommitments[pos], whole) {
      var i :| 0 <= i < |whole| && m'.blockCommitments[pos] == CommitHash(whole[i]);
      assert n[|ancestry| + i] == c;
    } else {
      LeftInSlot(m, chain, highWater, pos, c);
      var index := h - n[0].blockheight;
      assert 0 <= index < |ancestry|;
      assert n[index] == ancestry[index] && Reads(m, ancestry[index]);
      assert SameSlot(m, m', h);
    }
  }

  lemma WholeIsCounted(ancestry: Chain, whole: Chain)
    requires Counted(ancestry + whole) && ancestry != [] && whole != []
    ensures CountedFrom(Last(ancestry).blockheight, whole)
    ensures Last(ancestry).blockheight == ancestry[0].blockheight + |ancestry| - 1
    ensures Last(whole).blockheight == Last(ancestry).blockheight + |whole|
    ensures Counted(ancestry)
  {
    var n := ancestry + whole;
    assert n[|ancestry| - 1] == Last(ancestry);
    forall i | 0 <= i < |whole|
      ensures whole[i].blockheight == Last(ancestry).blockheight + 1 + i
    {
      assert n[|ancestry| + i] == whole[i];
    }
    forall i | 0 <= i < |ancestry|
      ensures ancestry[i].blockheight == ancestry[0].blockheight + i
    {
      assert n[i] == ancestry[i];
    }
  }

  /** Under the missing check, the fork's chain in range passes afterwards. */
  lemma OnChainPasses(m: MainView, highWater: nat, ancestry: Chain, whole: Chain, m': MainView, c: CommittedBlockHeader)
    requires Counted(ancestry + whole) && ancestry != [] && whole != []
    requires m'.blockHeight == Last(whole).blockheight >= PRUNING_FACTOR
    requires Overlaid(m, m', highWater, Last(ancestry).blockheight, whole, |whole|)
    requires AncestryCommitted(m, ancestry, MaxOf(highWater, m'.blockHeight))
    requires OnChain(ancestry + whole, c) && c.blockheight > MaxOf(highWater, m'.blockHeight) - 250
    ensures m'.CommitmentAt(c.blockheight) == Ok(CommitHash(c))
  {
    var n := ancestry + whole;
    var index := c.blockheight - n[0].blockheight;
    assert Last(n) == Last(whole);
    assert n[|ancestry| - 1] == Last(ancestry);
    if index < |ancestry| {
      assert n[index] == ancestry[index] && Reads(m, ancestry[index]);
      assert SameSlot(m, m', c.blockheight);
    } else {
      assert n[index] == whole[index - |ancestry|] && Reads(m', c);
    }
  }

  lemma ReadsInSameSlot(m: MainView, m': MainView, c: CommittedBlockHeader)
    requires SameSlot(m, m', c.blockheight) && m'.CommitmentAt(c.blockheight) == Ok(CommitHash(c))
    ensures Reads(m, c)
  {}

  /** If the fork's chain in range passes afterwards, its ancestors were what the ring held before. */
  lemma PassingNeedsAncestry(m: MainView, highWater: nat, ancestry: Chain, whole: Chain, m': MainView)
    requires Counted(ancestry + whole) && ancestry != [] && whole != []
    requires m'.blockHeight == Last(whole).blockheight
    requires Overlaid(m, m', highWater, Last(ancestry).blockheight, whole, |whole|)
    requires Faithful(m', ancestry + whole, MaxOf(highWater, m'.blockHeight))
    ensures AncestryCommitted(m, ancestry, MaxOf(highWater, m'.blockHeight))
  {
    hide Overlaid, Faithful;
    var hw: int := MaxOf(highWater, m'.blockHeight);
    forall i | 0 <= i < |ancestry| && ancestry[i].blockheight > hw - 250
      ensures Reads(m, ancestry[i])
    {
      AncestorPasses(ancestry, whole, m', hw, i);
      AncestorStays(m, highWater, ancestry, whole, m', i);
      ReadsInSameSlot(m, m', ancestry[i]);
    }
  }

  lemma AncestorPasses(ancestry: Chain, whole: Chain, m': MainView, highWater: nat, i: nat)
    requires Counted(ancestry + whole) && ancestry != [] && i < |ancestry|
    requires Faithful(m', ancestry + whole, highWater) && ancestry[i].blockheight > highWater - 250
    ensures m'.CommitmentAt(ancestry[i].blockheight) == Ok(CommitHash(ancestry[i]))
  {
    hide MainView.CommitmentAt, Position;
    var c := ancestry[i];
    assert (ancestry + whole)[i] == c && OnChain(ancestry + whole, c);
  }

  lemma AncestorStays(m: MainView, highWater: nat, ancestry: Chain, whole: Chain, m': MainView, i: nat)
    requires Counted(ancestry + whole) && i < |ancestry| && whole != []
    requires m'.blockHeight == Last(whole).blockheight
    requires Overlaid(m, m', highWater, Last(ancestry).blockheight, whole, |whole|)
    requires ancestry[i].blockheight > MaxOf(highWater, m'.blockHeight) - 250
    ensures SameSlot(m, m', ancestry[i].blockheight)
  {
    WholeIsCounted(ancestry, whole);
    assert ancestry[i].blockheight <= Last(ancestry).blockheight;
  }

  /** Below height 250 every read of a chain header panics. */
  lemma LowTip(m: MainView, highWater: nat, ancestry: Chain, whole: Chain, m': MainView)
    requires Counted(ancestry + whole) && ancestry != [] && whole != []
    requires m'.blockHeight == Last(whole).blockheight < PRUNING_FACTOR
    ensures var hw := MaxOf(highWater, m'.blockHeight);
            Faithful(m', ancestry + whole, hw)
            <==> AncestryCommitted(m, ancestry, hw) && m'.blockHeight <= hw - 250
  {
    var n, hw := ancestry + whole, MaxOf(highWater, m'.blockHeight);
    WholeIsCounted(ancestry, whole);
    assert Last(n) == Last(whole) && OnChain(n, Last(n));
    if m'.blockHeight + 250 <= hw {
      forall c: CommittedBlockHeader | OnChain(n, c)
        ensures c.blockheight <= hw - 250
      {
        assert n[c.blockheight - n[0].blockheight] == c;
      }
    }
  }

  /** The promotion of a call, as stores over the old ring. */
  lemma PromotionOverlays(bh: BlockHash, m: MainView, chain: Chain, highWater: nat, ancestry: Chain,
                          q: Progress<ForkView>)
    requires RingHolds(m, chain, highWater)
    requires ValidChain(bh, ancestry) && Last(ancestry).blockheight <= highWater
    requires HangsOff(bh, q, Last(ancestry))
    requires ForkSettled(bh, m, q).Ok? && ForkSettled(bh, m, q).value.fork.None?
    ensures var whole, m' := ForkHeaders(q.account), ForkSettled(bh, m, q).value.main;
            && Counted(ancestry + whole) && whole != []
            && m'.blockHeight == Last(whole).blockheight == q.height
            && Overlaid(m, m', highWater, Last(ancestry).blockheight, whole, |whole|)
  {
    var whole, base := ForkHeaders(q.account), Last(ancestry);
    SettledParts(bh, m, q, base);
    assert whole[0..] == whole;
    OverlayAll(m, m, highWater, base.blockheight, whole, 0);
    var stored := StoredAll(m, whole).value;
    OverlayOfTip(m, stored, ForkSettled(bh, m, q).value.main, highWater, base.blockheight, whole);
    ChainConcat(bh, ancestry, whole);
    ValidIsCounted(bh, ancestry + whole);
  }

  /** Promoting a fork onto a faithful ring: the ring is then faithful to the fork's own chain if and only if the
      ring held, before the call, the fork's ancestors that stay within its range. (A tip below height 250 can
      not be read at all.) */
  lemma PromotionFaithfulExactly(bh: BlockHash, m: MainView, chain: Chain, highWater: nat, ancestry: Chain,
                                 q: Progress<ForkView>)
    requires RingHolds(m, chain, highWater)
    requires ValidChain(bh, ancestry) && ancestry[0] == chain[0] && Last(ancestry).blockheight <= highWater
    requires HangsOff(bh, q, Last(ancestry))
    requires ForkSettled(bh, m, q).Ok? && ForkSettled(bh, m, q).value.fork.None?
    ensures var hw := MaxOf(highWater, q.height);
            Faithful(ForkSettled(bh, m, q).value.main, ancestry + ForkHeaders(q.account), hw)
            <==> AncestryCommitted(m, ancestry, hw) && (q.height >= PRUNING_FACTOR || q.height <= hw - 250)
  {
    var whole, hw := ForkHeaders(q.account), MaxOf(highWater, q.height);
    var n, m' := ancestry + whole, ForkSettled(bh, m, q).value.main;
    PromotionOverlays(bh, m, chain, highWater, ancestry, q);
    hide ForkSettled, HangsOff, RingHolds, ValidChain;
    assert Last(n) == Last(whole);
    if q.height < PRUNING_FACTOR {
      LowTip(m, highWater, ancestry, whole, m');
    } else if AncestryCommitted(m, ancestry, hw) {
      forall c: CommittedBlockHeader | m'.CommitmentAt(c.blockheight) == Ok(CommitHash(c))
        ensures OnChain(n, c)
      {
        PassingIsOnChain(m, chain, highWater, ancestry, whole, m', c);
      }
      forall c: CommittedBlockHeader | OnChain(n, c) && c.blockheight > hw - 250
        ensures m'.CommitmentAt(c.blockheight) == Ok(CommitHash(c))
      {
        OnChainPasses(m, highWater, ancestry, whole, m', c);
      }
    } else if Faithful(m', n, hw) {
      PassingNeedsAncestry(m, highWater, ancestry, whole, m');
    }
  }

  /** In every run that kept the hypothesis so far, the next promotion leaves the ring faithful if and only if the
      ring holds, before the call, the fork's ancestors that stay within range. The range can be read off the call. */
  lemma NextPromotionExactly(env: Env, c: CommittedBlockHeader, lamports: Lamports, calls: seq<Call>, call: Call,
                             ancestry: Chain)
    requires PromotionsSupported(env, c, lamports, calls)
    requires var t := TracedRun(env, c, lamports, calls);
             && Promotes(env, t.state, call)
             && ValidChain(env.blockHash, ancestry) && ancestry[0] == c && Last(ancestry) == BaseFor(t, call)
    ensures var t := TracedRun(env, c, lamports, calls);
            var after, n := Step(env, t.state, call).main, ancestry + WholeFork(env, t.state, call);
            && after.blockHeight == call.ix.committed.blockheight + |call.ix.headers|
            && (Faithful(after, n, MarkAfter(t, call))
                <==> AncestryCommitted(t.state.main, ancestry, MarkAfter(t, call)))
  {
    hide Executed, Refines, Faithful, AncestryCommitted, Promotes;
    RefinesRun(env, c, lamports, calls);
    PromotionsAreHigh(env, c, lamports, calls, call, ancestry);
    PromotionExactly(env, c, TracedRun(env, c, lamports, calls), call, ancestry);
  }

  lemma PromotionExactly(env: Env, genesis: CommittedBlockHeader, t: Traced, call: Call, ancestry: Chain)
    requires Refines(env, genesis, t) && Promotes(env, t.state, call)
    requires ValidChain(env.blockHash, ancestry) && ancestry[0] == genesis && Last(ancestry) == BaseFor(t, call)
    requires BaseFor(t, call).blockheight >= PRUNING_FACTOR
    ensures var after, n := Step(env, t.state, call).main, ancestry + WholeFork(env, t.state, call);
            && after.blockHeight == call.ix.committed.blockheight + |call.ix.headers|
            && (Faithful(after, n, MarkAfter(t, call))
                <==> AncestryCommitted(t.state.main, ancestry, MarkAfter(t, call)))
  {
    hide LongForked, ForkSettled, Faithful, AncestryCommitted;
    var m, q := LongForkParts(env, t, call, t.history.highWater);
    LongForkMoves(env, t, call);
    hide Executed;
    SettledTip(env.blockHash, m, q, BaseFor(t, call));
    SameReads(t.state.main, m, ancestry, MarkAfter(t, call));
    SameRing(t.state.main, m, t.history.chain, t.history.highWater);
    assert Step(env, t.state, call).main == ForkSettled(env.blockHash, m, q).value.main;
    assert MarkAfter(t, call) == MaxOf(t.history.highWater, q.height);
    assert ForkSettled(env.blockHash, m, q).Ok? && ForkSettled(env.blockHash, m, q).value.fork.None?;
    assert HangsOff(env.blockHash, q, Last(ancestry));
    hide RingHolds, ValidChain, HangsOff, Refines, Step, TracedStep, MarkAfter, WholeFork, BaseFor, ForkOutcome;
    PromotionFaithfulExactly(env.blockHash, m, t.history.chain, t.history.highWater, ancestry, q);
  }

  /** No call promotes a fork while the tip lies below height 250. */
  lemma PromotionsAreHigh(env: Env, c: CommittedBlockHeader, lamports: Lamports, calls: seq<Call>, call: Call,
                          ancestry: Chain)
    requires var t := TracedRun(env, c, lamports, calls);
             && Promotes(env, t.state, call)
             && ValidChain(env.blockHash, ancestry) && ancestry[0] == c && Last(ancestry) == BaseFor(t, call)
    ensures BaseFor(TracedRun(env, c, lamports, calls), call).blockheight >= PRUNING_FACTOR
  {
    hide LongForked;
    if c.blockheight < PRUNING_FACTOR {
      FrozenBelow250(env, c, lamports, calls);
      OpensNoFork(env, c, TracedRun(env, c, lamports, calls).state, call);
      assert false;
    }
    ChainHeights(env.blockHash, ancestry, |ancestry| - 1);
  }

  lemma SettledTip(bh: BlockHash, m: MainView, q: Progress<ForkView>, base: CommittedBlockHeader)
    requires HangsOff(bh, q, base) && ForkSettled(bh, m, q).Ok? && ForkSettled(bh, m, q).value.fork.None?
    ensures ForkSettled(bh, m, q).value.main.blockHeight == q.height > base.blockheight
  {
    GrownIsCounted(bh, base, ForkHeaders(q.account));
  }
}
