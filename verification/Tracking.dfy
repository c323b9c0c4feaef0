/** What passes the commitment check is on the main chain, in every run whose promotions leave no other branch in the
    way. Here the ring may hold less than a full window, or headers from below it. */
module Tracking {
  import opened Bytes
  import opened Results
  import opened Structs
  import opened Accounts
  import opened Relay
  import opened Chains
  import opened Ring
  import opened Loops
  import opened Refinement
  import opened Promotion
  import opened Soundness
  import opened Runs

  // ---------------------------------------------------------------- the ring

  /** Every header in its slot at or below the tip is the chain's, but for heights within 250 of the tip up to a
      limit, whose slots are still to be overwritten. */
  ghost predicate RingSoundBut(m: MainView, chain: Chain, limit: int) {
    && Counted(chain)
    && Last(chain).blockheight < m.startHeight + 250
    && forall c: CommittedBlockHeader ::
         Reads(m, c) && c.blockheight <= Last(chain).blockheight &&
         !(Last(chain).blockheight - 250 < c.blockheight <= limit) ==>
           OnChain(chain, c)
  }

  ghost predicate RingSound(m: MainView, chain: Chain) { RingSoundBut(m, chain, -1) }

  lemma StoreSound(m: MainView, chain: Chain, limit: int, c: CommittedBlockHeader, m': MainView)
    requires RingSoundBut(m, chain, limit)
    requires c.blockheight == Last(chain).blockheight + 1
    requires m.Stored(c.blockheight, CommitHash(c)) == Ok(m')
    ensures RingSoundBut(m', chain + [c], limit) && m.startHeight <= m'.startHeight
  {
    var longer := chain + [c];
    forall d: CommittedBlockHeader | Reads(m', d) && d.blockheight <= c.blockheight
                                     && !(c.blockheight - 250 < d.blockheight <= limit)
      ensures OnChain(longer, d)
    {
      if d != c {
        assert Reads(m, d);
        assert OnChain(chain, d);
      }
    }
  }

  lemma {:induction false} StoreAllSound(m: MainView, chain: Chain, limit: int, grown: Chain)
    requires RingSoundBut(m, chain, limit)
    requires CountedFrom(Last(chain).blockheight, grown) && StoredAll(m, grown).Ok?
    ensures RingSoundBut(StoredAll(m, grown).value, chain + grown, limit)
    ensures m.startHeight <= StoredAll(m, grown).value.startHeight
    decreases |grown|
  {
    hide RingSoundBut;
    if grown == [] {
      assert chain + grown == chain;
    } else {
      var c, rest := grown[0], grown[1..];
      var m' := m.Stored(c.blockheight, CommitHash(c)).value;
      StoreSound(m, chain, limit, c, m');
      assert Last(chain + [c]) == c;
      forall i | 0 <= i < |rest|
        ensures rest[i].blockheight == c.blockheight + 1 + i
      {
        assert rest[i] == grown[i + 1];
      }
      StoreAllSound(m', chain + [c], limit, rest);
      assert (chain + [c]) + rest == chain + grown;
    }
  }

  /** Once the tip is 250 above the limit, nothing is left to overwrite. */
  lemma AllOverwritten(m: MainView, chain: Chain, limit: int)
    requires RingSoundBut(m, chain, limit) && limit <= Last(chain).blockheight - 250
    ensures RingSound(m, chain)
  {}

  lemma StoreChainSound(m: MainView, chain: Chain, grown: Chain)
    requires chain != [] && grown != [] && CountedFrom(Last(chain).blockheight, grown) && StoredAll(m, grown).Ok?
    requires RingSoundBut(m, chain, Last(chain).blockheight + |grown| - 250)
    ensures RingSound(StoredAll(m, grown).value, chain + grown)
    ensures m.startHeight <= StoredAll(m, grown).value.startHeight
  {
    var limit := Last(chain).blockheight + |grown| - 250;
    StoreAllSound(m, chain, limit, grown);
    assert Last(chain + grown) == grown[|grown| - 1];
    AllOverwritten(StoredAll(m, grown).value, chain + grown, limit);
  }

  lemma SameSound(m: MainView, m': MainView, chain: Chain)
    requires RingSound(m, chain) && m.startHeight == m'.startHeight && m.blockCommitments == m'.blockCommitments
    ensures RingSound(m', chain)
  {
    assert forall c :: Reads(m, c) <==> Reads(m', c);
  }

  /** Cutting back to a header that passes, and growing from there. */
  lemma GrowSound(bh: BlockHash, m: MainView, chain: Chain, base: CommittedBlockHeader, grown: Chain)
    requires ValidChain(bh, chain) && RingSound(m, chain)
    requires m.blockHeight == Last(chain).blockheight && m.CommitmentAt(base.blockheight) == Ok(CommitHash(base))
    requires grown != [] && ValidChain(bh, [base] + grown) && StoredAll(m, grown).Ok?
    ensures var longer := Grown(chain, base, grown);
            && ValidChain(bh, longer) && longer[0] == chain[0] && Last(longer) == Last(grown)
            && RingSound(StoredAll(m, grown).value, longer)
    ensures m.startHeight <= StoredAll(m, grown).value.startHeight
  {
    hide Links;
    assert Reads(m, base);
    var n := base.blockheight - chain[0].blockheight + 1;
    var cut := chain[..n];
    assert UpTo(chain, base.blockheight) == cut && Last(cut) == base;
    ChainPrefix(bh, chain, n);
    ChainConcat(bh, cut, grown);
    GrownIsCounted(bh, base, grown);
    CutSound(m, chain, n, base.blockheight + |grown| - 250);
    hide RingSoundBut, ValidChain;
    StoreChainSound(m, cut, grown);
    assert Last(cut + grown) == Last(grown);
  }

  lemma CutSound(m: MainView, chain: Chain, n: nat, limit: int)
    requires RingSound(m, chain) && 0 < n <= |chain|
    ensures RingSoundBut(m, chain[..n], limit)
  {
    var cut := chain[..n];
    forall c: CommittedBlockHeader | Reads(m, c) && c.blockheight <= Last(cut).blockheight
      ensures OnChain(cut, c)
    {
      assert OnChain(chain, c);
    }
  }

  // ---------------------------------------------------------------- steps

  ghost predicate Tracks(env: Env, genesis: CommittedBlockHeader, t: Traced) {
    var (s, h) := (t.state, t.history);
    && ValidChain(env.blockHash, h.chain) && h.chain[0] == genesis
    && RingSound(s.main, h.chain)
    && TipMatches(env.blockHash, s.main, Last(h.chain))
    && ForksHangOff(env.blockHash, s.forks, h.bases, s.main.startHeight + 249)
  }

  lemma TipIsNear(env: Env, genesis: CommittedBlockHeader, t: Traced)
    requires Tracks(env, genesis, t)
    ensures t.state.main.blockHeight <= t.state.main.startHeight + 249
  {}

  /** The hypothesis on runs: a promoting call leaves no other branch in the way of the fork. */
  ghost predicate Cleared(env: Env, t: Traced, call: Call)
    requires t.history.chain != []
  {
    Promotes(env, t.state, call) ==> exists a :: Clears(env, t, call, a)
  }

  lemma AppendTracks(env: Env, genesis: CommittedBlockHeader, t: Traced, call: Call)
    requires Tracks(env, genesis, t) && Sound(env, genesis, t.state)
    requires call.ix.SubmitBlockHeaders? && Executed(env, t.state, call).Ok?
    ensures Tracks(env, genesis, TracedStep(env, t, call))
  {
    hide Appended, RingSound, Links, ForksHangOff;
    var ix, m, h := call.ix, t.state.main, t.history;
    var c := ix.committed;
    AppendsToTip(env.blockHash, m, ix.accounts, ix.headers, c, call.now);
    AppendedParts(env.blockHash, m, ix.accounts, ix.headers, c, call.now);
    var grown := AcceptedAll(env.blockHash, c, ix.headers, call.now);
    GrowSound(env.blockHash, m, h.chain, c, grown);
    MoveTracks(env, genesis, t, call, c, grown);
  }

  lemma ShortForkTracks(env: Env, genesis: CommittedBlockHeader, t: Traced, call: Call)
    requires Tracks(env, genesis, t)
    requires call.ix.SubmitShortForkHeaders? && Executed(env, t.state, call).Ok?
    ensures Tracks(env, genesis, TracedStep(env, t, call))
  {
    hide ShortForked, RingSound, Links, ForksHangOff;
    var ix, m, h := call.ix, t.state.main, t.history;
    var c := ix.committed;
    ShortForkedParts(env.blockHash, m, ix.accounts, ix.headers, c, call.now);
    var grown := AcceptedAll(env.blockHash, c, ix.headers, call.now);
    GrowSound(env.blockHash, m, h.chain, c, grown);
    MoveTracks(env, genesis, t, call, c, grown);
  }

  /** A main-chain submission, once the ring is known to be sound for the grown chain. */
  lemma MoveTracks(env: Env, genesis: CommittedBlockHeader, t: Traced, call: Call, c: CommittedBlockHeader,
                   grown: Chain)
    requires Tracks(env, genesis, t) && grown != [] && StoredAll(t.state.main, grown).Ok?
    requires var t' := TracedStep(env, t, call);
             && t'.state.forks == t.state.forks && t'.history == MainMoved(t.history, c, grown)
             && t'.state.main == WithTip(env.blockHash, StoredAll(t.state.main, grown).value, Last(grown).blockheight,
                                         Last(grown)).(forkCounter := t'.state.main.forkCounter)
    requires var longer := Grown(t.history.chain, c, grown);
             && ValidChain(env.blockHash, longer) && longer[0] == genesis && Last(longer) == Last(grown)
             && RingSound(StoredAll(t.state.main, grown).value, longer)
    requires t.state.main.startHeight <= StoredAll(t.state.main, grown).value.startHeight
    ensures Tracks(env, genesis, TracedStep(env, t, call))
  {
    var t' := TracedStep(env, t, call);
    hide Executed, Tracked, TracedStep, ValidChain, RingSound, Grown;
    SameSound(StoredAll(t.state.main, grown).value, t'.state.main, t'.history.chain);
  }

  lemma PromotedTracks(env: Env, genesis: CommittedBlockHeader, t: Traced, call: Call)
    requires Tracks(env, genesis, t) && call.ix.SubmitForkHeaders? && Executed(env, t.state, call).Ok?
    requires Promotes(env, t.state, call) && Cleared(env, t, call)
    ensures Tracks(env, genesis, TracedStep(env, t, call))
  {
    hide LongForked, ForkSettled, RingSound, ForkHangsOff, Links, Val;
    TipIsNear(env, genesis, t);
    var mark := t.state.main.startHeight + 249;
    var m, q := LongForkParts(env, t, call, mark);
    LongForkMoves(env, t, call);
    var ancestry := AncestryFor(env, t, call);
    assert Clears(env, t, call, ancestry);
    hide Executed, TracedStep, WholeFork, HangsOff, BaseFor, ClearBelow, RingSound, ForksHangOff, ValidChain;
    PromotionSound(env.blockHash, m, t.state.main, ancestry, q);
    var t' := TracedStep(env, t, call);
    ForkRemoved(env.blockHash, t.state.forks, t.history.bases, mark, ForkKey(call.ix.forkId, call.ix.signer),
                t'.state.main.startHeight + 249);
  }

  lemma PromotionSound(bh: BlockHash, m: MainView, m0: MainView, ancestry: Chain, q: Progress<ForkView>)
    requires ValidChain(bh, ancestry) && HangsOff(bh, q, Last(ancestry))
    requires m.startHeight == m0.startHeight && m.blockCommitments == m0.blockCommitments
    requires Last(ancestry).blockheight < m.startHeight + 250 && ClearBelow(m0, ancestry, q.height)
    requires ForkSettled(bh, m, q).Ok? && ForkSettled(bh, m, q).value.fork.None?
    ensures var chain, m' := ancestry + ForkHeaders(q.account), ForkSettled(bh, m, q).value.main;
            && ValidChain(bh, chain) && chain[0] == ancestry[0] && TipMatches(bh, m', Last(chain))
            && RingSound(m', chain) && m.startHeight <= m'.startHeight
  {
    hide ForkSettled, Links, Val;
    var whole := ForkHeaders(q.account);
    SettledParts(bh, m, q, Last(ancestry));
    assert q.height == whole[|whole| - 1].blockheight == Last(ancestry).blockheight + |whole|;
    ChainConcat(bh, ancestry, whole);
    ValidIsCounted(bh, ancestry);
    ClearIsSound(m, m0, ancestry, q.height);
    hide RingSoundBut, HangsOff, ValidChain, StoredAll, ClearBelow;
    StoreChainSound(m, ancestry, whole);
    SameSound(StoredAll(m, whole).value, ForkSettled(bh, m, q).value.main, ancestry + whole);
  }

  lemma ClearIsSound(m: MainView, m0: MainView, ancestry: Chain, tip: nat)
    requires m.startHeight == m0.startHeight && m.blockCommitments == m0.blockCommitments
    requires Counted(ancestry) && Last(ancestry).blockheight < m.startHeight + 250 && ClearBelow(m0, ancestry, tip)
    ensures RingSoundBut(m, ancestry, tip - 250)
  {
    assert forall c :: Reads(m, c) <==> Reads(m0, c);
  }

  lemma WaitingTracks(env: Env, genesis: CommittedBlockHeader, t: Traced, call: Call)
    requires Tracks(env, genesis, t) && call.ix.SubmitForkHeaders? && Executed(env, t.state, call).Ok?
    requires !Promotes(env, t.state, call)
    ensures Tracks(env, genesis, TracedStep(env, t, call))
  {
    hide LongForked, ForkSettled, RingSound, ForkHangsOff, Links, Val;
    TipIsNear(env, genesis, t);
    var mark := t.state.main.startHeight + 249;
    var m, q := LongForkParts(env, t, call, mark);
    LongForkMoves(env, t, call);
    SameSound(t.state.main, m, t.history.chain);
    SettledParts(env.blockHash, m, q, BaseFor(t, call));
    hide Executed, TracedStep, WholeFork, RingSound, ValidChain, ForkHangsOff, ForksHangOff, HangsOff, BaseFor;
    hide StoredAll;
    ForkAdded(env.blockHash, t.state.forks, t.history.bases, mark, ForkKey(call.ix.forkId, call.ix.signer),
              ForkSettled(env.blockHash, m, q).value.fork.value, BaseFor(t, call));
  }

  /** One instruction keeps what passes on the chain, given the hypothesis on promotions. */
  lemma TracksStep(env: Env, genesis: CommittedBlockHeader, t: Traced, call: Call)
    requires Tracks(env, genesis, t) && Sound(env, genesis, t.state) && Cleared(env, t, call)
    ensures Tracks(env, genesis, TracedStep(env, t, call))
  {
    hide Appended, ShortForked, LongForked, RingSound, ValidChain, ForkHangsOff, Sound, Cleared;
    if Executed(env, t.state, call).Ok? {
      match call.ix
      case SubmitBlockHeaders(_, _, _) => AppendTracks(env, genesis, t, call);
      case SubmitShortForkHeaders(_, _, _) => ShortForkTracks(env, genesis, t, call);
      case SubmitForkHeaders(_, _, _, _, _, _) =>
        if Promotes(env, t.state, call) {
          PromotedTracks(env, genesis, t, call);
        } else {
          WaitingTracks(env, genesis, t, call);
        }
      case _ =>
    }
  }

  // ---------------------------------------------------------------- runs

  ghost predicate PromotionsCleared(env: Env, c: CommittedBlockHeader, lamports: Lamports, calls: seq<Call>) {
    forall i :: 0 <= i < |calls| ==> Cleared(env, TracedRun(env, c, lamports, calls[..i]), calls[i])
  }

  lemma PrefixCleared(env: Env, c: CommittedBlockHeader, lamports: Lamports, calls: seq<Call>, n: nat)
    requires PromotionsCleared(env, c, lamports, calls) && n <= |calls|
    ensures PromotionsCleared(env, c, lamports, calls[..n])
    ensures n < |calls| ==> Cleared(env, TracedRun(env, c, lamports, calls[..n]), calls[n])
  {
    hide Cleared, TracedRun;
    forall i | 0 <= i < n
      ensures Cleared(env, TracedRun(env, c, lamports, calls[..n][..i]), calls[..n][i])
    {
      assert calls[..n][..i] == calls[..i];
    }
  }

  lemma InitialTracks(env: Env, c: CommittedBlockHeader, lamports: Lamports)
    ensures Tracks(env, c, InitialTrace(env, c, lamports))
  {
    var m := InitialMain(env.blockHash, c);
    forall d: CommittedBlockHeader | Reads(m, d)
      ensures d == c
    {
      assert forall p :: 0 < p < 250 ==> m.blockCommitments[p] == NoCommitment;
    }
  }

  lemma {:induction false} TracksRun(env: Env, c: CommittedBlockHeader, lamports: Lamports, calls: seq<Call>)
    requires PromotionsCleared(env, c, lamports, calls)
    ensures Tracks(env, c, TracedRun(env, c, lamports, calls))
  {
    hide Tracks, Cleared, TracedStep, InitialTrace, PromotionsCleared, Sound;
    if calls == [] {
      InitialTracks(env, c, lamports);
    } else {
      var front := calls[..|calls| - 1];
      PrefixCleared(env, c, lamports, calls, |front|);
      TracksRun(env, c, lamports, front);
      SoundRun(env, c, lamports, front);
      TracksStep(env, c, TracedRun(env, c, lamports, front), calls[|front|]);
    }
  }

  /** The stronger hypothesis, under which the ring represents the chain exactly, implies this one. */
  lemma SupportedIsCleared(env: Env, c: CommittedBlockHeader, lamports: Lamports, calls: seq<Call>)
    requires PromotionsSupported(env, c, lamports, calls)
    ensures PromotionsCleared(env, c, lamports, calls)
  {
    hide TracedRun, PromotionsSupported, Refines, Executed;
    forall i | 0 <= i < |calls|
      ensures Cleared(env, TracedRun(env, c, lamports, calls[..i]), calls[i])
    {
      var t := TracedRun(env, c, lamports, calls[..i]);
      PrefixSupported(env, c, lamports, calls, i);
      RefinesRun(env, c, lamports, calls[..i]);
      if Promotes(env, t.state, calls[i]) {
        var a :| Supports(env, t, calls[i], a);
        SupportsClears(env, c, t, calls[i], a);
      }
    }
  }

  /** After every such run the recorded tip ends the ghost chain, a valid one from the initial header, and whatever
      header passes the commitment check is on it. */
  lemma PassingIsOnMainChain(env: Env, c: CommittedBlockHeader, lamports: Lamports, calls: seq<Call>,
                             supplied: CommittedBlockHeader)
    requires PromotionsCleared(env, c, lamports, calls)
    ensures var t := TracedRun(env, c, lamports, calls);
            var (m, h) := (t.state.main, t.history);
            && ValidChain(env.blockHash, h.chain) && h.chain[0] == c
            && TipMatches(env.blockHash, m, Last(h.chain))
            && (m.CommitmentAt(supplied.blockheight) == Ok(CommitHash(supplied)) ==> OnChain(h.chain, supplied))
  {
    hide Executed, TracedRun, PromotionsCleared;
    TracksRun(env, c, lamports, calls);
    var t := TracedRun(env, c, lamports, calls);
    if t.state.main.CommitmentAt(supplied.blockheight) == Ok(CommitHash(supplied)) {
      assert Reads(t.state.main, supplied);
    }
  }

  // ---------------------------------------------------------------- the next promotion, in both directions

  /** The same above a limit that stays. */
  ghost predicate RingSoundAbove(m: MainView, chain: Chain, limit: int) {
    && Counted(chain)
    && Last(chain).blockheight < m.startHeight + 250
    && forall c: CommittedBlockHeader :: Reads(m, c) && limit < c.blockheight <= Last(chain).blockheight ==>
         OnChain(chain, c)
  }

  lemma StoreSoundAbove(m: MainView, chain: Chain, limit: int, c: CommittedBlockHeader, m': MainView)
    requires RingSoundAbove(m, chain, limit)
    requires c.blockheight == Last(chain).blockheight + 1
    requires m.Stored(c.blockheight, CommitHash(c)) == Ok(m')
    ensures RingSoundAbove(m', chain + [c], if limit < c.blockheight - 250 then c.blockheight - 250 else limit)
  {
    var longer := chain + [c];
    forall d: CommittedBlockHeader | Reads(m', d) && limit < d.blockheight <= c.blockheight
                                     && d.blockheight > c.blockheight - 250
      ensures OnChain(longer, d)
    {
      if d != c {
        assert Reads(m, d);
        assert OnChain(chain, d);
      }
    }
  }

  lemma {:induction false} StoreAllSoundAbove(m: MainView, chain: Chain, limit: int, grown: Chain)
    requires RingSoundAbove(m, chain, limit)
    requires CountedFrom(Last(chain).blockheight, grown) && StoredAll(m, grown).Ok?
    requires Last(chain).blockheight + |grown| - 250 <= limit
    ensures RingSoundAbove(StoredAll(m, grown).value, chain + grown, limit)
    decreases |grown|
  {
    hide RingSoundAbove;
    if grown == [] {
      assert chain + grown == chain;
    } else {
      var c, rest := grown[0], grown[1..];
      var m' := m.Stored(c.blockheight, CommitHash(c)).value;
      StoreSoundAbove(m, chain, limit, c, m');
      assert Last(chain + [c]) == c;
      forall i | 0 <= i < |rest|
        ensures rest[i].blockheight == c.blockheight + 1 + i
      {
        assert rest[i] == grown[i + 1];
      }
      StoreAllSoundAbove(m', chain + [c], limit, rest);
      assert (chain + [c]) + rest == chain + grown;
    }
  }

  /** Stores less than 250 above a header do not touch its slot. */
  lemma {:induction false} StillRead(m: MainView, base: nat, grown: Chain, d: CommittedBlockHeader)
    requires Reads(m, d) && d.blockheight <= base < m.startHeight + 250 && base + |grown| - 250 < d.blockheight
    requires CountedFrom(base, grown) && StoredAll(m, grown).Ok?
    ensures Reads(StoredAll(m, grown).value, d)
    decreases |grown|
  {
    if grown != [] {
      var m' := m.Stored(grown[0].blockheight, CommitHash(grown[0])).value;
      assert grown[0].blockheight == base + 1;
      assert Reads(m', d) && base + 1 < m'.startHeight + 250;
      forall i | 0 <= i < |grown| - 1
        ensures grown[1..][i].blockheight == base + 2 + i
      {
        assert grown[1..][i] == grown[i + 1];
      }
      StillRead(m', base + 1, grown[1..], d);
    }
  }

  /** Whatever passes is on the chain. */
  ghost predicate PassingOnChain(m: MainView, chain: Chain)
    requires chain != []
  {
    forall c: CommittedBlockHeader :: m.CommitmentAt(c.blockheight) == Ok(CommitHash(c)) ==> OnChain(chain, c)
  }

  /** No other branch is left where the coming tip can read it. */
  ghost predicate ClearInReach(m: MainView, ancestry: Chain, tip: nat)
    requires ancestry != []
  {
    forall c: CommittedBlockHeader :: Reads(m, c) && tip - 250 < c.blockheight <= Last(ancestry).blockheight ==>
      OnChain(ancestry, c)
  }

  lemma StoredPassesExactly(m: MainView, ancestry: Chain, whole: Chain, m': MainView)
    requires Counted(ancestry + whole) && ancestry != [] && whole != []
    requires Last(ancestry).blockheight < m.startHeight + 250 && StoredAll(m, whole).Ok?
    requires var stored := StoredAll(m, whole).value;
             m'.startHeight == stored.startHeight && m'.blockCommitments == stored.blockCommitments
    requires m'.blockHeight == Last(whole).blockheight >= PRUNING_FACTOR
    ensures PassingOnChain(m', ancestry + whole) <==> ClearInReach(m, ancestry, m'.blockHeight)
  {
    var chain, stored, tip := ancestry + whole, StoredAll(m, whole).value, m'.blockHeight;
    WholeIsCounted(ancestry, whole);
    assert Last(chain) == Last(whole);
    if ClearInReach(m, ancestry, tip) {
      StoreAllSoundAbove(m, ancestry, tip - 250, whole);
      forall c: CommittedBlockHeader | m'.CommitmentAt(c.blockheight) == Ok(CommitHash(c))
        ensures OnChain(chain, c)
      {
        assert Reads(stored, c);
      }
    } else {
      var d: CommittedBlockHeader :| Reads(m, d) && tip - 250 < d.blockheight <= Last(ancestry).blockheight
                                     && !OnChain(ancestry, d);
      StillRead(m, Last(ancestry).blockheight, whole, d);
      OffAncestry(ancestry, whole, d);
      assert m'.CommitmentAt(d.blockheight) == Ok(CommitHash(d));
    }
  }

  lemma OffAncestry(ancestry: Chain, whole: Chain, d: CommittedBlockHeader)
    requires Counted(ancestry) && Counted(ancestry + whole) && d.blockheight <= Last(ancestry).blockheight
    requires !OnChain(ancestry, d)
    ensures !OnChain(ancestry + whole, d)
  {
    var index := d.blockheight - ancestry[0].blockheight;
    assert 0 <= index ==> (ancestry + whole)[index] == ancestry[index];
  }

  /** In every run that kept the weaker hypothesis so far: after the next promotion whatever passes is on the fork's
      chain, if and only if no slot, before the call, holds a header off the fork's ancestry that the coming tip,
      given by the supplied height and the number of headers, can read. */
  lemma NextPassingExactly(env: Env, c: CommittedBlockHeader, lamports: Lamports, calls: seq<Call>, call: Call,
                           ancestry: Chain)
    requires PromotionsCleared(env, c, lamports, calls)
    requires var t := TracedRun(env, c, lamports, calls);
             && Promotes(env, t.state, call)
             && ValidChain(env.blockHash, ancestry) && ancestry[0] == c && Last(ancestry) == BaseFor(t, call)
    ensures var t := TracedRun(env, c, lamports, calls);
            PassingOnChain(Step(env, t.state, call).main, ancestry + WholeFork(env, t.state, call))
            <==> ClearInReach(t.state.main, ancestry, call.ix.committed.blockheight + |call.ix.headers|)
  {
    hide Executed, Tracks, PassingOnChain, ClearInReach, Promotes;
    TracksRun(env, c, lamports, calls);
    PromotionsAreHigh(env, c, lamports, calls, call, ancestry);
    PassingExactly(env, c, TracedRun(env, c, lamports, calls), call, ancestry);
  }

  lemma PassingExactly(env: Env, genesis: CommittedBlockHeader, t: Traced, call: Call, ancestry: Chain)
    requires Tracks(env, genesis, t) && Promotes(env, t.state, call)
    requires ValidChain(env.blockHash, ancestry) && ancestry[0] == genesis && Last(ancestry) == BaseFor(t, call)
    requires BaseFor(t, call).blockheight >= PRUNING_FACTOR
    ensures PassingOnChain(Step(env, t.state, call).main, ancestry + WholeFork(env, t.state, call))
            <==> ClearInReach(t.state.main, ancestry, call.ix.committed.blockheight + |call.ix.headers|)
  {
    hide LongForked, ForkSettled, PassingOnChain, ClearInReach, RingSound, ForkHangsOff, HangsOff, Links, Val;
    TipIsNear(env, genesis, t);
    var m, q := LongForkParts(env, t, call, t.state.main.startHeight + 249);
    LongForkMoves(env, t, call);
    assert Step(env, t.state, call).main == ForkSettled(env.blockHash, m, q).value.main;
    hide Executed, Step, TracedStep, WholeFork, BaseFor, ValidChain, ForksHangOff, Tracks;
    SettledPassesExactly(env.blockHash, m, q, ancestry);
    SameReach(t.state.main, m, ancestry, q.height);
  }

  lemma SettledPassesExactly(bh: BlockHash, m: MainView, q: Progress<ForkView>, ancestry: Chain)
    requires ValidChain(bh, ancestry) && HangsOff(bh, q, Last(ancestry))
    requires PRUNING_FACTOR <= Last(ancestry).blockheight < m.startHeight + 250
    requires ForkSettled(bh, m, q).Ok? && ForkSettled(bh, m, q).value.fork.None?
    ensures PassingOnChain(ForkSettled(bh, m, q).value.main, ancestry + ForkHeaders(q.account))
            <==> ClearInReach(m, ancestry, q.height)
  {
    hide ForkSettled, PassingOnChain, ClearInReach, Links, Val;
    var whole := ForkHeaders(q.account);
    SettledParts(bh, m, q, Last(ancestry));
    SettledTip(bh, m, q, Last(ancestry));
    ChainConcat(bh, ancestry, whole);
    ValidIsCounted(bh, ancestry + whole);
    hide HangsOff, ValidChain, StoredAll;
    StoredPassesExactly(m, ancestry, whole, ForkSettled(bh, m, q).value.main);
  }

  lemma SameReach(m: MainView, m': MainView, ancestry: Chain, tip: nat)
    requires ancestry != [] && m.startHeight == m'.startHeight && m.blockCommitments == m'.blockCommitments
    ensures ClearInReach(m, ancestry, tip) <==> ClearInReach(m', ancestry, tip)
  {
    assert forall c :: Reads(m, c) <==> Reads(m', c);
  }
}
