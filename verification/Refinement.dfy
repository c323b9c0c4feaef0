/** The ring of commitments refines the main chain: in every run whose promotions find their base still
    committed, the 250 slots stand for exactly the last stretch of the chain kept here as ghost history. */
module Refinement {
  import opened Bytes
  import opened Results
  import opened Structs
  import opened Accounts
  import opened Relay
  import opened Chains
  import opened Ring
  import opened Loops
  import Headers

  /** What the program does not store: the whole main chain, the greatest height ever stored, each fork's base. */
  datatype History = History(chain: Chain, highWater: nat, bases: map<ForkKey, CommittedBlockHeader>)

  datatype Traced = Traced(state: State, history: History)

  ghost predicate Refines(env: Env, genesis: CommittedBlockHeader, t: Traced) {
    var (s, h) := (t.state, t.history);
    && ValidChain(env.blockHash, h.chain) && h.chain[0] == genesis
    && RingHolds(s.main, h.chain, h.highWater)
    && TipMatches(env.blockHash, s.main, Last(h.chain))
    && ForksHangOff(env.blockHash, s.forks, h.bases, h.highWater)
  }

  /** Every open fork hangs off its base, which lies within the stored heights. */
  ghost predicate ForksHangOff(bh: BlockHash, forks: map<ForkKey, ForkView>, bases: map<ForkKey, CommittedBlockHeader>,
                               highWater: nat)
  {
    && bases.Keys == forks.Keys
    && forall key :: key in forks ==> ForkHangsOff(bh, forks[key], bases[key]) && bases[key].blockheight <= highWater
  }

  lemma ForkAdded(bh: BlockHash, forks: map<ForkKey, ForkView>, bases: map<ForkKey, CommittedBlockHeader>,
                  highWater: nat, key: ForkKey, f: ForkView, base: CommittedBlockHeader)
    requires ForksHangOff(bh, forks, bases, highWater)
    requires ForkHangsOff(bh, f, base) && base.blockheight <= highWater
    ensures ForksHangOff(bh, forks[key := f], bases[key := base], highWater)
  {
    hide ForkHangsOff;
  }

  lemma ForkRemoved(bh: BlockHash, forks: map<ForkKey, ForkView>, bases: map<ForkKey, CommittedBlockHeader>,
                    highWater: nat, key: ForkKey, highWater': nat)
    requires ForksHangOff(bh, forks, bases, highWater) && highWater <= highWater'
    ensures ForksHangOff(bh, forks - {key}, bases - {key}, highWater')
  {
    hide ForkHangsOff;
  }

  // ---------------------------------------------------------------- how history moves

  /** The chain up to and including a height; the whole chain when the height is not on it. */
  ghost function UpTo(chain: Chain, height: nat): Chain
    requires chain != []
  {
    var n := height - chain[0].blockheight + 1;
    if 0 < n <= |chain| then chain[..n] else chain
  }

  ghost function Grown(chain: Chain, base: CommittedBlockHeader, grown: Chain): Chain
    requires chain != []
  {
    UpTo(chain, base.blockheight) + grown
  }

  ghost function MainMoved(h: History, base: CommittedBlockHeader, grown: Chain): History
    requires h.chain != []
  {
    h.(chain := Grown(h.chain, base, grown), highWater := MaxOf(h.highWater, base.blockheight + |grown|))
  }

  /** The base an accepted long-fork call builds on: its own header when it opens the fork. */
  ghost function BaseFor(t: Traced, call: Call): CommittedBlockHeader
    requires call.ix.SubmitForkHeaders?
  {
    var key := ForkKey(call.ix.forkId, call.ix.signer);
    if key in t.history.bases then t.history.bases[key] else call.ix.committed
  }

  /** All headers of the fork once the call's headers are appended. */
  ghost function WholeFork(env: Env, s: State, call: Call): Chain
    requires call.ix.SubmitForkHeaders?
  {
    StoredHeaders(StoredFork(s, ForkKey(call.ix.forkId, call.ix.signer))) +
    AcceptedAll(env.blockHash, call.ix.committed, call.ix.headers, call.now)
  }

  /** The high-water mark a promotion by this call would leave, read off the call. */
  ghost function MarkAfter(t: Traced, call: Call): nat
    requires call.ix.SubmitForkHeaders?
  {
    MaxOf(t.history.highWater, call.ix.committed.blockheight + |call.ix.headers|)
  }

  /** A chain the fork may be promoted on: it ends in the fork's base, the ring holds its headers in the coming
      window, and the fork's own headers do not lie below that window. */
  ghost predicate Supports(env: Env, t: Traced, call: Call, ancestry: Chain)
    requires call.ix.SubmitForkHeaders? && t.history.chain != []
  {
    && ValidChain(env.blockHash, ancestry) && ancestry[0] == t.history.chain[0] && Last(ancestry) == BaseFor(t, call)
    && AncestryCommitted(t.state.main, ancestry, MarkAfter(t, call))
    && MarkAfter(t, call) - 250 <= BaseFor(t, call).blockheight
  }

  /** A weaker demand, enough for what passes to be on the chain: only that no other branch is left in the way. */
  ghost predicate Clears(env: Env, t: Traced, call: Call, ancestry: Chain)
    requires call.ix.SubmitForkHeaders? && t.history.chain != []
  {
    && ValidChain(env.blockHash, ancestry) && ancestry[0] == t.history.chain[0] && Last(ancestry) == BaseFor(t, call)
    && ClearBelow(t.state.main, ancestry, call.ix.committed.blockheight + |call.ix.headers|)
  }

  /** The chain a promotion is recorded on: the best there is. */
  ghost function AncestryFor(env: Env, t: Traced, call: Call): (r: Chain)
    requires call.ix.SubmitForkHeaders? && t.history.chain != []
    ensures r != []
    ensures (exists a :: Supports(env, t, call, a) && Clears(env, t, call, a)) ==> Supports(env, t, call, r)
    ensures (exists a :: Clears(env, t, call, a)) ==> Clears(env, t, call, r)
  {
    if a :| Supports(env, t, call, a) && Clears(env, t, call, a) then a
    else if a :| Clears(env, t, call, a) then a
    else t.history.chain
  }

  /** The hypothesis on runs: a call that promotes a fork finds a chain to its base in the ring. */
  ghost predicate Supported(env: Env, t: Traced, call: Call)
    requires t.history.chain != []
  {
    Promotes(env, t.state, call) ==> exists a :: Supports(env, t, call, a)
  }

  ghost predicate Promotes(env: Env, s: State, call: Call) {
    call.ix.SubmitForkHeaders? && ForkOutcome(env, s, call).Ok? && ForkOutcome(env, s, call).value.fork.None?
  }

  ghost function Tracked(env: Env, t: Traced, call: Call): History
    requires t.history.chain != []
  {
    var (s, h) := (t.state, t.history);
    if Executed(env, s, call).Err? then h else
    match call.ix
    case SubmitBlockHeaders(_, headers, c) => MainMoved(h, c, AcceptedAll(env.blockHash, c, headers, call.now))
    case SubmitShortForkHeaders(_, headers, c) => MainMoved(h, c, AcceptedAll(env.blockHash, c, headers, call.now))
    case SubmitForkHeaders(signer, _, _, _, forkId, _) =>
      var key := ForkKey(forkId, signer);
      if ForkOutcome(env, s, call).Ok? && ForkOutcome(env, s, call).value.fork.Some?
      then h.(bases := h.bases[key := BaseFor(t, call)])
      else History(AncestryFor(env, t, call) + WholeFork(env, s, call), MarkAfter(t, call), h.bases - {key})
    case CloseForkAccount(signer, forkId) => h.(bases := h.bases - {ForkKey(forkId, signer)})
    case _ => h
  }

  ghost function TracedStep(env: Env, t: Traced, call: Call): Traced
    requires t.history.chain != []
  {
    Traced(Step(env, t.state, call), Tracked(env, t, call))
  }

  ghost function InitialTrace(env: Env, c: CommittedBlockHeader, lamports: Lamports): (t: Traced)
    ensures t.history.chain != []
  {
    Traced(InitialState(env, c, lamports), History([c], c.blockheight, map[]))
  }

  ghost function TracedRun(env: Env, c: CommittedBlockHeader, lamports: Lamports, calls: seq<Call>): (t: Traced)
    ensures t.history.chain != [] && t.state == Run(env, InitialState(env, c, lamports), calls)
  {
    if calls == [] then InitialTrace(env, c, lamports)
    else TracedStep(env, TracedRun(env, c, lamports, calls[..|calls| - 1]), calls[|calls| - 1])
  }

  ghost predicate PromotionsSupported(env: Env, c: CommittedBlockHeader, lamports: Lamports, calls: seq<Call>) {
    forall i :: 0 <= i < |calls| ==> Supported(env, TracedRun(env, c, lamports, calls[..i]), calls[i])
  }

  // ---------------------------------------------------------------- one step

  /** Growing the chain from a header that passed the commitment check. */
  lemma ReadThenGrow(bh: BlockHash, m: MainView, h: History, base: CommittedBlockHeader, grown: Chain)
    requires ValidChain(bh, h.chain) && RingHolds(m, h.chain, h.highWater)
    requires m.blockHeight == Last(h.chain).blockheight
    requires m.CommitmentAt(base.blockheight) == Ok(CommitHash(base))
    requires grown != [] && ValidChain(bh, [base] + grown)
    requires StoredAll(m, grown).Ok?
    ensures var h' := MainMoved(h, base, grown);
            && ValidChain(bh, h'.chain) && h'.chain[0] == h.chain[0] && Last(h'.chain) == Last(grown)
            && RingHolds(StoredAll(m, grown).value, h'.chain, h'.highWater)
  {
    hide Links, RingHolds, UpTo;
    ReadCuts(bh, m, h.chain, h.highWater, base);
    var cut := UpTo(h.chain, base.blockheight);
    ChainConcat(bh, cut, grown);
    GrownIsCounted(bh, base, grown);
    StoreWithinRing(m, cut, h.highWater, grown);
    assert Last(cut + grown) == Last(grown);
  }

  /** Cutting the chain back to a header that passed the commitment check. */
  lemma ReadCuts(bh: BlockHash, m: MainView, chain: Chain, highWater: nat, base: CommittedBlockHeader)
    requires ValidChain(bh, chain) && RingHolds(m, chain, highWater) && m.blockHeight == Last(chain).blockheight
    requires m.CommitmentAt(base.blockheight) == Ok(CommitHash(base))
    ensures var cut := UpTo(chain, base.blockheight);
            ValidChain(bh, cut) && cut[0] == chain[0] && Last(cut) == base && RingHolds(m, cut, highWater)
  {
    hide Links;
    ReadsExactlyTheChain(m, chain, highWater, base);
    var n := base.blockheight - chain[0].blockheight + 1;
    CutRing(m, chain, highWater, n);
    ChainPrefix(bh, chain, n);
  }

  /** Storing on a tip in the ring. */
  lemma StoreWithinRing(m: MainView, chain: Chain, highWater: nat, grown: Chain)
    requires RingHolds(m, chain, highWater)
    requires CountedFrom(Last(chain).blockheight, grown) && grown != [] && StoredAll(m, grown).Ok?
    ensures RingHolds(StoredAll(m, grown).value, chain + grown, MaxOf(highWater, Last(chain).blockheight + |grown|))
  {
    StoreAllInRing(m, chain, highWater, highWater - 250, grown);
    hide RingHoldsAbove;
    assert Last(chain + grown) == grown[|grown| - 1];
    var mark := MaxOf(highWater, Last(chain + grown).blockheight);
    RaiseFloor(StoredAll(m, grown).value, chain + grown, mark, highWater - 250);
  }

  lemma AppendRefines(env: Env, genesis: CommittedBlockHeader, t: Traced, call: Call)
    requires Refines(env, genesis, t) && call.ix.SubmitBlockHeaders? && Executed(env, t.state, call).Ok?
    ensures Refines(env, genesis, TracedStep(env, t, call))
    ensures t.history.chain <= Tracked(env, t, call).chain
  {
    hide Appended;
    var ix, m, h := call.ix, t.state.main, t.history;
    var c := ix.committed;
    AppendsToLast(env.blockHash, m, h, ix.accounts, ix.headers, c, call.now);
    AppendedParts(env.blockHash, m, ix.accounts, ix.headers, c, call.now);
    var grown := AcceptedAll(env.blockHash, c, ix.headers, call.now);
    ReadThenGrow(env.blockHash, m, h, c, grown);
    var after := Tracked(env, t, call);
    SameRing(StoredAll(m, grown).value, Executed(env, t.state, call).value.main, after.chain, after.highWater);
  }

  lemma AppendsToLast(bh: BlockHash, m: MainView, h: History, accounts: nat, headers: seq<Offer>,
                      c: CommittedBlockHeader, now: u32)
    requires ValidChain(bh, h.chain) && RingHolds(m, h.chain, h.highWater) && TipMatches(bh, m, Last(h.chain))
    requires Appended(bh, m, accounts, headers, c, now).Ok?
    ensures c == Last(h.chain) && UpTo(h.chain, c.blockheight) == h.chain
  {
    hide Headers.Verified;
    ReadsExactlyTheChain(m, h.chain, h.highWater, Last(h.chain));
    TipIsOnChain(bh, h.chain);
  }

  lemma TipIsOnChain(bh: BlockHash, chain: Chain)
    requires ValidChain(bh, chain)
    ensures OnChain(chain, Last(chain))
  {
    ChainHeights(bh, chain, |chain| - 1);
  }

  lemma ShortForkRefines(env: Env, genesis: CommittedBlockHeader, t: Traced, call: Call)
    requires Refines(env, genesis, t) && call.ix.SubmitShortForkHeaders? && Executed(env, t.state, call).Ok?
    ensures Refines(env, genesis, TracedStep(env, t, call))
  {
    hide ShortForked;
    var ix, m, h := call.ix, t.state.main, t.history;
    var c := ix.committed;
    var grown := AcceptedAll(env.blockHash, c, ix.headers, call.now);
    ShortForkedParts(env.blockHash, m, ix.accounts, ix.headers, c, call.now);
    ReadThenGrow(env.blockHash, m, h, c, grown);
    var after := Tracked(env, t, call);
    SameRing(StoredAll(m, grown).value, Executed(env, t.state, call).value.main, after.chain, after.highWater);
  }

  /** The ring predicates look only at the slots and start_height. */
  lemma SameRing(m: MainView, m': MainView, chain: Chain, highWater: nat)
    requires chain != [] && m.startHeight == m'.startHeight && m.blockCommitments == m'.blockCommitments
    ensures RingHolds(m, chain, highWater) ==> RingHolds(m', chain, highWater)
  {}

  lemma SameReads(m: MainView, m': MainView, ancestry: Chain, highWater: nat)
    requires m.startHeight == m'.startHeight && m.blockCommitments == m'.blockCommitments
    ensures AncestryCommitted(m, ancestry, highWater) <==> AncestryCommitted(m', ancestry, highWater)
  {
    assert forall c :: Reads(m, c) <==> Reads(m', c);
  }

  /** A long-fork call up to its settlement. */
  lemma LongForkParts(env: Env, t: Traced, call: Call, mark: nat) returns (m: MainView, q: Progress<ForkView>)
    requires ForksHangOff(env.blockHash, t.state.forks, t.history.bases, mark) && t.state.main.blockHeight <= mark
    requires call.ix.SubmitForkHeaders? && ForkOutcome(env, t.state, call).Ok?
    ensures m == t.state.main.(forkCounter := m.forkCounter)
    ensures ForkOutcome(env, t.state, call) == ForkSettled(env.blockHash, m, q)
    ensures HangsOff(env.blockHash, q, BaseFor(t, call))
    ensures ForkHeaders(q.account) == WholeFork(env, t.state, call)
    ensures BaseFor(t, call).blockheight <= mark
    ensures q.height == call.ix.committed.blockheight + |call.ix.headers|
  {
    hide LongForked, ForkSettled, ForkHangsOff, HangsOff, AcceptedAll;
    var ix, base := call.ix, BaseFor(t, call);
    m, q := LongForkedParts(env.blockHash, t.state.main, StoredFork(t.state, ForkKey(ix.forkId, ix.signer)),
                            ix.accounts, ix.headers, ix.committed, ix.forkId, ix.init, call.now, base);
  }

  /** Promoting a fork on a chain the ring supports. */
  lemma PromotionRefines(bh: BlockHash, m: MainView, h: History, q: Progress<ForkView>, ancestry: Chain, highWater: nat)
    requires ValidChain(bh, h.chain) && RingHolds(m, h.chain, h.highWater) && highWater == MaxOf(h.highWater, q.height)
    requires ValidChain(bh, ancestry) && ancestry[0] == h.chain[0]
    requires highWater - 250 <= Last(ancestry).blockheight <= h.highWater
    requires AncestryCommitted(m, ancestry, highWater)
    requires HangsOff(bh, q, Last(ancestry))
    requires ForkSettled(bh, m, q).Ok? && ForkSettled(bh, m, q).value.fork.None?
    ensures var chain, m' := ancestry + ForkHeaders(q.account), ForkSettled(bh, m, q).value.main;
            && ValidChain(bh, chain) && chain[0] == h.chain[0]
            && RingHolds(m', chain, highWater) && TipMatches(bh, m', Last(chain))
  {
    hide ForkSettled, Links, Val, AncestryCommitted;
    var whole := ForkHeaders(q.account);
    SettledParts(bh, m, q, Last(ancestry));
    assert q.height == whole[|whole| - 1].blockheight == Last(ancestry).blockheight + |whole|;
    ChainConcat(bh, ancestry, whole);
    ValidIsCounted(bh, ancestry);
    hide RingHolds, HangsOff, ValidChain, StoredAll;
    StoredOverRing(m, h.chain, h.highWater, ancestry, whole);
    SameRing(StoredAll(m, whole).value, ForkSettled(bh, m, q).value.main, ancestry + whole, highWater);
  }

  /** The whole fork stored over the ring. */
  lemma StoredOverRing(m: MainView, chain: Chain, highWater: nat, ancestry: Chain, whole: Chain)
    requires RingHolds(m, chain, highWater)
    requires Counted(ancestry) && ancestry[0].blockheight == chain[0].blockheight
    requires whole != [] && CountedFrom(Last(ancestry).blockheight, whole) && StoredAll(m, whole).Ok?
    requires var highWater' := MaxOf(highWater, Last(ancestry).blockheight + |whole|);
             && highWater' - 250 <= Last(ancestry).blockheight <= highWater
             && AncestryCommitted(m, ancestry, highWater')
    ensures RingHolds(StoredAll(m, whole).value, ancestry + whole,
                      MaxOf(highWater, Last(ancestry).blockheight + |whole|))
  {
    hide RingHolds, RingHoldsAbove, AncestryCommitted, StoredAll;
    var highWater' := MaxOf(highWater, Last(ancestry).blockheight + |whole|);
    var floor := highWater' as int - 250;
    RebaseRing(m, chain, highWater, ancestry, highWater');
    StoreChainInRing(m, ancestry, highWater, floor, whole);
  }

  /** How a long-fork call moves state and history. */
  lemma LongForkMoves(env: Env, t: Traced, call: Call)
    requires t.history.chain != [] && call.ix.SubmitForkHeaders? && Executed(env, t.state, call).Ok?
    ensures ForkOutcome(env, t.state, call).Ok?
    ensures var (t', r, h) := (TracedStep(env, t, call), ForkOutcome(env, t.state, call).value, t.history);
            var key := ForkKey(call.ix.forkId, call.ix.signer);
            && t'.state.main == r.main && t'.state.forks == WithFork(t.state.forks, key, r.fork)
            && t'.history == if r.fork.Some? then h.(bases := h.bases[key := BaseFor(t, call)])
                             else History(AncestryFor(env, t, call) + WholeFork(env, t.state, call), MarkAfter(t, call),
                                          h.bases - {key})
  {
    hide LongForked;
  }

  lemma SupportsClears(env: Env, genesis: CommittedBlockHeader, t: Traced, call: Call, ancestry: Chain)
    requires Refines(env, genesis, t) && call.ix.SubmitForkHeaders? && ForkOutcome(env, t.state, call).Ok?
    requires Supports(env, t, call, ancestry)
    ensures Clears(env, t, call, ancestry)
  {
    hide ForkOutcome, Links, ClearBelow, AncestryCommitted, BaseFor, RingHolds;
    ForkIsShort(env, genesis, t, call);
    ValidIsCounted(env.blockHash, ancestry);
    CommittedIsClear(t.state.main, t.history.chain, t.history.highWater, ancestry,
                     call.ix.committed.blockheight + |call.ix.headers|);
  }

  lemma PromotedRefines(env: Env, genesis: CommittedBlockHeader, t: Traced, call: Call)
    requires Refines(env, genesis, t) && call.ix.SubmitForkHeaders? && Executed(env, t.state, call).Ok?
    requires Promotes(env, t.state, call) && Supported(env, t, call)
    ensures Refines(env, genesis, TracedStep(env, t, call))
  {
    hide LongForked, ForkSettled;
    var m, q := LongForkParts(env, t, call, t.history.highWater);
    LongForkMoves(env, t, call);
    var supporting :| Supports(env, t, call, supporting);
    SupportsClears(env, genesis, t, call, supporting);
    var ancestry := AncestryFor(env, t, call);
    assert Supports(env, t, call, ancestry);
    SameRing(t.state.main, m, t.history.chain, t.history.highWater);
    SameReads(t.state.main, m, ancestry, MarkAfter(t, call));
    ForkRemoved(env.blockHash, t.state.forks, t.history.bases, t.history.highWater,
                ForkKey(call.ix.forkId, call.ix.signer), MarkAfter(t, call));
    hide Executed, TracedStep, WholeFork, RingHolds, ValidChain, ForksHangOff, HangsOff, BaseFor, AncestryCommitted;
    PromotionRefines(env.blockHash, m, t.history, q, ancestry, MarkAfter(t, call));
  }

  lemma WaitingRefines(env: Env, genesis: CommittedBlockHeader, t: Traced, call: Call)
    requires Refines(env, genesis, t) && call.ix.SubmitForkHeaders? && Executed(env, t.state, call).Ok?
    requires !Promotes(env, t.state, call)
    ensures Refines(env, genesis, TracedStep(env, t, call))
  {
    hide LongForked, ForkSettled;
    var m, q := LongForkParts(env, t, call, t.history.highWater);
    LongForkMoves(env, t, call);
    SameRing(t.state.main, m, t.history.chain, t.history.highWater);
    SettledParts(env.blockHash, m, q, BaseFor(t, call));
    hide Executed, TracedStep, WholeFork, RingHolds, ValidChain, ForkHangsOff, ForksHangOff, HangsOff, BaseFor;
    hide StoredAll;
    ForkAdded(env.blockHash, t.state.forks, t.history.bases, t.history.highWater,
              ForkKey(call.ix.forkId, call.ix.signer), ForkSettled(env.blockHash, m, q).value.fork.value,
              BaseFor(t, call));
  }

  lemma LongForkRefines(env: Env, genesis: CommittedBlockHeader, t: Traced, call: Call)
    requires Refines(env, genesis, t) && call.ix.SubmitForkHeaders? && Executed(env, t.state, call).Ok?
    requires Supported(env, t, call)
    ensures Refines(env, genesis, TracedStep(env, t, call))
  {
    hide Refines, Executed, TracedStep, Supported;
    if Promotes(env, t.state, call) {
      PromotedRefines(env, genesis, t, call);
    } else {
      WaitingRefines(env, genesis, t, call);
    }
  }

  /** One instruction keeps the refinement, given the hypothesis on promotions. */
  lemma RefinesStep(env: Env, genesis: CommittedBlockHeader, t: Traced, call: Call)
    requires Refines(env, genesis, t) && Supported(env, t, call)
    ensures Refines(env, genesis, TracedStep(env, t, call))
  {
    hide Appended, ShortForked, LongForked, RingHolds, ValidChain, ForkHangsOff;
    if Executed(env, t.state, call).Ok? {
      match call.ix
      case SubmitBlockHeaders(_, _, _) => AppendRefines(env, genesis, t, call);
      case SubmitShortForkHeaders(_, _, _) => ShortForkRefines(env, genesis, t, call);
      case SubmitForkHeaders(_, _, _, _, _, _) => LongForkRefines(env, genesis, t, call);
      case _ =>
    }
  }

  // ---------------------------------------------------------------- runs

  lemma PrefixSupported(env: Env, c: CommittedBlockHeader, lamports: Lamports, calls: seq<Call>, n: nat)
    requires PromotionsSupported(env, c, lamports, calls) && n <= |calls|
    ensures PromotionsSupported(env, c, lamports, calls[..n])
    ensures n < |calls| ==> Supported(env, TracedRun(env, c, lamports, calls[..n]), calls[n])
  {
    hide Supported, TracedRun;
    forall i | 0 <= i < n
      ensures Supported(env, TracedRun(env, c, lamports, calls[..n][..i]), calls[..n][i])
    {
      assert calls[..n][..i] == calls[..i];
    }
  }

  lemma InitialRefines(env: Env, c: CommittedBlockHeader, lamports: Lamports)
    ensures Refines(env, c, InitialTrace(env, c, lamports))
  {
    InitialRing(env.blockHash, c);
  }

  lemma {:induction false} RefinesRun(env: Env, c: CommittedBlockHeader, lamports: Lamports, calls: seq<Call>)
    requires PromotionsSupported(env, c, lamports, calls)
    ensures Refines(env, c, TracedRun(env, c, lamports, calls))
  {
    hide Refines, Supported, TracedStep, InitialTrace, PromotionsSupported;
    if calls == [] {
      InitialRefines(env, c, lamports);
    } else {
      var front := calls[..|calls| - 1];
      PrefixSupported(env, c, lamports, calls, |front|);
      RefinesRun(env, c, lamports, front);
      RefinesStep(env, c, TracedRun(env, c, lamports, front), calls[|front|]);
    }
  }

  // ---------------------------------------------------------------- a base still committed supports its fork

  lemma TipIsBelowMark(env: Env, genesis: CommittedBlockHeader, t: Traced)
    requires Refines(env, genesis, t)
    ensures t.state.main.blockHeight <= t.history.highWater
  {}

  /** A fork holds at most 250 headers. */
  lemma ForkIsShort(env: Env, genesis: CommittedBlockHeader, t: Traced, call: Call)
    requires Refines(env, genesis, t) && call.ix.SubmitForkHeaders? && ForkOutcome(env, t.state, call).Ok?
    ensures call.ix.committed.blockheight + |call.ix.headers| <= BaseFor(t, call).blockheight + 250
    ensures BaseFor(t, call).blockheight <= t.history.highWater
  {
    hide ForkOutcome, ForkSettled, RingHolds, BaseFor, Links;
    TipIsBelowMark(env, genesis, t);
    var _, q := LongForkParts(env, t, call, t.history.highWater);
    GrownIsCounted(env.blockHash, BaseFor(t, call), ForkHeaders(q.account));
  }

  /** The check the program makes when a fork is opened would do: a base still readable at its height supports
      the promotion. */
  lemma CommittedBaseSupports(env: Env, genesis: CommittedBlockHeader, t: Traced, call: Call)
    requires Refines(env, genesis, t) && Promotes(env, t.state, call)
    requires t.state.main.CommitmentAt(BaseFor(t, call).blockheight) == Ok(CommitHash(BaseFor(t, call)))
    ensures Supported(env, t, call)
  {
    hide ForkOutcome;
    var m, chain, highWater, base := t.state.main, t.history.chain, t.history.highWater, BaseFor(t, call);
    ReadsExactlyTheChain(m, chain, highWater, base);
    ForkIsShort(env, genesis, t, call);
    var n := base.blockheight - chain[0].blockheight + 1;
    ChainPrefix(env.blockHash, chain, n);
    PrefixCommitted(m, chain, highWater, n, MarkAfter(t, call));
    hide RingHolds, ValidChain, Refines, AncestryCommitted;
    assert Supports(env, t, call, chain[..n]);
  }

  lemma PrefixCommitted(m: MainView, chain: Chain, highWater: nat, n: nat, highWater': nat)
    requires RingHolds(m, chain, highWater) && 0 < n <= |chain| && highWater <= highWater'
    ensures AncestryCommitted(m, chain[..n], highWater')
  {
    forall i | 0 <= i < n && chain[i].blockheight > highWater' - 250
      ensures Reads(m, chain[i])
    {
      var pos := Position(m.startHeight, chain[i].blockheight);
      assert HeightAt(m.startHeight, highWater, pos) == chain[i].blockheight;
    }
  }

  /** The stricter hypothesis on runs: a promoting call finds its base readable at start_height. */
  ghost predicate BasesStillCommitted(env: Env, c: CommittedBlockHeader, lamports: Lamports, calls: seq<Call>) {
    forall i :: 0 <= i < |calls| ==> BaseReadable(env, TracedRun(env, c, lamports, calls[..i]), calls[i])
  }

  ghost predicate BaseReadable(env: Env, t: Traced, call: Call) {
    Promotes(env, t.state, call) ==>
      t.state.main.CommitmentAt(BaseFor(t, call).blockheight) == Ok(CommitHash(BaseFor(t, call)))
  }

  lemma {:induction false} BasesSuffice(env: Env, c: CommittedBlockHeader, lamports: Lamports, calls: seq<Call>)
    requires BasesStillCommitted(env, c, lamports, calls)
    ensures PromotionsSupported(env, c, lamports, calls)
  {
    hide BaseReadable, Supported, TracedRun;
    if calls != [] {
      var n := |calls| - 1;
      var front := calls[..n];
      forall i | 0 <= i < n
        ensures BaseReadable(env, TracedRun(env, c, lamports, front[..i]), front[i])
      {
        assert front[..i] == calls[..i];
      }
      BasesSuffice(env, c, lamports, front);
      NextSupported(env, c, lamports, front, calls[n]);
      forall i | 0 <= i < |calls|
        ensures Supported(env, TracedRun(env, c, lamports, calls[..i]), calls[i])
      {
        if i < n {
          assert front[..i] == calls[..i];
          assert Supported(env, TracedRun(env, c, lamports, front[..i]), front[i]);
        }
      }
    }
  }

  lemma NextSupported(env: Env, c: CommittedBlockHeader, lamports: Lamports, calls: seq<Call>, call: Call)
    requires PromotionsSupported(env, c, lamports, calls)
    requires BaseReadable(env, TracedRun(env, c, lamports, calls), call)
    ensures Supported(env, TracedRun(env, c, lamports, calls), call)
  {
    hide Refines, Executed;
    var t := TracedRun(env, c, lamports, calls);
    RefinesRun(env, c, lamports, calls);
    if Promotes(env, t.state, call) {
      CommittedBaseSupports(env, c, t, call);
    }
  }

  // ---------------------------------------------------------------- changing branch

  /** A call either extends the chain it found or strictly adds to the main work. */
  lemma ExtendsOrOutweighs(env: Env, genesis: CommittedBlockHeader, t: Traced, call: Call)
    requires Refines(env, genesis, t)
    ensures || t.history.chain <= Tracked(env, t, call).chain
            || Val(t.state.main.chainWork) < Val(Step(env, t.state, call).main.chainWork)
  {
    hide Appended, ShortForked, LongForked, ForkSettled, RingHolds, ValidChain, ForkHangsOff;
    if Executed(env, t.state, call).Ok? {
      match call.ix
      case SubmitBlockHeaders(_, _, _) =>
        AppendRefines(env, genesis, t, call);
      case SubmitShortForkHeaders(accounts, headers, c) =>
        ShortForkedParts(env.blockHash, t.state.main, accounts, headers, c, call.now);
      case SubmitForkHeaders(_, _, _, _, _, _) =>
        TipIsBelowMark(env, genesis, t);
        var m, q := LongForkParts(env, t, call, t.history.highWater);
        SettledParts(env.blockHash, m, q, BaseFor(t, call));
      case _ =>
    }
  }

  /** In every such run, an instruction that makes the main chain leave the branch it was on, so that the old chain
      is no longer a prefix of the new one, strictly increases the main work. */
  lemma BranchChangeIsHeavier(env: Env, c: CommittedBlockHeader, lamports: Lamports, calls: seq<Call>, i: nat)
    requires PromotionsSupported(env, c, lamports, calls) && i < |calls|
    ensures var before, after := TracedRun(env, c, lamports, calls[..i]), TracedRun(env, c, lamports, calls[..i + 1]);
            || before.history.chain <= after.history.chain
            || Val(before.state.main.chainWork) < Val(after.state.main.chainWork)
  {
    hide Executed;
    PrefixSupported(env, c, lamports, calls, i);
    RefinesRun(env, c, lamports, calls[..i]);
    assert calls[..i + 1][..i] == calls[..i];
    ExtendsOrOutweighs(env, c, TracedRun(env, c, lamports, calls[..i]), calls[i]);
  }

  // ---------------------------------------------------------------- reading the ring

  /** After every such run, the ghost chain is a valid header chain from the initial header whose last header the
      program calls its tip, and a supplied header passes the commitment check exactly when it is that chain's
      header at its own height and the height lies in (highWater - 250, tip]. */
  lemma RingRefinesChain(env: Env, c: CommittedBlockHeader, lamports: Lamports, calls: seq<Call>,
                         supplied: CommittedBlockHeader)
    requires PromotionsSupported(env, c, lamports, calls)
    ensures var t := TracedRun(env, c, lamports, calls);
            var (m, h) := (t.state.main, t.history);
            && ValidChain(env.blockHash, h.chain) && h.chain[0] == c
            && TipMatches(env.blockHash, m, Last(h.chain))
            && m.startHeight <= h.highWater < m.startHeight + 250
            && h.highWater - 250 < m.blockHeight <= h.highWater
            && (m.CommitmentAt(supplied.blockheight) == Ok(CommitHash(supplied))
                <==> && PRUNING_FACTOR <= m.blockHeight
                     && OnChain(h.chain, supplied) && supplied.blockheight > h.highWater - 250)
  {
    hide Executed;
    RefinesRun(env, c, lamports, calls);
    var t := TracedRun(env, c, lamports, calls);
    ReadsExactlyTheChain(t.state.main, t.history.chain, t.history.highWater, supplied);
  }
}
