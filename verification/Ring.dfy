/** What the 250 slots of the main account stand for, given the chain and the highest height ever stored. */
module Ring {
  import opened Bytes
  import opened Results
  import opened Structs
  import opened Accounts
  import opened Chains

  // ---------------------------------------------------------------- slots

  /** Heights up to the ring's next turn go to the slot their distance from its start names, modulo 250; older ones
      are dropped. Only a full counter stops a store, and only the next turn moves the start. */
  lemma StoredExactly(m: MainView, height: u32, k: Commitment)
    requires height <= m.startHeight + 250
    ensures height <= m.startHeight - 250 ==> m.Stored(height, k) == Ok(m)
    ensures height > m.startHeight - 250 && m.totalBlocks == U32_MAX ==> m.Stored(height, k) == Err(Panic)
    ensures height > m.startHeight - 250 && m.totalBlocks < U32_MAX ==>
              m.Stored(height, k)
              == Ok(m.(blockCommitments := m.blockCommitments[(height - m.startHeight) % 250 := k],
                       startHeight := if height == m.startHeight + 250 then height else m.startHeight,
                       totalBlocks := m.totalBlocks + 1))
  {}

  /** The header is in the slot its height names. */
  ghost predicate InSlot(m: MainView, c: CommittedBlockHeader) {
    && m.startHeight - 250 < c.blockheight < m.startHeight + 250
    && m.blockCommitments[(c.blockheight - m.startHeight) % 250] == CommitHash(c)
  }

  /** The header passes the commitment check: it is in its slot, not above the tip, not 250 below. */
  ghost predicate Passes(m: MainView, c: CommittedBlockHeader) {
    250 <= m.blockHeight && m.blockHeight - 250 < c.blockheight <= m.blockHeight && InSlot(m, c)
  }

  /** What a store does to the slots less than 250 heights below it, and to its own. */
  lemma StoreInSlot(m: MainView, c: CommittedBlockHeader, m': MainView, x: CommittedBlockHeader)
    requires c.blockheight <= m.startHeight + 250 && m.Stored(c.blockheight, CommitHash(c)) == Ok(m')
    requires c.blockheight - 250 < x.blockheight <= c.blockheight
    ensures InSlot(m', x) <==>
              if x.blockheight < c.blockheight then InSlot(m, x) else x == c && c.blockheight > m.startHeight - 250
  {
    StoredExactly(m, c.blockheight, CommitHash(c));
  }

  lemma ReadExactly(m: MainView, c: CommittedBlockHeader)
    requires m.blockHeight < m.startHeight + 250
    ensures m.CommitmentAt(c.blockheight) == Ok(CommitHash(c)) <==> Passes(m, c)
    ensures c.blockheight <= m.blockHeight && m.blockHeight < 250 ==> m.CommitmentAt(c.blockheight) == Err(Panic)
    ensures m.blockHeight >= 250 || c.blockheight > m.blockHeight ==> m.CommitmentAt(c.blockheight).Ok?
  {}

  ghost predicate Counted(chain: Chain) {
    && chain != []
    && forall i :: 0 <= i < |chain| ==> chain[i].blockheight == chain[0].blockheight + i
  }

  lemma ValidIsCounted(bh: BlockHash, chain: Chain)
    requires ValidChain(bh, chain)
    ensures Counted(chain)
  {
    forall i | 0 <= i < |chain|
      ensures chain[i].blockheight == chain[0].blockheight + i
    {
      ChainHeights(bh, chain, i);
    }
  }

  /** The one height in (highWater - 250, highWater] whose slot is pos. */
  ghost function HeightAt(startHeight: int, highWater: int, pos: nat): int {
    if startHeight + pos <= highWater then startHeight + pos else startHeight + pos - 250
  }

  /** What the slot of a height in the ring's range holds: nothing, the chain's header, or a stale one of that
      height. Up to the floor, any header of the height will do. */
  ghost predicate SlotHolds(c: Commitment, height: int, chain: Chain, floor: int)
    requires chain != []
  {
    var index := height - chain[0].blockheight;
    if index < 0 then c == NoCommitment
    else if floor < height && index < |chain| then c == CommitHash(chain[index])
    else c.CommitHash? && c.committed.blockheight == height
  }

  /** The ring represents the chain above a floor. */
  ghost predicate RingHoldsAbove(m: MainView, chain: Chain, highWater: nat, floor: int) {
    && Counted(chain)
    && m.startHeight <= highWater < m.startHeight + 250
    && highWater - 250 <= Last(chain).blockheight <= highWater <= U32_MAX
    && forall p :: 0 <= p < 250 ==>
         SlotHolds(m.blockCommitments[p], HeightAt(m.startHeight, highWater, p), chain, floor)
  }

  /** The ring represents the chain; highWater may lie above the tip after a reorganisation. */
  ghost predicate RingHolds(m: MainView, chain: Chain, highWater: nat) {
    RingHoldsAbove(m, chain, highWater, highWater - 250) && highWater - 250 < Last(chain).blockheight
  }

  ghost predicate OnChain(chain: Chain, c: CommittedBlockHeader)
    requires chain != []
  {
    var index := c.blockheight - chain[0].blockheight;
    0 <= index < |chain| && chain[index] == c
  }

  ghost function MaxOf(a: nat, b: nat): nat { if a < b then b else a }

  /** The slot of a height holds this header. */
  ghost predicate Reads(m: MainView, c: CommittedBlockHeader) {
    var pos := Position(m.startHeight, c.blockheight);
    pos < 250 && m.blockCommitments[pos] == CommitHash(c)
  }

  /** Each header of the chain within range of the high-water mark is what the ring holds at its height. */
  ghost predicate AncestryCommitted(m: MainView, ancestry: Chain, highWater: nat) {
    forall i :: 0 <= i < |ancestry| && ancestry[i].blockheight > highWater - 250 ==> Reads(m, ancestry[i])
  }

  /** Nothing off the chain is left at or below its last header that a tip at this height, or a later one after a
      reorganisation, could read. */
  ghost predicate ClearBelow(m: MainView, ancestry: Chain, tip: nat)
    requires ancestry != []
  {
    var base: int := Last(ancestry).blockheight;
    forall c: CommittedBlockHeader ::
      Reads(m, c) && c.blockheight <= base && (c.blockheight > tip - 250 || c.blockheight <= base - 250) ==>
        OnChain(ancestry, c)
  }

  /** Where the ring represents the current chain, holding the ancestry in the coming window leaves it clear. */
  lemma CommittedIsClear(m: MainView, chain: Chain, highWater: nat, ancestry: Chain, tip: nat)
    requires RingHolds(m, chain, highWater)
    requires Counted(ancestry) && ancestry[0].blockheight == chain[0].blockheight
    requires Last(ancestry).blockheight <= highWater
    requires AncestryCommitted(m, ancestry, MaxOf(highWater, tip))
    ensures ClearBelow(m, ancestry, tip)
  {
    var base: int := Last(ancestry).blockheight;
    forall c: CommittedBlockHeader | Reads(m, c) && c.blockheight <= base
                                     && (c.blockheight > tip - 250 || c.blockheight <= base - 250)
      ensures OnChain(ancestry, c)
    {
      var pos := Position(m.startHeight, c.blockheight);
      assert SlotHolds(m.blockCommitments[pos], HeightAt(m.startHeight, highWater, pos), chain, highWater - 250);
      var index := c.blockheight - ancestry[0].blockheight;
      assert Reads(m, ancestry[index]);
    }
  }

  // ---------------------------------------------------------------- keeping it

  lemma InitialRing(bh: BlockHash, c: CommittedBlockHeader)
    ensures RingHolds(InitialMain(bh, c), [c], c.blockheight)
  {}

  /** Cutting the chain back inside the window leaves the cut headers as stale slots. */
  lemma CutRing(m: MainView, chain: Chain, highWater: nat, n: nat)
    requires RingHolds(m, chain, highWater) && 0 < n <= |chain|
    requires highWater - 250 < chain[n - 1].blockheight
    ensures RingHolds(m, chain[..n], highWater)
  {}

  /** Storing the tip's successor keeps the ring, wrapping it round when it is full. */
  lemma StoreInRing(m: MainView, chain: Chain, highWater: nat, floor: int, c: CommittedBlockHeader, m': MainView)
    requires RingHoldsAbove(m, chain, highWater, floor)
    requires c.blockheight == Last(chain).blockheight + 1
    requires m.Stored(c.blockheight, CommitHash(c)) == Ok(m')
    ensures RingHoldsAbove(m', chain + [c], MaxOf(highWater, c.blockheight), floor)
  {}

  /** Stores only ever lift the floor to the window's lower end. */
  lemma RaiseFloor(m: MainView, chain: Chain, highWater: nat, floor: int)
    requires RingHoldsAbove(m, chain, highWater, floor)
    requires floor <= highWater - 250 < Last(chain).blockheight
    ensures RingHolds(m, chain, highWater)
  {}

  /** Another branch takes the chain's place when its headers in the coming window are what the ring holds. */
  lemma RebaseRing(m: MainView, chain: Chain, highWater: nat, ancestry: Chain, highWater': nat)
    requires RingHolds(m, chain, highWater) && highWater <= highWater'
    requires Counted(ancestry) && ancestry[0].blockheight == chain[0].blockheight
    requires highWater' - 250 <= Last(ancestry).blockheight <= highWater
    requires AncestryCommitted(m, ancestry, highWater')
    ensures RingHoldsAbove(m, ancestry, highWater, highWater' - 250)
  {
    forall p | 0 <= p < 250
      ensures SlotHolds(m.blockCommitments[p], HeightAt(m.startHeight, highWater, p), ancestry, highWater' - 250)
    {
      var height := HeightAt(m.startHeight, highWater, p);
      assert SlotHolds(m.blockCommitments[p], height, chain, highWater - 250);
      var index := height - ancestry[0].blockheight;
      if highWater' - 250 < height && 0 <= index < |ancestry| {
        assert Reads(m, ancestry[index]);
      }
    }
  }

  // ---------------------------------------------------------------- reading it

  /** A supplied header passes the commitment check exactly when it is the chain's, at its own height, within the
      ring. */
  lemma ReadsExactlyTheChain(m: MainView, chain: Chain, highWater: nat, c: CommittedBlockHeader)
    requires RingHolds(m, chain, highWater) && m.blockHeight == Last(chain).blockheight
    ensures m.CommitmentAt(c.blockheight) == Ok(CommitHash(c))
            <==> PRUNING_FACTOR <= m.blockHeight && OnChain(chain, c) && c.blockheight > highWater - 250
  {}
}
