/** utils.rs, second half: what makes a header a valid successor of a committed one. */
module Headers {
  import opened Bytes
  import opened Results
  import opened Structs
  import opened NBits
  import opened Median
  import ArrayUtils

  const DIFF_ADJUSTMENT_INTERVAL: u32 := 2016
  const MAX_FUTURE_BLOCKTIME: u32 := 4 * 60 * 60

  predicate ShouldDiffAdjust(blockHeight: u32) {
    blockHeight % DIFF_ADJUSTMENT_INTERVAL == 0
  }

  // ---------------------------------------------------------------- specification

  /** The nBits a successor of prev must carry. */
  ghost function RequiredNbits(prev: CommittedBlockHeader): Result<nat> {
    if prev.blockheight == U32_MAX then Err(Panic)
    else if !ShouldDiffAdjust(prev.blockheight + 1) then Ok(prev.header.nbits)
    else if SizeOf(prev.header.nbits) > 32 then Err(Panic)
    else NewNbits(prev.header.timestamp, prev.lastDiffAdjustment, Decode(prev.header.nbits))
  }

  ghost function AddWork(total: U256, work: nat): (sum: U256)
    ensures Val(sum) == Wrap(Val(total) + work)
  {
    ModulusIsPow();
    Enc(Wrap(Val(total) + work), 32)
  }

  /** The committed form of a header accepted on top of prev. */
  ghost function Successor(prev: CommittedBlockHeader, header: BlockHeader, work: nat): CommittedBlockHeader
    requires prev.blockheight < U32_MAX
  {
    CommittedBlockHeader(
      AddWork(prev.chainWork, work),
      header,
      if ShouldDiffAdjust(prev.blockheight + 1) then header.timestamp else prev.lastDiffAdjustment,
      prev.blockheight + 1,
      prev.prevBlockTimestamps[1..] + [prev.header.timestamp])
  }

  /** verify_header: the first failing check decides the error. */
  ghost function Verified(bh: BlockHash, header: BlockHeader, topic: Account, prev: CommittedBlockHeader, now: u32)
    : (r: Result<CommittedBlockHeader>)
  {
    var required :- RequiredNbits(prev);
    :- Require(header.nbits == required, ErrDiffTarget);
    :- Require(topic == HeaderTopic(bh(header)), InvalidHeaderTopic);
    :- Require(SizeOf(header.nbits) <= 32, Panic);
    :- Require(Val(Reversed(bh(header))) <= Decode(header.nbits), ErrPowTooLow);
    :- Require(header.timestamp > MedianOf(prev.prevBlockTimestamps, prev.header.timestamp), ErrTimestampTooLow);
    :- Require(now + MAX_FUTURE_BLOCKTIME <= U32_MAX, Panic);
    :- Require(header.timestamp < now + MAX_FUTURE_BLOCKTIME, ErrTimestampTooHigh);
    var work :- Difficulty(Decode(header.nbits));
    Ok(Successor(prev, header, work))
  }

  // ---------------------------------------------------------------- implementation

  method HasCorrectDifficultyTarget(prev: CommittedBlockHeader, currentNbits: u32) returns (r: Result<bool>)
    ensures RequiredNbits(prev).Err? ==> r == Err(RequiredNbits(prev).error)
    ensures RequiredNbits(prev).Ok? ==> r == Ok(currentNbits == RequiredNbits(prev).value)
  {
    if prev.blockheight == U32_MAX {
      return Err(Panic);
    }
    if !ShouldDiffAdjust(prev.blockheight + 1) {
      return Ok(currentNbits == prev.header.nbits);
    }
    var decoded :- NbitsToTarget(prev.header.nbits);
    var prevTarget := new byte[32](i requires 0 <= i < 32 => decoded[i]);
    assert prevTarget[..] == decoded;
    var newNbits :- ComputeNewNbits(prev.header.timestamp, prev.lastDiffAdjustment, prevTarget);
    r := Ok(currentNbits == newNbits);
  }

  /** The shifted window: drop the oldest timestamp, append the latest. */
  method SlideWindow(stamps: array<u32>, latest: u32)
    requires stamps.Length == 10
    modifies stamps
    ensures stamps[..] == old(stamps[..])[1..] + [latest]
  {
    for i := 1 to 10
      invariant forall j :: 0 <= j < i - 1 ==> stamps[j] == old(stamps[j + 1])
      invariant forall j :: i - 1 <= j < 10 ==> stamps[j] == old(stamps[j])
    {
      stamps[i - 1] := stamps[i];
    }
    stamps[9] := latest;
  }

  /** The caller's copy of the last committed header, which verify_header turns into the next one. */
  class LastHeader {
    const chainWork: array<byte>
    var header: BlockHeader
    var lastDiffAdjustment: u32
    var blockheight: u32
    const prevBlockTimestamps: array<u32>

    ghost predicate Valid() { chainWork.Length == 32 && prevBlockTimestamps.Length == 10 }

    function View(): CommittedBlockHeader
      requires Valid()
      reads this, chainWork, prevBlockTimestamps
    {
      CommittedBlockHeader(chainWork[..], header, lastDiffAdjustment, blockheight, prevBlockTimestamps[..])
    }

    constructor Load(c: CommittedBlockHeader)
      ensures Valid() && fresh(chainWork) && fresh(prevBlockTimestamps) && View() == c
    {
      chainWork := new byte[32](i requires 0 <= i < 32 => c.chainWork[i]);
      prevBlockTimestamps := new u32[10](i requires 0 <= i < 10 => c.prevBlockTimestamps[i]);
      header, lastDiffAdjustment, blockheight := c.header, c.lastDiffAdjustment, c.blockheight;
      new;
      assert chainWork[..] == c.chainWork && prevBlockTimestamps[..] == c.prevBlockTimestamps;
    }
  }

  /** On success the last header has become the next one and its hash is returned. */
  method VerifyHeader(bh: BlockHash, header: BlockHeader, topic: Account, last: LastHeader, now: u32)
    returns (r: Result<U256>)
    requires last.Valid()
    modifies last, last.chainWork, last.prevBlockTimestamps
    ensures r.Err? ==> Verified(bh, header, topic, old(last.View()), now) == Err(r.error)
    ensures r.Ok? ==> Verified(bh, header, topic, old(last.View()), now) == Ok(last.View()) && r.value == bh(header)
  {
    hide Decode, MedianOf, Reversed, Val, NewNbits, Wrap;
    var nbitsOk :- HasCorrectDifficultyTarget(last.View(), header.nbits);
    if !nbitsOk {
      return Err(ErrDiffTarget);
    }
    if ShouldDiffAdjust(last.blockheight + 1) {
      last.lastDiffAdjustment := header.timestamp;
    }
    var lastBlockHash := bh(header);
    if topic != HeaderTopic(lastBlockHash) {
      return Err(InvalidHeaderTopic);
    }
    var target :- NbitsToTarget(header.nbits);
    var powOk := ArrayUtils.LteArr(Reversed(lastBlockHash), target);
    if !powOk {
      return Err(ErrPowTooLow);
    }
    var prevBlockTimestamp := last.header.timestamp;
    var lateEnough := IsLargerThanMedian(last.prevBlockTimestamps[..], prevBlockTimestamp, header.timestamp);
    if !lateEnough {
      return Err(ErrTimestampTooLow);
    }
    if now + MAX_FUTURE_BLOCKTIME > U32_MAX {
      return Err(Panic);
    }
    if header.timestamp >= now + MAX_FUTURE_BLOCKTIME {
      return Err(ErrTimestampTooHigh);
    }
    last.header := header;
    last.blockheight := last.blockheight + 1;
    SlideWindow(last.prevBlockTimestamps, prevBlockTimestamp);
    var work :- GetDifficulty(target);
    ArrayUtils.AddInPlace(last.chainWork, work);
    ValInjective(last.chainWork[..], AddWork(old(last.chainWork[..]), Val(work)));
    r := Ok(lastBlockHash);
  }
}
