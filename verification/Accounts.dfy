/** state.rs: the main account with its ring of commitments, and the fork accounts. */
module Accounts {
  import opened Bytes
  import opened Results
  import opened Structs

  const PRUNING_FACTOR: u32 := 250

  type Slots = s: seq<Commitment> | |s| == 250 witness seq(250, _ => NoCommitment)

  /** Where a height lives in the ring that starts at startHeight; 250 when it lives nowhere. */
  function Position(startHeight: u32, height: u32): (pos: nat)
    ensures pos <= 250
  {
    if startHeight <= height then
      (if height - startHeight >= PRUNING_FACTOR then 0 else height - startHeight)
    else
      (if startHeight - height >= PRUNING_FACTOR then 250 else PRUNING_FACTOR - (startHeight - height))
  }

  /** The stored bytes of the main account. */
  datatype MainView = MainView(
    startHeight: u32,
    lastDiffAdjustment: u32,
    blockHeight: u32,
    totalBlocks: u32,
    forkCounter: u64,
    tipCommitHash: Commitment,
    tipBlockHash: U256,
    chainWork: U256,
    blockCommitments: Slots)
  {
    /** get_commitment; below height 250 its subtraction panics. */
    function CommitmentAt(height: u32): Result<Commitment> {
      if height > blockHeight then Ok(NoCommitment)
      else if blockHeight < PRUNING_FACTOR then Err(Panic)
      else if height <= blockHeight - PRUNING_FACTOR then Ok(NoCommitment)
      else
        var pos := Position(startHeight, height);
        Ok(if pos == 250 then NoCommitment else blockCommitments[pos])
    }

    /** store_block_commitment; a height older than the ring is dropped in silence. */
    function Stored(height: u32, commitment: Commitment): Result<MainView> {
      var pos := Position(startHeight, height);
      if pos == 250 then Ok(this)
      else if totalBlocks == U32_MAX then Err(Panic)
      else Ok(this.(
        blockCommitments := blockCommitments[pos := commitment],
        startHeight := if pos == 0 then height else startHeight,
        totalBlocks := totalBlocks + 1))
    }
  }

  /** The stored bytes of a fork account. */
  datatype ForkView = ForkView(
    initialized: u32,
    startHeight: u32,
    length: u32,
    tipCommitHash: Commitment,
    tipBlockHash: U256,
    blockCommitments: Slots)
  {
    function Stored(commitment: Commitment): Result<ForkView> {
      if length >= PRUNING_FACTOR then Err(Panic)
      else Ok(this.(blockCommitments := blockCommitments[length := commitment], length := length + 1))
    }
  }

  const ZERO: U256 := [
    0, 0, 0, 0, 0, 0, 0, 0, 0, 0, 0, 0, 0, 0, 0, 0,
    0, 0, 0, 0, 0, 0, 0, 0, 0, 0, 0, 0, 0, 0, 0, 0
  ]

  /** A freshly created, zeroed fork account. */
  function EmptyFork(): ForkView {
    ForkView(0, 0, 0, NoCommitment, ZERO, seq(250, _ => NoCommitment))
  }

  /** The main account after `initialize`. */
  function InitialMain(bh: BlockHash, c: CommittedBlockHeader): MainView {
    MainView(c.blockheight, c.lastDiffAdjustment, c.blockheight, 1, 0, CommitHash(c), bh(c.header), c.chainWork,
             EmptyFork().blockCommitments[0 := CommitHash(c)])
  }

  class MainState {
    var startHeight: u32
    var lastDiffAdjustment: u32
    var blockHeight: u32
    var totalBlocks: u32
    var forkCounter: u64
    var tipCommitHash: Commitment
    var tipBlockHash: U256
    var chainWork: U256
    const blockCommitments: array<Commitment>

    ghost predicate Valid() { blockCommitments.Length == 250 }

    function View(): MainView
      requires Valid()
      reads this, blockCommitments
    {
      MainView(startHeight, lastDiffAdjustment, blockHeight, totalBlocks, forkCounter,
               tipCommitHash, tipBlockHash, chainWork, blockCommitments[..])
    }

    constructor Load(v: MainView)
      ensures Valid() && fresh(blockCommitments) && View() == v
    {
      startHeight, lastDiffAdjustment, blockHeight := v.startHeight, v.lastDiffAdjustment, v.blockHeight;
      totalBlocks, forkCounter := v.totalBlocks, v.forkCounter;
      tipCommitHash, tipBlockHash, chainWork := v.tipCommitHash, v.tipBlockHash, v.chainWork;
      blockCommitments := new Commitment[250](i requires 0 <= i < 250 => v.blockCommitments[i]);
      new;
      assert blockCommitments[..] == v.blockCommitments;
    }

    /** `initialize` on a zeroed account. */
    constructor Initialize(bh: BlockHash, c: CommittedBlockHeader)
      ensures Valid() && fresh(blockCommitments) && View() == InitialMain(bh, c)
    {
      lastDiffAdjustment, blockHeight, chainWork := c.lastDiffAdjustment, c.blockheight, c.chainWork;
      forkCounter := 0;
      startHeight, totalBlocks := c.blockheight, 1;
      tipBlockHash, tipCommitHash := bh(c.header), CommitHash(c);
      blockCommitments := new Commitment[250](_ => NoCommitment);
      new;
      blockCommitments[0] := CommitHash(c);
      assert blockCommitments[..] == EmptyFork().blockCommitments[0 := CommitHash(c)];
    }

    method GetCommitment(height: u32) returns (r: Result<Commitment>)
      requires Valid()
      ensures r == View().CommitmentAt(height)
    {
      if height > blockHeight {
        return Ok(NoCommitment);
      }
      if blockHeight < PRUNING_FACTOR {
        return Err(Panic);
      }
      if height <= blockHeight - PRUNING_FACTOR {
        return Ok(NoCommitment);
      }
      var pos := Position(startHeight, height);
      if pos == 250 {
        return Ok(NoCommitment);
      }
      r := Ok(blockCommitments[pos]);
    }

    /** Ok(false) when the height has no slot. */
    method StoreBlockCommitment(height: u32, commitment: Commitment) returns (r: Result<bool>)
      requires Valid()
      modifies this, blockCommitments
      ensures r.Err? ==> old(View()).Stored(height, commitment) == Err(r.error)
      ensures r.Ok? ==> old(View()).Stored(height, commitment) == Ok(View())
      ensures r.Err? <==> height > old(startHeight) - 250 && old(totalBlocks) == U32_MAX
      ensures r.Ok? ==> r.value == (height > old(startHeight) - 250)
      ensures r.Ok? && r.value ==>
                var turns := height >= old(startHeight) + 250;
                && blockCommitments[..]
                   == old(blockCommitments[..])[if turns then 0 else (height - old(startHeight)) % 250 := commitment]
                && startHeight == (if turns then height else old(startHeight))
                && totalBlocks == old(totalBlocks) + 1
    {
      var position := Position(startHeight, height);
      if position == 250 {
        return Ok(false);
      }
      blockCommitments[position] := commitment;
      if position == 0 {
        startHeight := height;
      }
      if totalBlocks == U32_MAX {
        return Err(Panic);
      }
      totalBlocks := totalBlocks + 1;
      assert blockCommitments[..] == old(blockCommitments[..])[position := commitment];
      r := Ok(true);
    }
  }

  class ForkState {
    var initialized: u32
    var startHeight: u32
    var length: u32
    var tipCommitHash: Commitment
    var tipBlockHash: U256
    const blockCommitments: array<Commitment>

    ghost predicate Valid() { blockCommitments.Length == 250 }

    function View(): ForkView
      requires Valid()
      reads this, blockCommitments
    {
      ForkView(initialized, startHeight, length, tipCommitHash, tipBlockHash, blockCommitments[..])
    }

    constructor Load(v: ForkView)
      ensures Valid() && fresh(blockCommitments) && View() == v
    {
      initialized, startHeight, length := v.initialized, v.startHeight, v.length;
      tipCommitHash, tipBlockHash := v.tipCommitHash, v.tipBlockHash;
      blockCommitments := new Commitment[250](i requires 0 <= i < 250 => v.blockCommitments[i]);
      new;
      assert blockCommitments[..] == v.blockCommitments;
    }

    /** Panics on the 251st commitment. */
    method StoreBlockCommitment(commitment: Commitment) returns (r: Result<()>)
      requires Valid()
      modifies this`length, blockCommitments
      ensures r.Err? ==> old(View()).Stored(commitment) == Err(r.error)
      ensures r.Ok? ==> old(View()).Stored(commitment) == Ok(View())
      ensures r.Ok? <==> old(length) < 250
      ensures r.Ok? ==> length == old(length) + 1
                        && blockCommitments[..] == old(blockCommitments[..])[old(length) := commitment]
    {
      if length >= PRUNING_FACTOR {
        return Err(Panic);
      }
      blockCommitments[length] := commitment;
      assert blockCommitments[..] == old(blockCommitments[..])[length := commitment];
      length := length + 1;
      r := Ok(());
    }
  }
}
