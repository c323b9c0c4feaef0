/** relay_program_interaction.rs, `reconstruct_commited_header`: rebuilding a committed header off-chain. */
module Relayer {
  import opened Bytes
  import opened Results
  import opened Structs
  import opened NBits
  import opened Accounts
  import opened Relay
  import opened Chains
  import opened Soundness
  import opened Runs

  /** What the Bitcoin node answers: a block hash for a height, a header for a block hash. */
  datatype Node = Node(hashes: map<nat, U256>, headers: map<U256, BlockHeader>) {
    predicate Has(height: nat) { height in hashes && hashes[height] in headers }

    function At(height: nat): BlockHeader
      requires Has(height)
    {
      headers[hashes[height]]
    }

    ghost predicate HasTime(height: int, timestamp: u32) {
      0 <= height && Has(height) && At(height).timestamp == timestamp
    }

    ghost predicate Stores(bh: BlockHash, height: nat, header: BlockHeader) {
      Has(height) && hashes[height] == bh(header) && At(height) == header
    }

    /** Everything the walk back from a block asks for is there. */
    predicate Serves(hash: U256, height: u32) {
      && hash in headers
      && 10 <= height
      && forall h :: height - 10 <= h < height ==> Has(h)
    }
  }

  ghost predicate IsReconstructed(node: Node, hash: U256, height: u32, lastDiffAdjustment: u32, r: CommittedBlockHeader)
    requires node.Serves(hash, height)
  {
    && r == CommittedBlockHeader(ZERO, node.headers[hash], lastDiffAdjustment, height, r.prevBlockTimestamps)
    && WalkedBack(node, height, r.prevBlockTimestamps)
  }

  ghost predicate WalkedBack(node: Node, height: u32, window: Window) {
    forall k :: 0 <= k < 10 ==> node.HasTime(height - 10 + k, window[k])
  }

  /** None when the node lacks an answer or the walk would pass below height zero. */
  method ReconstructCommitedHeader(node: Node, hash: U256, height: u32, lastDiffAdjustment: u32)
    returns (r: Option<CommittedBlockHeader>)
    ensures r.Some? <==> node.Serves(hash, height)
    ensures r.Some? ==> IsReconstructed(node, hash, height, lastDiffAdjustment, r.value)
  {
    if hash !in node.headers {
      return None;
    }
    var prevBlockTimestamps := new u32[10](_ => 0);
    for i := 0 to 10
      invariant i <= height
      invariant forall h :: height - i <= h < height ==> node.Has(h)
      invariant forall k :: 10 - i <= k < 10 ==> prevBlockTimestamps[k] == node.At(height - 10 + k).timestamp
    {
      if height < i + 1 || !node.Has(height - i - 1) {
        return None;
      }
      prevBlockTimestamps[9 - i] := node.At(height - i - 1).timestamp;
    }
    r := Some(CommittedBlockHeader(ZERO, node.headers[hash], lastDiffAdjustment, height, prevBlockTimestamps[..]));
  }

  /** The node has the chain's headers at their heights. */
  ghost predicate Follows(bh: BlockHash, node: Node, chain: Chain)
    requires chain != []
  {
    forall i :: 0 <= i < |chain| ==> node.Stores(bh, chain[0].blockheight + i, chain[i].header)
  }

  /** The entries of the initial window that the i-th header's window still shows are the node's own. */
  ghost predicate TrueWindow(node: Node, first: CommittedBlockHeader, i: nat) {
    forall k :: i <= k < 10 ==> node.HasTime(first.blockheight - 10 + k, first.prevBlockTimestamps[k])
  }

  /** The window the program accumulated shows what walking back finds, except for entries of the initial window. */
  lemma WindowOnNode(bh: BlockHash, chain: Chain, node: Node, i: nat, k: nat)
    requires ValidChain(bh, chain) && i < |chain| && k < 10 && Follows(bh, node, chain)
    ensures i + k < 10 ==> chain[i].prevBlockTimestamps[k] == chain[0].prevBlockTimestamps[i + k]
    ensures i + k >= 10 ==> node.HasTime(chain[0].blockheight + i - 10 + k, chain[i].prevBlockTimestamps[k])
  {
    hide Links;
    WindowIsHistory(bh, chain, i);
    if i + k >= 10 {
      assert node.Stores(bh, chain[0].blockheight + (i + k - 10), chain[i + k - 10].header);
      TimestampAt(chain[..i], i + k - 10);
    }
  }

  /** What walking back from a block of the chain rebuilds is the committed header if and only if that one carries no
      work, the supplied adjustment time is its own, and the entries of the initial window it still shows are the
      true ones. From the tenth header on nothing is asked of that window. */
  lemma ReconstructedMatchesExactly(bh: BlockHash, chain: Chain, node: Node, i: nat, lastDiffAdjustment: u32)
    requires ValidChain(bh, chain) && i < |chain| && Follows(bh, node, chain)
    requires node.Serves(bh(chain[i].header), chain[i].blockheight)
    ensures IsReconstructed(node, bh(chain[i].header), chain[i].blockheight, lastDiffAdjustment, chain[i]) <==>
              && Val(chain[i].chainWork) == 0
              && lastDiffAdjustment == chain[i].lastDiffAdjustment
              && TrueWindow(node, chain[0], i)
  {
    hide Links, Val;
    var h0, c := chain[0].blockheight, chain[i];
    ChainHeights(bh, chain, i);
    assert node.Stores(bh, h0 + i, c.header);
    ValZeros(ZERO);
    if Val(c.chainWork) == 0 {
      ValInjective(c.chainWork, ZERO);
    }
    WindowMatchesExactly(bh, chain, node, i);
  }

  lemma WindowMatchesExactly(bh: BlockHash, chain: Chain, node: Node, i: nat)
    requires ValidChain(bh, chain) && i < |chain| && Follows(bh, node, chain)
    ensures WalkedBack(node, chain[i].blockheight, chain[i].prevBlockTimestamps) <==> TrueWindow(node, chain[0], i)
  {
    hide Links, ValidChain, Follows;
    var first, c := chain[0], chain[i];
    ChainHeights(bh, chain, i);
    if WalkedBack(node, c.blockheight, c.prevBlockTimestamps) {
      forall k | i <= k < 10
        ensures node.HasTime(first.blockheight - 10 + k, first.prevBlockTimestamps[k])
      {
        WindowOnNode(bh, chain, node, i, k - i);
        assert node.HasTime(c.blockheight - 10 + (k - i), c.prevBlockTimestamps[k - i]);
      }
    }
    if TrueWindow(node, first, i) {
      forall k | 0 <= k < 10
        ensures node.HasTime(c.blockheight - 10 + k, c.prevBlockTimestamps[k])
      {
        WindowOnNode(bh, chain, node, i, k);
        assert i + k < 10 ==> node.HasTime(first.blockheight - 10 + (i + k), first.prevBlockTimestamps[i + k]);
      }
    }
  }

  /** So any header from the tenth on is rebuilt but for its work and the supplied adjustment time, whatever window
      `initialize` was given. */
  lemma LaterHeadersAreRebuilt(bh: BlockHash, chain: Chain, node: Node, i: nat, lastDiffAdjustment: u32,
                               r: CommittedBlockHeader)
    requires ValidChain(bh, chain) && 10 <= i < |chain| && Follows(bh, node, chain)
    requires node.Serves(bh(chain[i].header), chain[i].blockheight)
    requires IsReconstructed(node, bh(chain[i].header), chain[i].blockheight, lastDiffAdjustment, r)
    ensures r == chain[i].(chainWork := ZERO, lastDiffAdjustment := lastDiffAdjustment)
  {
    hide Links;
    var c := chain[i];
    ChainHeights(bh, chain, i);
    assert node.Stores(bh, chain[0].blockheight + i, c.header);
    WindowMatchesExactly(bh, chain, node, i);
    forall k | 0 <= k < 10
      ensures r.prevBlockTimestamps[k] == c.prevBlockTimestamps[k]
    {
      assert node.HasTime(c.blockheight - 10 + k, r.prevBlockTimestamps[k]);
      assert node.HasTime(c.blockheight - 10 + k, c.prevBlockTimestamps[k]);
    }
  }

  lemma WorkAfterInitial(bh: BlockHash, chain: Chain, i: nat)
    requires ValidChain(bh, chain) && 0 < i < |chain|
    requires Headroom(chain[0]) && Decode(chain[0].header.nbits) <= MaxTarget()
    ensures chain[i].chainWork != ZERO
  {
    ValZeros(ZERO);
    DifficultyFloor(bh, chain, i);
    WorkGrows(bh, chain, i - 1);
  }

  /** Every header after the initial one carries work, so in no run does a rebuilt header pass the commitment check at
      any height but the initial one. */
  lemma RebuiltHeadersNeverPass(env: Env, c: CommittedBlockHeader, lamports: Lamports, calls: seq<Call>,
                                node: Node, hash: U256, height: u32, lastDiffAdjustment: u32, r: CommittedBlockHeader)
    requires Headroom(c) && Decode(c.header.nbits) <= MaxTarget()
    requires node.Serves(hash, height) && IsReconstructed(node, hash, height, lastDiffAdjustment, r)
    requires height != c.blockheight
    ensures Run(env, InitialState(env, c, lamports), calls).main.CommitmentAt(height) != Ok(CommitHash(r))
  {
    hide Links, Decode, MaxTarget, Val, Run, Headroom;
    var m := Run(env, InitialState(env, c, lamports), calls).main;
    if m.CommitmentAt(height) == Ok(CommitHash(r)) {
      SoundRun(env, c, lamports, calls);
      ReadIsAnchored(env.blockHash, c, m, height, r);
      var chain: Chain :| ValidChain(env.blockHash, chain) && chain[0] == c && Last(chain) == r;
      ChainHeights(env.blockHash, chain, |chain| - 1);
      WorkAfterInitial(env.blockHash, chain, |chain| - 1);
    }
  }
}
