/** Where every header hashes to zero, proof of work is free, and the troublesome runs can be written down. */
module ZeroHash {
  import opened Bytes
  import opened Structs
  import opened NBits
  import opened NBitsTheorems
  import opened Median
  import opened Accounts
  import opened Relay
  import opened Chains
  import opened Loops
  import opened Soundness
  import opened DisplacedBase
  import Headers

  const NOW: u32 := 10000

  /** Every header hashes to the same zero bytes, so every proof of work and every parent link holds. */
  ghost predicate HashesToZero(env: Env, zero: U256) {
    (forall i :: 0 <= i < 32 ==> zero[i] == 0) && forall h :: env.blockHash(h) == zero
  }

  ghost function HeaderOf(zero: U256, d: Digest, t: u32): BlockHeader {
    BlockHeader(0, zero, d, t, MAX_TARGET_NBITS, 0)
  }

  /** A header at the maximum target, with no timestamp after t and w units of work. */
  ghost predicate Easy(c: CommittedBlockHeader, t: u32, w: nat) {
    && c.header.nbits == MAX_TARGET_NBITS
    && c.header.timestamp <= t && (forall i :: 0 <= i < 10 ==> c.prevBlockTimestamps[i] <= t)
    && 1000 <= c.blockheight < 1100
    && Val(c.chainWork) == w
  }

  lemma {:induction false} AllBelow(s: seq<u32>, t: u32)
    requires t < U32_MAX && forall i :: 0 <= i < |s| ==> s[i] <= t
    ensures CountBelow(s, t + 1) == |s|
  {
    if s != [] {
      AllBelow(s[1..], t);
    }
  }

  lemma MaxTargetIsLarge()
    ensures MaxTarget() >= 0x1_0000
  {
    MaxTargetValue();
  }

  /** At the maximum target a block is worth one unit of work. */
  lemma UnitWork(header: BlockHeader)
    requires header.nbits == MAX_TARGET_NBITS
    ensures SizeOf(header.nbits) == 29 && Decode(header.nbits) >= 0x1_0000
    ensures WorkOf(header) == 1
  {
    UnroundedRoundsToMax();
    MaxTargetIsLarge();
    hide MaxTarget, Decode;
    DivUnique(MaxTarget(), MaxTarget(), 1);
  }

  /** The successor of an easy header with the next timestamp is accepted and easy. */
  lemma Mine(env: Env, zero: U256, p: CommittedBlockHeader, d: Digest, t: u32, w: nat) returns (c: CommittedBlockHeader)
    requires HashesToZero(env, zero) && Easy(p, t, w) && p.blockheight < 1050 && t < 5000
    ensures c.header == HeaderOf(zero, d, t + 1) && c.blockheight == p.blockheight + 1
    ensures Easy(c, t + 1, Wrap(w + 1))
    ensures AcceptedOnTop(env.blockHash, p, [c], NOW)
  {
    hide Headers.Verified, Decode, CountBelow, Reversed, WorkOf, Val;
    c := Headers.Successor(p, HeaderOf(zero, d, t + 1), 1);
    AllBelow(p.prevBlockTimestamps + [p.header.timestamp], t);
    UnitWork(c.header);
    ReversedZeros(zero);
    assert Links(env.blockHash, p, c);
    AcceptsExactlyValidHeaders(env.blockHash, p, c, HeaderTopic(env.blockHash(c.header)), NOW);
  }

  lemma ReversedZeros(s: seq<byte>)
    requires forall i :: 0 <= i < |s| ==> s[i] == 0
    ensures Val(Reversed(s)) == 0
  {
    ValZeros(Reversed(s));
  }

  ghost function Genesis(zero: U256, d: Digest, chainWork: U256): CommittedBlockHeader {
    CommittedBlockHeader(chainWork, HeaderOf(zero, d, 0), 0, 1000, [0, 0, 0, 0, 0, 0, 0, 0, 0, 0])
  }

  // ---------------------------------------------------------------- a displaced base

  lemma GrowsOnTop(bh: BlockHash, last: CommittedBlockHeader, a: CommittedBlockHeader, list: Chain)
    requires AcceptedOnTop(bh, last, [a], NOW) && AcceptedOnTop(bh, a, list, NOW)
    ensures AcceptedOnTop(bh, last, [a] + list, NOW)
  {
    hide Accepted;
    assert ([a] + list)[1..] == list;
  }

  /** Nine headers whose submission displaces the base of a fork before the fork is promoted. */
  lemma DisplacingHeaders(env: Env, zero: U256, d: Digest) returns (n: Nine)
    requires HashesToZero(env, zero)
    ensures n.Displaces(env.blockHash, NOW)
  {
    hide Accepted, Links, AcceptedOnTop, Val;
    var bh, g := env.blockHash, Genesis(zero, d, ZERO);
    ValZeros(ZERO);
    var a1 := Mine(env, zero, g, d, 0, 0);
    var a2 := Mine(env, zero, a1, d, 1, 1);
    var f2 := Mine(env, zero, a1, d, 5, 1);
    var f3 := Mine(env, zero, f2, d, 6, 2);
    var f4 := Mine(env, zero, f3, d, 7, 3);
    var b1 := Mine(env, zero, g, d, 20, 0);
    var b2 := Mine(env, zero, b1, d, 21, 1);
    var b3 := Mine(env, zero, b2, d, 22, 2);
    assert [a1] + [a2] == [a1, a2] && [f3] + [f4] == [f3, f4] && [f2] + [f3, f4] == [f2, f3, f4];
    assert [b2] + [b3] == [b2, b3] && [b1] + [b2, b3] == [b1, b2, b3];
    GrowsOnTop(bh, g, a1, [a2]);
    GrowsOnTop(bh, f2, f3, [f4]);
    GrowsOnTop(bh, a1, f2, [f3, f4]);
    GrowsOnTop(bh, b1, b2, [b3]);
    GrowsOnTop(bh, g, b1, [b2, b3]);
    assert a1.header.timestamp != b1.header.timestamp;
    n := Nine(g, a1, a2, f2, f3, f4, b1, b2, b3);
  }

  // ---------------------------------------------------------------- work that wraps

  /** From an initial chain_work of 2^256 - 1, one appended header leaves the main chain with no work at all. */
  lemma WorkCanShrink(env: Env, zero: U256, full: U256, d: Digest, lamports: Lamports) returns (call: Call)
    requires HashesToZero(env, zero) && forall i :: 0 <= i < 32 ==> full[i] == 0xFF
    ensures var s0 := InitialState(env, Genesis(zero, d, full), lamports);
            && call.ix.SubmitBlockHeaders? && |call.ix.headers| == 1 && Executed(env, s0, call).Ok?
            && Val(s0.main.chainWork) == MODULUS - 1
            && Val(Step(env, s0, call).main.chainWork) == 0
  {
    hide Accepted, Links, Appended, Val;
    var g := Genesis(zero, d, full);
    AllOnes(full);
    ModulusIsPow();
    var c := Mine(env, zero, g, d, 0, MODULUS - 1);
    hide AcceptedOnTop;
    var m := InitialMain(env.blockHash, g);
    StoreOne(m, c);
    AppendCall(env.blockHash, m, g, [c], NOW);
    call := Call(SubmitBlockHeaders(1, HeadersOf(env.blockHash, [c]), g), NOW);
  }

  lemma AlmostFull(almost: U256)
    requires almost[31] == 0xFE && forall i :: 0 <= i < 31 ==> almost[i] == 0xFF
    ensures Val(almost) == MODULUS - 2
  {
    AllOnes(almost[..31]);
    ModulusIsPow();
    assert Pow(32) == 256 * Pow(31);
  }

  /** From 2^256 - 2: append a header, open a fork beside it, and append another. The work has turned over, and the
      open fork outweighs the main chain. */
  lemma ForkCanOutweigh(env: Env, zero: U256, almost: U256, d: Digest, signer: Pubkey, lamports: Lamports)
    returns (calls: seq<Call>)
    requires HashesToZero(env, zero)
    requires almost[31] == 0xFE && forall i :: 0 <= i < 31 ==> almost[i] == 0xFF
    ensures |calls| == 3
    ensures var s := Run(env, InitialState(env, Genesis(zero, d, almost), lamports), calls);
            var key := ForkKey(0, signer);
            && key in s.forks && Filled(s.forks[key]) && s.forks[key].length == 1
            && ForkWork(s.forks[key]) == MODULUS - 1 && Val(s.main.chainWork) == 0
  {
    hide Accepted, Links, Appended, LongForked, Val, Run;
    var bh, g := env.blockHash, Genesis(zero, d, almost);
    AlmostFull(almost);
    var a1 := Mine(env, zero, g, d, 0, MODULUS - 2);
    var a2 := Mine(env, zero, a1, d, 1, MODULUS - 1);
    var f := Mine(env, zero, g, d, 5, MODULUS - 2);
    hide AcceptedOnTop;
    var m0 := InitialMain(bh, g);
    StoreOne(m0, a1);
    AppendCall(bh, m0, g, [a1], NOW);
    var m1 := WithTip(bh, StoredAll(m0, [a1]).value, a1.blockheight, a1);
    OpenForkCall(bh, m1, g, f, NOW);
    var m2 := m1.(forkCounter := 1);
    StoreOne(m2, a2);
    AppendCall(bh, m2, a1, [a2], NOW);
    var m3 := WithTip(bh, StoredAll(m2, [a2]).value, a2.blockheight, a2);
    var fork := ForkView(1, g.blockheight, 1, CommitHash(f), bh(f.header),
                         EmptyFork().blockCommitments[0 := CommitHash(f)]);
    calls := [
      Call(SubmitBlockHeaders(1, HeadersOf(env.blockHash, [a1]), g), NOW),
      Call(SubmitForkHeaders(signer, 1, [OfferOf(env.blockHash, f)], g, 0, true), NOW),
      Call(SubmitBlockHeaders(1, HeadersOf(env.blockHash, [a2]), a1), NOW)];
    var s0 := InitialState(env, g, lamports);
    var s2 := s0.(main := m2, forks := map[ForkKey(0, signer) := fork]);
    assert Step(env, s0, calls[0]) == s0.(main := m1);
    assert Step(env, s0.(main := m1), calls[1]) == s2;
    assert Step(env, s2, calls[2]) == s2.(main := m3);
    RunOfThree(env, s0, calls);
    assert ForkHeaders(fork) == [f];
  }

  lemma RunOfThree(env: Env, s: State, calls: seq<Call>)
    requires |calls| == 3
    ensures Run(env, s, calls) == Step(env, Step(env, Step(env, s, calls[0]), calls[1]), calls[2])
  {
    hide Step;
    assert calls[..2][..1] == calls[..1] && calls[..1][..0] == [];
    assert Run(env, s, calls[..1]) == Step(env, s, calls[0]);
    assert Run(env, s, calls[..2]) == Step(env, Run(env, s, calls[..1]), calls[1]);
  }
}
