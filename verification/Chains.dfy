/** Header chains: the consensus rules between neighbours, and what they add up to. */
module Chains {
  import opened Bytes
  import opened Results
  import opened Structs
  import opened NBits
  import opened NBitsTheorems
  import opened Median
  import opened Headers
  import opened Relay

  type Chain = seq<CommittedBlockHeader>

  // ---------------------------------------------------------------- neighbours

  /** c is a valid committed successor of p. */
  ghost predicate Links(bh: BlockHash, p: CommittedBlockHeader, c: CommittedBlockHeader) {
    && c.header.prevBlockhash == bh(p.header)
    && c.blockheight == p.blockheight + 1
    && NbitsFollow(p, c.header.nbits)
    && SizeOf(c.header.nbits) <= 32 && Decode(c.header.nbits) >= 0x1_0000
    && Val(Reversed(bh(c.header))) <= Decode(c.header.nbits)
    && CountBelow(p.prevBlockTimestamps + [p.header.timestamp], c.header.timestamp) >= 6
    && Val(c.chainWork) == Wrap(Val(p.chainWork) + BlockWork(c))
    && c.prevBlockTimestamps == p.prevBlockTimestamps[1..] + [p.header.timestamp]
    && c.lastDiffAdjustment == (if c.blockheight % 2016 == 0 then c.header.timestamp else p.lastDiffAdjustment)
  }

  /** nBits repeats, except that every 2016th block has it rescaled by the time the last 2016 took: two weeks would
      keep it, and no less than a quarter and no more than four times that is counted. */
  ghost predicate NbitsFollow(p: CommittedBlockHeader, nbits: u32) {
    if (p.blockheight + 1) % 2016 != 0 then nbits == p.header.nbits else
      var (t, span) := (Decode(p.header.nbits), p.header.timestamp - p.lastDiffAdjustment);
      && SizeOf(p.header.nbits) <= 32
      && span >= 0
      && var scaled := if span < 302400 then Wrap(Product(t, 302400)) / 1209600
                       else if span <= 4838400 then Wrap(Product(t, span)) / 1209600
                       else Wrap(Product(t, 4838400)) / 1209600;
      nbits == if scaled < 0x1_0000 * WORK_LIMIT then Compact(scaled) else 0x1D00_FFFF
  }

  /** It is what has_correct_difficulty_target asks for. */
  lemma RequiredExactly(p: CommittedBlockHeader, nbits: u32)
    requires p.blockheight < U32_MAX
    ensures RequiredNbits(p) == Ok(nbits) <==> NbitsFollow(p, nbits)
  {
    hide Decode, Compact, UnroundedMaxTarget, Wrap;
    if (p.blockheight + 1) % 2016 == 0 && p.header.timestamp >= p.lastDiffAdjustment {
      CompactOfMin(Scaled(Decode(p.header.nbits), p.header.timestamp - p.lastDiffAdjustment));
    }
  }

  /** floor(MAX_DIFFICULTY / target). */
  ghost function WorkOf(header: BlockHeader): nat {
    if Decode(header.nbits) == 0 then 0 else Quotient(MaxTarget(), Decode(header.nbits))
  }

  ghost function BlockWork(c: CommittedBlockHeader): nat { WorkOf(c.header) }

  /** Less than four hours ahead of the clock. */
  ghost predicate ClockAllows(header: BlockHeader, now: u32) {
    now + 14400 <= U32_MAX && header.timestamp < now + 14400
  }

  /** What the loops accept is a valid successor. */
  lemma AcceptedLinks(bh: BlockHash, p: CommittedBlockHeader, offer: Offer, now: u32)
    requires Accepted(bh, p, p.blockheight, offer, now).Ok?
    ensures var c := Accepted(bh, p, p.blockheight, offer, now).value;
            && c.header == offer.header && Links(bh, p, c)
            && ClockAllows(offer.header, now) && offer.topic == HeaderTopic(bh(offer.header))
  {
    hide Decode, MedianOf, Reversed, MaxTarget, RequiredNbits, NbitsFollow, CountBelow;
    RequiredExactly(p, offer.header.nbits);
    BeatsMedianExactly(p.prevBlockTimestamps, p.header.timestamp, offer.header.timestamp);
    DifficultyOfDecoded(offer.header.nbits);
  }

  /** A header determines its committed form. */
  lemma LinksUnique(bh: BlockHash, p: CommittedBlockHeader, c: CommittedBlockHeader, d: CommittedBlockHeader)
    requires Links(bh, p, c) && Links(bh, p, d) && c.header == d.header
    ensures c == d
  {
    ValInjective(c.chainWork, d.chainWork);
  }

  /** The loops accept exactly the headers with a valid committed form that the clock allows, each with the account
      derived from its hash. */
  lemma AcceptsExactlyValidHeaders(bh: BlockHash, p: CommittedBlockHeader, c: CommittedBlockHeader, topic: Account,
                                   now: u32)
    ensures Accepted(bh, p, p.blockheight, Offer(c.header, topic), now) == Ok(c)
            <==> Links(bh, p, c) && ClockAllows(c.header, now) && topic == HeaderTopic(bh(c.header))
  {
    hide Decode, MedianOf, Reversed, MaxTarget, RequiredNbits, NbitsFollow, CountBelow;
    var offer := Offer(c.header, topic);
    if Accepted(bh, p, p.blockheight, offer, now).Ok? {
      AcceptedLinks(bh, p, offer, now);
      if Links(bh, p, c) {
        LinksUnique(bh, p, c, Accepted(bh, p, p.blockheight, offer, now).value);
      }
    } else if Links(bh, p, c) && ClockAllows(c.header, now) {
      RequiredExactly(p, c.header.nbits);
      BeatsMedianExactly(p.prevBlockTimestamps, p.header.timestamp, c.header.timestamp);
      DifficultyOfDecoded(c.header.nbits);
    }
  }

  // ---------------------------------------------------------------- chains

  ghost predicate ValidChain(bh: BlockHash, chain: Chain) {
    && chain != []
    && forall i :: 0 <= i < |chain| - 1 ==> Links(bh, chain[i], chain[i + 1])
  }

  ghost function Last(chain: Chain): CommittedBlockHeader
    requires chain != []
  {
    chain[|chain| - 1]
  }

  lemma ChainPrefix(bh: BlockHash, chain: Chain, n: nat)
    requires ValidChain(bh, chain) && 0 < n <= |chain|
    ensures ValidChain(bh, chain[..n])
  {}

  lemma ChainConcat(bh: BlockHash, a: Chain, b: Chain)
    requires ValidChain(bh, a) && ValidChain(bh, [Last(a)] + b)
    ensures ValidChain(bh, a + b)
  {
    forall i | 0 <= i < |a + b| - 1
      ensures Links(bh, (a + b)[i], (a + b)[i + 1])
    {
      if i >= |a| - 1 {
        var j := i - (|a| - 1);
        assert Links(bh, ([Last(a)] + b)[j], ([Last(a)] + b)[j + 1]);
      }
    }
  }

  lemma {:induction false} ChainHeights(bh: BlockHash, chain: Chain, i: nat)
    requires ValidChain(bh, chain) && i < |chain|
    ensures chain[i].blockheight == chain[0].blockheight + i
  {
    if i > 0 {
      ChainHeights(bh, chain, i - 1);
      assert Links(bh, chain[i - 1], chain[i]);
    }
  }

  // ---------------------------------------------------------------- difficulty floor and retargets

  lemma LinkKeepsFloor(bh: BlockHash, p: CommittedBlockHeader, c: CommittedBlockHeader)
    requires Links(bh, p, c) && Decode(p.header.nbits) <= MaxTarget()
    ensures Decode(c.header.nbits) <= MaxTarget()
    ensures BlockWork(c) >= 1
  {
    hide Decode, Val, MaxTarget, Reversed, NbitsFollow, CountBelow;
    FloorKept(p, c.header.nbits);
    WorkBounds(Decode(c.header.nbits));
  }

  lemma FloorKept(p: CommittedBlockHeader, nbits: u32)
    requires p.blockheight < U32_MAX && NbitsFollow(p, nbits) && Decode(p.header.nbits) <= MaxTarget()
    ensures Decode(nbits) <= MaxTarget()
  {
    hide Decode, MaxTarget, NbitsFollow;
    RequiredExactly(p, nbits);
    if ShouldDiffAdjust(p.blockheight + 1) {
      RetargetKeepsFloor(p.header.timestamp, p.lastDiffAdjustment, Decode(p.header.nbits));
    }
  }

  /** From an initial target at most the maximum, every header of the chain stays at most there. */
  lemma {:induction false} DifficultyFloor(bh: BlockHash, chain: Chain, i: nat)
    requires ValidChain(bh, chain) && i < |chain|
    requires Decode(chain[0].header.nbits) <= MaxTarget()
    ensures Decode(chain[i].header.nbits) <= MaxTarget()
    ensures i > 0 ==> BlockWork(chain[i]) >= 1
  {
    hide Links;
    if i > 0 {
      DifficultyFloor(bh, chain, i - 1);
      LinkKeepsFloor(bh, chain[i - 1], chain[i]);
    }
  }

  /** With the floor the 256-bit product is exact. Off epoch boundaries nBits repeats; on them it is the target scaled
      by the span the last epoch took over two weeks, in three cases, compacted and capped. */
  lemma ChainRetargets(bh: BlockHash, chain: Chain, i: nat)
    requires ValidChain(bh, chain) && 0 < i < |chain|
    requires Decode(chain[0].header.nbits) <= MaxTarget()
    ensures var (p, nbits) := (chain[i - 1], chain[i].header.nbits);
            var (t, span) := (Decode(p.header.nbits), p.header.timestamp - p.lastDiffAdjustment);
            if chain[i].blockheight % 2016 != 0 then nbits == p.header.nbits
            else
              && span >= 0
              && var scaled := if span < 302400 then Product(t, 302400) / 1209600
                               else if span <= 4838400 then Product(t, span) / 1209600
                               else Product(t, 4838400) / 1209600;
              nbits == if scaled < 0x1_0000 * WORK_LIMIT then Compact(scaled) else 0x1D00_FFFF
  {
    hide Decode, Val, MaxTarget, Compact, NbitsFollow, CountBelow, Reversed;
    var p := chain[i - 1];
    assert Links(bh, p, chain[i]);
    DifficultyFloor(bh, chain, i - 1);
    hide Links, ValidChain;
    RequiredExactly(p, chain[i].header.nbits);
    RetargetExactly(p.header.timestamp, p.lastDiffAdjustment, Decode(p.header.nbits));
  }

  // ---------------------------------------------------------------- accumulated work

  /** Room for 2^32 blocks of less than 2^208 work each. */
  ghost predicate Headroom(c: CommittedBlockHeader) {
    Val(c.chainWork) + 0x1_0000_0000 * WORK_LIMIT <= MODULUS
  }

  /** The exact work of the headers after the first, up to the i-th. */
  ghost function TotalWork(chain: Chain, i: nat): nat
    requires i < |chain|
  {
    if i == 0 then 0 else TotalWork(chain, i - 1) + BlockWork(chain[i])
  }

  lemma LinkAddsWork(bh: BlockHash, p: CommittedBlockHeader, c: CommittedBlockHeader)
    requires Links(bh, p, c)
    ensures Val(c.chainWork) == Wrap(Val(p.chainWork) + BlockWork(c))
    ensures BlockWork(c) < WORK_LIMIT
  {
    hide Val, Decode, MaxTarget, NbitsFollow, CountBelow, Reversed;
    WorkBounds(Decode(c.header.nbits));
  }

  lemma WrapAgain(a: nat, b: nat)
    ensures Wrap(Wrap(a) + b) == Wrap(a + b)
  {
    assert a + b == Wrap(a) + b + a / MODULUS * MODULUS;
  }

  /** Committed work is the initial work plus the ancestors' exact works, modulo 2^256. */
  lemma {:induction false} WorkIsTotal(bh: BlockHash, chain: Chain, i: nat)
    requires ValidChain(bh, chain) && i < |chain|
    ensures TotalWork(chain, i) <= i * WORK_LIMIT < MODULUS
    ensures Val(chain[i].chainWork) == Wrap(Val(chain[0].chainWork) + TotalWork(chain, i))
  {
    hide Links, Val;
    ChainHeights(bh, chain, i);
    if i == 0 {
      ModulusIsPow();
      ValBound(chain[0].chainWork);
    } else {
      WorkIsTotal(bh, chain, i - 1);
      LinkAddsWork(bh, chain[i - 1], chain[i]);
      WrapAgain(Val(chain[0].chainWork) + TotalWork(chain, i - 1), BlockWork(chain[i]));
    }
  }

  /** With headroom no carry is ever lost. */
  lemma WorkIsExact(bh: BlockHash, chain: Chain, i: nat)
    requires ValidChain(bh, chain) && i < |chain| && Headroom(chain[0])
    ensures Val(chain[i].chainWork) == Val(chain[0].chainWork) + TotalWork(chain, i) < MODULUS
  {
    hide Links, Val;
    ChainHeights(bh, chain, i);
    WorkIsTotal(bh, chain, i);
  }

  lemma WrapOnce(a: nat, b: nat)
    requires a < MODULUS && b < MODULUS
    ensures Wrap(a + b) == if a + b < MODULUS then a + b else a + b - MODULUS
  {}

  /** Without headroom: a chain's work turns over at most once. */
  lemma WorkTurnsOver(bh: BlockHash, chain: Chain)
    requires ValidChain(bh, chain)
    ensures var sum := Val(chain[0].chainWork) + TotalWork(chain, |chain| - 1);
            Val(Last(chain).chainWork) == (if sum < MODULUS then sum else sum - MODULUS)
    ensures TotalWork(chain, |chain| - 1) < MODULUS
  {
    hide Links, Val, TotalWork, Wrap;
    WorkIsTotal(bh, chain, |chain| - 1);
    ValBound(chain[0].chainWork);
    ModulusIsPow();
    WrapOnce(Val(chain[0].chainWork), TotalWork(chain, |chain| - 1));
  }

  /** So it has not shrunk from the first header to the last exactly when their sum fits. */
  lemma WorkKeptExactly(bh: BlockHash, chain: Chain)
    requires ValidChain(bh, chain)
    ensures Val(chain[0].chainWork) <= Val(Last(chain).chainWork)
            <==> Val(chain[0].chainWork) + TotalWork(chain, |chain| - 1) < MODULUS
  {
    hide Links, Val, TotalWork;
    WorkTurnsOver(bh, chain);
  }

  /** Work grows along a chain by each block's exact work. */
  lemma WorkGrows(bh: BlockHash, chain: Chain, i: nat)
    requires ValidChain(bh, chain) && i + 1 < |chain| && Headroom(chain[0])
    ensures Val(chain[i + 1].chainWork) == Val(chain[i].chainWork) + BlockWork(chain[i + 1])
  {
    hide Links, Val;
    WorkIsExact(bh, chain, i);
    WorkIsExact(bh, chain, i + 1);
  }

  /** The exact work of submitted headers, read off their nBits. */
  ghost function HeadersWork(headers: seq<Offer>): nat {
    if headers == [] then 0 else WorkOf(headers[0].header) + HeadersWork(headers[1..])
  }

  /** The headers a chain commits to after its first. */
  ghost predicate Carries(chain: Chain, headers: seq<Offer>) {
    |chain| == |headers| && forall i :: 0 <= i < |chain| ==> chain[i].header == headers[i].header
  }

  lemma {:induction false} TotalOfHeaders(first: CommittedBlockHeader, grown: Chain, headers: seq<Offer>)
    requires Carries(grown, headers)
    ensures TotalWork([first] + grown, |grown|) == HeadersWork(headers)
    decreases |grown|
  {
    if grown != [] {
      TotalOfHeaders(grown[0], grown[1..], headers[1..]);
      assert grown == [grown[0]] + grown[1..];
      TotalShifts(first, grown, |grown| - 1);
    }
  }

  lemma {:induction false} TotalShifts(first: CommittedBlockHeader, rest: Chain, i: nat)
    requires i < |rest|
    ensures TotalWork([first] + rest, i + 1) == BlockWork(rest[0]) + TotalWork(rest, i)
  {
    if i > 0 {
      TotalShifts(first, rest, i - 1);
    }
  }

  // ---------------------------------------------------------------- derived history fields

  ghost function Timestamps(chain: Chain): (r: seq<u32>)
    ensures |r| == |chain|
  {
    if chain == [] then [] else Timestamps(chain[..|chain| - 1]) + [chain[|chain| - 1].header.timestamp]
  }

  lemma {:induction false} TimestampAt(chain: Chain, i: nat)
    requires i < |chain|
    ensures Timestamps(chain)[i] == chain[i].header.timestamp
  {
    if i < |chain| - 1 {
      TimestampAt(chain[..|chain| - 1], i);
    }
  }

  ghost function LastTen(s: seq<u32>): (r: Window)
    requires |s| >= 10
  {
    s[|s| - 10..]
  }

  lemma LinkSlides(bh: BlockHash, p: CommittedBlockHeader, c: CommittedBlockHeader)
    requires Links(bh, p, c)
    ensures c.prevBlockTimestamps == p.prevBlockTimestamps[1..] + [p.header.timestamp]
  {}

  lemma LastTenSlides(s: seq<u32>, t: u32)
    requires |s| >= 10
    ensures LastTen(s + [t]) == LastTen(s)[1..] + [t]
  {}

  /** The stored window is the last ten of the initial window followed by the ancestors' timestamps. */
  lemma {:induction false} WindowIsHistory(bh: BlockHash, chain: Chain, i: nat)
    requires ValidChain(bh, chain) && i < |chain|
    ensures chain[i].prevBlockTimestamps == LastTen(chain[0].prevBlockTimestamps + Timestamps(chain[..i]))
  {
    hide Links;
    var initial := chain[0].prevBlockTimestamps;
    if i == 0 {
      assert initial + Timestamps(chain[..0]) == initial;
    } else {
      var before := Timestamps(chain[..i - 1]);
      WindowIsHistory(bh, chain, i - 1);
      LinkSlides(bh, chain[i - 1], chain[i]);
      LastTenSlides(initial + before, chain[i - 1].header.timestamp);
      assert chain[..i][..i - 1] == chain[..i - 1];
      assert initial + Timestamps(chain[..i]) == (initial + before) + [chain[i - 1].header.timestamp];
    }
  }

  /** last_diff_adjustment is the timestamp of the latest epoch-boundary header after the initial one. */
  lemma {:induction false} LastAdjustmentIsLatestBoundary(bh: BlockHash, chain: Chain, i: nat, j: nat)
    requires ValidChain(bh, chain) && j <= i < |chain|
    requires j > 0 ==> chain[j].blockheight % 2016 == 0
    requires forall k :: j < k <= i ==> chain[k].blockheight % 2016 != 0
    ensures chain[i].lastDiffAdjustment == (if j > 0 then chain[j].header.timestamp else chain[0].lastDiffAdjustment)
  {
    if i > 0 {
      assert Links(bh, chain[i - 1], chain[i]);
      if j < i {
        LastAdjustmentIsLatestBoundary(bh, chain, i - 1, j);
      }
    }
  }
}
