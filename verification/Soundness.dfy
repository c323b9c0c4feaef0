/** What every submission keeps, with no hypothesis on the initial work or on how forks are promoted: all
    commitments descend from the initial header by valid links. And how it moves the main chain's work. */
module Soundness {
  import opened Bytes
  import opened Results
  import opened Structs
  import opened Accounts
  import opened Relay
  import opened Chains
  import opened Loops
  import Headers

  /** c ends a valid header chain that starts at the initial header. */
  ghost predicate Anchored(bh: BlockHash, genesis: CommittedBlockHeader, c: CommittedBlockHeader) {
    exists chain: Chain :: ValidChain(bh, chain) && chain[0] == genesis && Last(chain) == c
  }

  ghost predicate SlotsAnchored(bh: BlockHash, genesis: CommittedBlockHeader, slots: Slots) {
    forall p :: 0 <= p < 250 && slots[p].CommitHash? ==> Anchored(bh, genesis, slots[p].committed)
  }

  /** The slot read for a height, when there is one, holds c. */
  ghost predicate HoldsAt(m: MainView, height: u32, c: Commitment) {
    var pos := Position(m.startHeight, height);
    pos == 250 || m.blockCommitments[pos] == c
  }

  ghost predicate MainSound(bh: BlockHash, genesis: CommittedBlockHeader, m: MainView) {
    && m.blockHeight < m.startHeight + 250
    && SlotsAnchored(bh, genesis, m.blockCommitments)
    && HoldsAt(m, m.blockHeight, m.tipCommitHash)
    && m.tipCommitHash.CommitHash?
    && Anchored(bh, genesis, m.tipCommitHash.committed)
    && TipMatches(bh, m, m.tipCommitHash.committed)
  }

  /** An open fork hangs off an anchored base. */
  ghost predicate ForkSound(bh: BlockHash, genesis: CommittedBlockHeader, f: ForkView) {
    exists base :: Anchored(bh, genesis, base) && ForkHangsOff(bh, f, base)
  }

  /** The invariant of every run. */
  ghost predicate Sound(env: Env, genesis: CommittedBlockHeader, s: State) {
    && MainSound(env.blockHash, genesis, s.main)
    && forall key :: key in s.forks ==>
         && ForkSound(env.blockHash, genesis, s.forks[key])
         && key.id < s.main.forkCounter
         && s.forks[key].startHeight < s.main.startHeight + 250
  }

  // ---------------------------------------------------------------- work

  ghost function ForkWork(f: ForkView): nat
    requires Filled(f) && f.length > 0
  {
    Val(Last(ForkHeaders(f)).chainWork)
  }

  /** The fork does not outweigh the main chain. */
  ghost predicate NotHeavier(f: ForkView, m: MainView) {
    Filled(f) && f.length > 0 && ForkWork(f) <= Val(m.chainWork)
  }

  lemma {:induction false} TotalGrows(chain: Chain, i: nat, j: nat)
    requires i <= j < |chain|
    ensures TotalWork(chain, i) <= TotalWork(chain, j)
  {
    if i < j {
      TotalGrows(chain, i, j - 1);
    }
  }

  /** With headroom in the first header, no later stretch of its chain wraps. */
  lemma StretchFits(bh: BlockHash, chain: Chain, n: nat)
    requires ValidChain(bh, chain) && n < |chain| && Headroom(chain[0])
    ensures Val(chain[n].chainWork) <= Val(Last(chain).chainWork)
  {
    hide Links, Val, TotalWork;
    WorkIsExact(bh, chain, n);
    WorkIsExact(bh, chain, |chain| - 1);
    TotalGrows(chain, n, |chain| - 1);
  }

  /** With headroom in the initial header, whatever grows on an anchored one fits. */
  lemma AnchoredWorkFits(bh: BlockHash, genesis: CommittedBlockHeader, last: CommittedBlockHeader, grown: Chain)
    requires Headroom(genesis) && Anchored(bh, genesis, last) && ValidChain(bh, [last] + grown)
    ensures Val(last.chainWork) + TotalWork([last] + grown, |grown|) < MODULUS
  {
    hide Links, Val, Headroom, TotalWork;
    var chain: Chain :| ValidChain(bh, chain) && chain[0] == genesis && Last(chain) == last;
    ChainConcat(bh, chain, grown);
    StretchFits(bh, chain + grown, |chain| - 1);
    assert Last(chain + grown) == Last([last] + grown);
    WorkKeptExactly(bh, [last] + grown);
  }

  /** The work an append leaves, without headroom. */
  lemma AppendedWork(bh: BlockHash, genesis: CommittedBlockHeader, m: MainView, accounts: nat, headers: seq<Offer>,
                     c: CommittedBlockHeader, now: u32)
    requires MainSound(bh, genesis, m) && Appended(bh, m, accounts, headers, c, now).Ok?
    ensures var (work, sum) := (Val(Appended(bh, m, accounts, headers, c, now).value.chainWork),
                                Val(m.chainWork) + HeadersWork(headers));
            work == (if sum < MODULUS then sum else sum - MODULUS)
  {
    hide Appended, Links, Val, TotalWork, HeadersWork, StoredAll;
    AppendsToTip(bh, m, accounts, headers, c, now);
    AppendedParts(bh, m, accounts, headers, c, now);
    var grown := AcceptedAll(bh, c, headers, now);
    assert Last([c] + grown) == Last(grown);
    TotalOfHeaders(c, grown, headers);
    WorkTurnsOver(bh, [c] + grown);
  }

  /** An append keeps the main work from shrinking exactly when the submitted work fits. */
  lemma AppendKeepsWorkExactly(bh: BlockHash, genesis: CommittedBlockHeader, m: MainView, accounts: nat,
                               headers: seq<Offer>, c: CommittedBlockHeader, now: u32)
    requires MainSound(bh, genesis, m) && Appended(bh, m, accounts, headers, c, now).Ok?
    ensures Val(m.chainWork) <= Val(Appended(bh, m, accounts, headers, c, now).value.chainWork)
            <==> Val(m.chainWork) + HeadersWork(headers) < MODULUS
    ensures Headroom(genesis) ==> Val(m.chainWork) + HeadersWork(headers) < MODULUS
  {
    hide Appended, Links, Val;
    AppendsToTip(bh, m, accounts, headers, c, now);
    AppendedParts(bh, m, accounts, headers, c, now);
    var grown := AcceptedAll(bh, c, headers, now);
    WorkKeptExactly(bh, [c] + grown);
    TotalOfHeaders(c, grown, headers);
    assert Last([c] + grown) == Last(grown);
    if Headroom(genesis) {
      AnchoredWorkFits(bh, genesis, c, grown);
    }
  }

  // ---------------------------------------------------------------- anchoring grows along chains

  lemma AnchoredExtends(bh: BlockHash, genesis: CommittedBlockHeader, last: CommittedBlockHeader, grown: Chain)
    requires Anchored(bh, genesis, last) && ValidChain(bh, [last] + grown)
    ensures Anchored(bh, genesis, Last([last] + grown))
    ensures forall i :: 0 <= i < |grown| ==> Anchored(bh, genesis, grown[i])
  {
    hide Links;
    var chain: Chain :| ValidChain(bh, chain) && chain[0] == genesis && Last(chain) == last;
    ChainConcat(bh, chain, grown);
    forall i | 0 <= i < |grown|
      ensures Anchored(bh, genesis, grown[i])
    {
      var n := |chain| + i + 1;
      ChainPrefix(bh, chain + grown, n);
      assert Last((chain + grown)[..n]) == grown[i];
    }
  }

  lemma {:induction false} StoringAnchors(bh: BlockHash, genesis: CommittedBlockHeader, m: MainView, chain: Chain)
    requires SlotsAnchored(bh, genesis, m.blockCommitments)
    requires forall i :: 0 <= i < |chain| ==> Anchored(bh, genesis, chain[i])
    requires StoredAll(m, chain).Ok?
    ensures SlotsAnchored(bh, genesis, StoredAll(m, chain).value.blockCommitments)
    ensures chain != [] ==> HoldsAt(StoredAll(m, chain).value, Last(chain).blockheight, CommitHash(Last(chain)))
    decreases |chain|
  {
    if chain != [] {
      var m' := m.Stored(chain[0].blockheight, CommitHash(chain[0])).value;
      assert Anchored(bh, genesis, chain[0]);
      StoringAnchors(bh, genesis, m', chain[1..]);
    }
  }

  /** A header that passes the commitment check is anchored. */
  lemma ReadIsAnchored(bh: BlockHash, genesis: CommittedBlockHeader, m: MainView, height: u32, c: CommittedBlockHeader)
    requires SlotsAnchored(bh, genesis, m.blockCommitments)
    requires m.CommitmentAt(height) == Ok(CommitHash(c))
    ensures Anchored(bh, genesis, c)
  {
    var pos := Position(m.startHeight, height);
    assert m.blockCommitments[pos] == CommitHash(c);
  }

  // ---------------------------------------------------------------- the three submissions

  /** Storing a chain grown from an anchored header, then moving the tip to its end. */
  lemma GrownMainSound(bh: BlockHash, genesis: CommittedBlockHeader, m: MainView, last: CommittedBlockHeader,
                       grown: Chain)
    requires SlotsAnchored(bh, genesis, m.blockCommitments) && last.blockheight < m.startHeight + 250
    requires Anchored(bh, genesis, last) && grown != [] && ValidChain(bh, [last] + grown)
    requires StoredAll(m, grown).Ok?
    ensures var m' := WithTip(bh, StoredAll(m, grown).value, Last(grown).blockheight, Last(grown));
            && MainSound(bh, genesis, m') && m'.forkCounter == m.forkCounter
            && m.startHeight <= m'.startHeight
  {
    hide Links;
    AnchoredExtends(bh, genesis, last, grown);
    StoringAnchors(bh, genesis, m, grown);
    StoringKeepsRest(m, grown);
    GrownIsCounted(bh, last, grown);
    StoreAllExactly(m, last.blockheight, grown);
    assert Last([last] + grown) == Last(grown) == grown[|grown| - 1];
  }

  lemma AppendsToTip(bh: BlockHash, m: MainView, accounts: nat, headers: seq<Offer>, c: CommittedBlockHeader,
                     now: u32)
    requires HoldsAt(m, m.blockHeight, m.tipCommitHash)
    requires Appended(bh, m, accounts, headers, c, now).Ok?
    ensures CommitHash(c) == m.tipCommitHash
  {
    hide Headers.Verified;
  }

  lemma AppendedSound(bh: BlockHash, genesis: CommittedBlockHeader, m: MainView, accounts: nat, headers: seq<Offer>,
                      c: CommittedBlockHeader, now: u32)
    requires MainSound(bh, genesis, m) && Appended(bh, m, accounts, headers, c, now).Ok?
    ensures var m' := Appended(bh, m, accounts, headers, c, now).value;
            MainSound(bh, genesis, m') && m.forkCounter == m'.forkCounter && m.startHeight <= m'.startHeight
  {
    hide Appended;
    AppendsToTip(bh, m, accounts, headers, c, now);
    AppendedParts(bh, m, accounts, headers, c, now);
    GrownMainSound(bh, genesis, m, c, AcceptedAll(bh, c, headers, now));
  }

  lemma ShortForkedSound(bh: BlockHash, genesis: CommittedBlockHeader, m: MainView, accounts: nat,
                         headers: seq<Offer>,
                         c: CommittedBlockHeader, now: u32)
    requires MainSound(bh, genesis, m) && ShortForked(bh, m, accounts, headers, c, now).Ok?
    ensures var m' := ShortForked(bh, m, accounts, headers, c, now).value;
            && MainSound(bh, genesis, m')
            && Val(m.chainWork) < Val(m'.chainWork)
            && m'.forkCounter == m.forkCounter + 1 && m.startHeight <= m'.startHeight
  {
    hide ShortForked;
    ShortForkedParts(bh, m, accounts, headers, c, now);
    ReadIsAnchored(bh, genesis, m, c.blockheight, c);
    GrownMainSound(bh, genesis, m, c, AcceptedAll(bh, c, headers, now));
  }

  lemma LongForkedSound(bh: BlockHash, genesis: CommittedBlockHeader, m: MainView, stored: Option<ForkView>,
                        accounts: nat,
                        headers: seq<Offer>, c: CommittedBlockHeader, forkId: u64, init: bool, now: u32)
    requires MainSound(bh, genesis, m)
    requires stored.Some? ==> ForkSound(bh, genesis, stored.value) && stored.value.startHeight < m.startHeight + 250
    requires LongForked(bh, m, stored, accounts, headers, c, forkId, init, now).Ok?
    ensures var r := LongForked(bh, m, stored, accounts, headers, c, forkId, init, now).value;
            && MainSound(bh, genesis, r.main)
            && r.main.forkCounter == (if init then forkId + 1 else m.forkCounter)
            && (init ==> m.forkCounter == forkId) && (init <==> stored.None?)
            && m.startHeight <= r.main.startHeight
            && (r.fork.Some? ==> r.fork.value.startHeight < m.startHeight + 250)
            && (r.fork.Some? ==> r.main == m.(forkCounter := r.main.forkCounter)
                                 && ForkSound(bh, genesis, r.fork.value) && NotHeavier(r.fork.value, m))
            && (r.fork.None? ==> Val(m.chainWork) < Val(r.main.chainWork))
  {
    hide LongForked, ForkSettled, AcceptedAll, StoredAll;
    var base := c;
    if stored.Some? {
      base :| Anchored(bh, genesis, base) && ForkHangsOff(bh, stored.value, base);
    }
    var m', q := LongForkedParts(bh, m, stored, accounts, headers, c, forkId, init, now, base);
    if init {
      ReadIsAnchored(bh, genesis, m, c.blockheight, c);
    }
    SettledParts(bh, m', q, base);
    if ForkSettled(bh, m', q).value.fork.None? {
      GrownMainSound(bh, genesis, m', base, ForkHeaders(q.account));
    }
  }
}
