/** Theorems over every run of instructions, whoever sends them and however forks are promoted. */
module Runs {
  import opened Bytes
  import opened Structs
  import opened Accounts
  import opened Relay
  import opened Chains
  import opened Loops
  import opened Soundness
  import opened NBits
  import Headers

  // ---------------------------------------------------------------- the invariant

  lemma SoundInitially(env: Env, c: CommittedBlockHeader, lamports: Lamports)
    ensures Sound(env, c, InitialState(env, c, lamports))
  {
    var m := InitialMain(env.blockHash, c);
    assert ValidChain(env.blockHash, [c]) && Last([c]) == c;
    assert m.blockCommitments[0] == CommitHash(c);
    assert forall p :: 0 < p < 250 ==> m.blockCommitments[p] == NoCommitment;
  }

  /** One instruction keeps the invariant, whatever the initial work. */
  lemma SoundStep(env: Env, genesis: CommittedBlockHeader, s: State, call: Call)
    requires Sound(env, genesis, s)
    ensures Sound(env, genesis, Step(env, s, call))
    ensures s.main.forkCounter <= Step(env, s, call).main.forkCounter
  {
    hide Appended, ShortForked, LongForked, MainSound, ForkSound;
    var bh := env.blockHash;
    if Executed(env, s, call).Ok? {
      match call.ix
      case SubmitBlockHeaders(accounts, headers, c) =>
        assert MainSound(bh, genesis, s.main);
        AppendedSound(bh, genesis, s.main, accounts, headers, c, call.now);
      case SubmitShortForkHeaders(accounts, headers, c) =>
        ShortForkedSound(bh, genesis, s.main, accounts, headers, c, call.now);
      case SubmitForkHeaders(_, _, _, _, _, _) =>
        LongForkStep(env, genesis, s, call);
      case _ =>
        OtherCallsKeepHeaders(env, s, call);
    }
  }

  /** The remaining instructions neither move the chain nor touch a fork, except to close one. */
  lemma OtherCallsKeepHeaders(env: Env, s: State, call: Call)
    requires Executed(env, s, call).Ok?
    requires !call.ix.SubmitBlockHeaders? && !call.ix.SubmitShortForkHeaders? && !call.ix.SubmitForkHeaders?
    ensures var s' := Executed(env, s, call).value;
            && s'.main == s.main
            && forall key :: key in s'.forks ==> key in s.forks && s'.forks[key] == s.forks[key]
  {
    hide Headers.Verified;
  }

  /** What a long-fork call does to the invariant, the counter and the work. */
  lemma LongForkStep(env: Env, genesis: CommittedBlockHeader, s: State, call: Call)
    requires Sound(env, genesis, s) && call.ix.SubmitForkHeaders? && Executed(env, s, call).Ok?
    ensures var s' := Executed(env, s, call).value;
            && Sound(env, genesis, s')
            && Val(s.main.chainWork) <= Val(s'.main.chainWork)
            && s'.main.forkCounter == (if call.ix.init then s.main.forkCounter + 1 else s.main.forkCounter)
            && (call.ix.init ==> call.ix.forkId == s.main.forkCounter)
            && (s'.main.tipCommitHash != s.main.tipCommitHash ==> Val(s.main.chainWork) < Val(s'.main.chainWork))
            && forall key :: key in s'.forks ==>
                 NotHeavier(s'.forks[key], s'.main) || (key in s.forks && s'.forks[key] == s.forks[key])
  {
    hide LongForked, MainSound, ForkSound, NotHeavier, Val;
    var ix := call.ix;
    var key := ForkKey(ix.forkId, ix.signer);
    LongForkedSound(env.blockHash, genesis, s.main, StoredFork(s, key), ix.accounts, ix.headers, ix.committed,
                    ix.forkId, ix.init, call.now);
    var r, s' := ForkOutcome(env, s, call).value, Executed(env, s, call).value;
    if r.fork.Some? {
      SameWork(r.fork.value, s.main, s'.main);
    }
    forall k | k in s'.forks
      ensures ForkSound(env.blockHash, genesis, s'.forks[k]) && k.id < s'.main.forkCounter
      ensures NotHeavier(s'.forks[k], s'.main) || (k in s.forks && s'.forks[k] == s.forks[k])
    {
      if k != key {
        assert k in s.forks && s'.forks[k] == s.forks[k];
      }
    }
  }

  lemma SameWork(f: ForkView, m: MainView, m': MainView)
    requires m.chainWork == m'.chainWork
    ensures NotHeavier(f, m) <==> NotHeavier(f, m')
  {}

  lemma {:induction false} SoundRun(env: Env, c: CommittedBlockHeader, lamports: Lamports, calls: seq<Call>)
    ensures Sound(env, c, Run(env, InitialState(env, c, lamports), calls))
  {
    if calls == [] {
      SoundInitially(env, c, lamports);
    } else {
      var front := calls[..|calls| - 1];
      SoundRun(env, c, lamports, front);
      SoundStep(env, c, Run(env, InitialState(env, c, lamports), front), calls[|calls| - 1]);
    }
  }

  // ---------------------------------------------------------------- what it means for the main chain

  /** The tip of every reachable state ends a valid header chain back to the initial header, whose length is
      the loop's own height counter. Its total work is the recorded chain_work modulo 2^256, and exactly it given
      headroom. */
  lemma ReachableMainChain(env: Env, c: CommittedBlockHeader, lamports: Lamports, calls: seq<Call>)
    returns (chain: Chain)
    ensures var m := Run(env, InitialState(env, c, lamports), calls).main;
            && ValidChain(env.blockHash, chain) && chain[0] == c
            && m.tipCommitHash == CommitHash(Last(chain)) && m.tipBlockHash == env.blockHash(Last(chain).header)
            && m.blockHeight == c.blockheight + |chain| - 1
            && Val(m.chainWork) == Wrap(Val(c.chainWork) + TotalWork(chain, |chain| - 1))
            && (Headroom(c) ==> Val(m.chainWork) == Val(c.chainWork) + TotalWork(chain, |chain| - 1))
  {
    hide Links, Val, Run;
    SoundRun(env, c, lamports, calls);
    var m := Run(env, InitialState(env, c, lamports), calls).main;
    chain :| ValidChain(env.blockHash, chain) && chain[0] == c && Last(chain) == m.tipCommitHash.committed;
    ChainHeights(env.blockHash, chain, |chain| - 1);
    WorkIsTotal(env.blockHash, chain, |chain| - 1);
    if Headroom(c) {
      WorkIsExact(env.blockHash, chain, |chain| - 1);
    }
  }

  lemma {:induction false} UnitWork(bh: BlockHash, chain: Chain, i: nat)
    requires ValidChain(bh, chain) && i < |chain| && Decode(chain[0].header.nbits) <= MaxTarget()
    ensures TotalWork(chain, i) >= i
  {
    hide Links;
    if i > 0 {
      UnitWork(bh, chain, i - 1);
      DifficultyFloor(bh, chain, i);
    }
  }

  /** From an initial target at most the maximum: every header a reachable state commits to, in the main ring or in
      a fork, keeps that floor and, given headroom, has gained at least one unit of work for every block since the
      initial header. */
  lemma CommittedHeadersKeepFloor(env: Env, c: CommittedBlockHeader, lamports: Lamports, calls: seq<Call>,
                                  d: CommittedBlockHeader)
    requires Decode(c.header.nbits) <= MaxTarget()
    requires CommittedIn(Run(env, InitialState(env, c, lamports), calls), CommitHash(d))
    ensures Decode(d.header.nbits) <= MaxTarget()
    ensures Headroom(c) ==> Val(d.chainWork) >= Val(c.chainWork) + (d.blockheight - c.blockheight)
  {
    hide Links, Val, Decode, MaxTarget, Run, CommittedIn;
    var bh, s := env.blockHash, Run(env, InitialState(env, c, lamports), calls);
    SoundRun(env, c, lamports, calls);
    CommittedIsAnchored(env, c, s, d);
    var chain: Chain :| ValidChain(bh, chain) && chain[0] == c && Last(chain) == d;
    var i := |chain| - 1;
    ChainHeights(bh, chain, i);
    DifficultyFloor(bh, chain, i);
    UnitWork(bh, chain, i);
    if Headroom(c) {
      WorkIsExact(bh, chain, i);
    }
  }

  /** A commitment stored anywhere. */
  ghost predicate CommittedIn(s: State, k: Commitment) {
    || k in s.main.blockCommitments
    || k == s.main.tipCommitHash
    || exists key, i :: key in s.forks && 0 <= i < s.forks[key].length && i < 250 &&
         s.forks[key].blockCommitments[i] == k
  }

  lemma CommittedIsAnchored(env: Env, genesis: CommittedBlockHeader, s: State, d: CommittedBlockHeader)
    requires Sound(env, genesis, s) && CommittedIn(s, CommitHash(d))
    ensures Anchored(env.blockHash, genesis, d)
  {
    if key, i :| key in s.forks && 0 <= i < s.forks[key].length && s.forks[key].blockCommitments[i] == CommitHash(d) {
      var f := s.forks[key];
      var base :| Anchored(env.blockHash, genesis, base) && ForkHangsOff(env.blockHash, f, base);
      AnchoredExtends(env.blockHash, genesis, base, ForkHeaders(f));
      assert ForkHeaders(f)[i] == d;
    }
  }

  // ---------------------------------------------------------------- heaviest chain

  /** The work of an append fits in 256 bits: what a caller can compute from the submitted headers. */
  ghost predicate WorkFits(env: Env, s: State, call: Call) {
    call.ix.SubmitBlockHeaders? && Executed(env, s, call).Ok? ==>
      Val(s.main.chainWork) + HeadersWork(call.ix.headers) < MODULUS
  }

  /** One instruction keeps the main work from shrinking if and only if it is no append whose work overflows; and
      whenever anything but an append moves the tip, the work strictly grows. */
  lemma WorkStep(env: Env, genesis: CommittedBlockHeader, s: State, call: Call)
    requires Sound(env, genesis, s)
    ensures var s' := Step(env, s, call);
            && (Val(s.main.chainWork) <= Val(s'.main.chainWork) <==> WorkFits(env, s, call))
            && (s'.main.tipCommitHash != s.main.tipCommitHash && !call.ix.SubmitBlockHeaders? ==>
                  Val(s.main.chainWork) < Val(s'.main.chainWork))
            && (Headroom(genesis) ==> WorkFits(env, s, call))
  {
    hide Appended, ShortForked, LongForked, MainSound, ForkSound, Val, HeadersWork, Headroom;
    var bh := env.blockHash;
    if Executed(env, s, call).Ok? {
      match call.ix
      case SubmitBlockHeaders(accounts, headers, c) =>
        AppendKeepsWorkExactly(bh, genesis, s.main, accounts, headers, c, call.now);
      case SubmitShortForkHeaders(accounts, headers, c) =>
        ShortForkedSound(bh, genesis, s.main, accounts, headers, c, call.now);
      case SubmitForkHeaders(_, _, _, _, _, _) =>
        LongForkStep(env, genesis, s, call);
      case _ =>
        OtherCallsKeepHeaders(env, s, call);
    }
  }

  /** No fork outweighs the main chain. */
  ghost predicate Heaviest(s: State) {
    forall key :: key in s.forks ==> NotHeavier(s.forks[key], s.main)
  }

  lemma HeaviestStep(env: Env, genesis: CommittedBlockHeader, s: State, call: Call)
    requires Sound(env, genesis, s) && Heaviest(s) && WorkFits(env, s, call)
    ensures Heaviest(Step(env, s, call))
  {
    hide Appended, ShortForked, LongForked, MainSound, ForkSound, Val, WorkFits;
    WorkStep(env, genesis, s, call);
    if Executed(env, s, call).Ok? {
      if call.ix.SubmitForkHeaders? {
        LongForkStep(env, genesis, s, call);
      } else if !call.ix.SubmitBlockHeaders? && !call.ix.SubmitShortForkHeaders? {
        OtherCallsKeepHeaders(env, s, call);
      }
    }
  }

  /** Every fork is lighter by a full turn of 2^256 than the exact sum of an overflowing append. */
  ghost predicate ForksStayLighter(s: State, call: Call)
    requires call.ix.SubmitBlockHeaders?
  {
    forall key :: key in s.forks && Filled(s.forks[key]) && s.forks[key].length > 0 ==>
      ForkWork(s.forks[key]) + MODULUS <= Val(s.main.chainWork) + HeadersWork(call.ix.headers)
  }

  /** What keeps an instruction from leaving a fork heavier than the main chain. */
  ghost predicate StaysHeaviest(env: Env, s: State, call: Call) {
    WorkFits(env, s, call) || ForksStayLighter(s, call)
  }

  /** After an instruction no fork outweighs the main chain if and only if its work fits, or every fork stays lighter
      than what is left after the overflow. */
  lemma HeaviestStepExactly(env: Env, genesis: CommittedBlockHeader, s: State, call: Call)
    requires Sound(env, genesis, s) && Heaviest(s)
    ensures Heaviest(Step(env, s, call)) <==> StaysHeaviest(env, s, call)
  {
    hide Appended, MainSound, ForkSound, Val, WorkFits, HeadersWork;
    if WorkFits(env, s, call) {
      HeaviestStep(env, genesis, s, call);
    } else {
      OverflowingAppend(env, genesis, s, call);
      var s' := Step(env, s, call);
      forall key | key in s.forks
        ensures Filled(s.forks[key]) && s.forks[key].length > 0
        ensures NotHeavier(s'.forks[key], s'.main) <==>
                  ForkWork(s.forks[key]) + MODULUS <= Val(s.main.chainWork) + HeadersWork(call.ix.headers)
      {
        assert NotHeavier(s.forks[key], s.main);
      }
    }
  }

  /** An append that does not fit leaves the exact sum less 2^256. */
  lemma OverflowingAppend(env: Env, genesis: CommittedBlockHeader, s: State, call: Call)
    requires Sound(env, genesis, s) && !WorkFits(env, s, call)
    ensures call.ix.SubmitBlockHeaders? && Executed(env, s, call).Ok?
    ensures var s' := Step(env, s, call);
            && s'.forks == s.forks
            && Val(s'.main.chainWork) + MODULUS == Val(s.main.chainWork) + HeadersWork(call.ix.headers)
  {
    hide Appended, ForkSound, Val, HeadersWork;
    var ix := call.ix;
    AppendedWork(env.blockHash, genesis, s.main, ix.accounts, ix.headers, ix.committed, call.now);
  }

  /** No append of the run overflows. */
  ghost predicate WorkAlwaysFits(env: Env, c: CommittedBlockHeader, lamports: Lamports, calls: seq<Call>) {
    forall i :: 0 <= i < |calls| ==> WorkFits(env, Run(env, InitialState(env, c, lamports), calls[..i]), calls[i])
  }

  /** Headroom in the initial header is enough for that, in every run. */
  lemma HeadroomSuffices(env: Env, c: CommittedBlockHeader, lamports: Lamports, calls: seq<Call>)
    requires Headroom(c)
    ensures WorkAlwaysFits(env, c, lamports, calls)
  {
    hide WorkFits;
    forall i | 0 <= i < |calls|
      ensures WorkFits(env, Run(env, InitialState(env, c, lamports), calls[..i]), calls[i])
    {
      SoundRun(env, c, lamports, calls[..i]);
      WorkStep(env, c, Run(env, InitialState(env, c, lamports), calls[..i]), calls[i]);
    }
  }

  ghost function WorkAfter(env: Env, c: CommittedBlockHeader, lamports: Lamports, calls: seq<Call>, i: nat): nat
    requires i <= |calls|
  {
    Val(Run(env, InitialState(env, c, lamports), calls[..i]).main.chainWork)
  }

  ghost predicate KeepsWork(env: Env, c: CommittedBlockHeader, lamports: Lamports, calls: seq<Call>, i: nat)
    requires i < |calls|
  {
    WorkAfter(env, c, lamports, calls, i) <= WorkAfter(env, c, lamports, calls, i + 1)
  }

  lemma KeepsWorkExactly(env: Env, c: CommittedBlockHeader, lamports: Lamports, calls: seq<Call>, i: nat)
    requires i < |calls|
    ensures KeepsWork(env, c, lamports, calls, i)
            <==> WorkFits(env, Run(env, InitialState(env, c, lamports), calls[..i]), calls[i])
  {
    hide WorkFits, Executed;
    SoundRun(env, c, lamports, calls[..i]);
    WorkStep(env, c, Run(env, InitialState(env, c, lamports), calls[..i]), calls[i]);
    assert calls[..i + 1][..i] == calls[..i];
  }

  /** Main work never decreases along a run if and only if no append of the run overflows. */
  lemma WorkNeverDecreasesExactly(env: Env, c: CommittedBlockHeader, lamports: Lamports, calls: seq<Call>)
    ensures (forall i :: 0 <= i < |calls| ==> KeepsWork(env, c, lamports, calls, i))
            <==> WorkAlwaysFits(env, c, lamports, calls)
  {
    hide WorkFits, KeepsWork;
    forall i | 0 <= i < |calls|
      ensures KeepsWork(env, c, lamports, calls, i)
              <==> WorkFits(env, Run(env, InitialState(env, c, lamports), calls[..i]), calls[i])
    {
      KeepsWorkExactly(env, c, lamports, calls, i);
    }
    if forall i :: 0 <= i < |calls| ==> KeepsWork(env, c, lamports, calls, i) {
      forall i | 0 <= i < |calls|
        ensures WorkFits(env, Run(env, InitialState(env, c, lamports), calls[..i]), calls[i])
      {
        assert KeepsWork(env, c, lamports, calls, i);
      }
    }
  }

  lemma PrefixFits(env: Env, c: CommittedBlockHeader, lamports: Lamports, calls: seq<Call>, n: nat)
    requires WorkAlwaysFits(env, c, lamports, calls) && n <= |calls|
    ensures WorkAlwaysFits(env, c, lamports, calls[..n])
    ensures n < |calls| ==> WorkFits(env, Run(env, InitialState(env, c, lamports), calls[..n]), calls[n])
  {
    hide WorkFits, Run;
    forall i | 0 <= i < n
      ensures WorkFits(env, Run(env, InitialState(env, c, lamports), calls[..n][..i]), calls[..n][i])
    {
      assert calls[..n][..i] == calls[..i];
    }
  }

  /** Heaviest chain: in a run without overflow, whatever happened in between, the main chain's work has not shrunk,
      and no open fork outweighs it. */
  lemma {:induction false} HeaviestChain(env: Env, c: CommittedBlockHeader, lamports: Lamports, calls: seq<Call>,
                                         i: nat)
    requires WorkAlwaysFits(env, c, lamports, calls) && i <= |calls|
    ensures WorkAfter(env, c, lamports, calls, i) <= WorkAfter(env, c, lamports, calls, |calls|)
    ensures Heaviest(Run(env, InitialState(env, c, lamports), calls))
  {
    hide WorkFits, WorkAlwaysFits, Step, Sound, Val;
    assert calls[..|calls|] == calls;
    if calls != [] {
      hide Heaviest;
      var n := |calls| - 1;
      var front, s := calls[..n], Run(env, InitialState(env, c, lamports), calls[..n]);
      PrefixFits(env, c, lamports, calls, n);
      SoundRun(env, c, lamports, front);
      WorkStep(env, c, s, calls[n]);
      HeaviestChain(env, c, lamports, front, if i < n then i else n);
      HeaviestStep(env, c, s, calls[n]);
      assert i <= n ==> front[..i] == calls[..i];
      assert front[..n] == front;
    }
  }

  ghost predicate HeaviestAfter(env: Env, c: CommittedBlockHeader, lamports: Lamports, calls: seq<Call>, i: nat)
    requires i <= |calls|
  {
    Heaviest(Run(env, InitialState(env, c, lamports), calls[..i]))
  }

  ghost predicate StaysHeaviestAt(env: Env, c: CommittedBlockHeader, lamports: Lamports, calls: seq<Call>, i: nat)
    requires i < |calls|
  {
    StaysHeaviest(env, Run(env, InitialState(env, c, lamports), calls[..i]), calls[i])
  }

  /** At every moment of a run no open fork outweighs the main chain, if and only if every call of the run fits or
      leaves all forks lighter. */
  lemma AlwaysHeaviestExactly(env: Env, c: CommittedBlockHeader, lamports: Lamports, calls: seq<Call>)
    ensures (forall i :: 0 <= i <= |calls| ==> HeaviestAfter(env, c, lamports, calls, i))
            <==> forall i :: 0 <= i < |calls| ==> StaysHeaviestAt(env, c, lamports, calls, i)
  {
    hide HeaviestAfter, StaysHeaviestAt;
    if forall i :: 0 <= i < |calls| ==> StaysHeaviestAt(env, c, lamports, calls, i) {
      forall i | 0 <= i <= |calls|
        ensures HeaviestAfter(env, c, lamports, calls, i)
      {
        HeaviestUpTo(env, c, lamports, calls, i);
      }
    }
    if forall i :: 0 <= i <= |calls| ==> HeaviestAfter(env, c, lamports, calls, i) {
      forall i | 0 <= i < |calls|
        ensures StaysHeaviestAt(env, c, lamports, calls, i)
      {
        assert HeaviestAfter(env, c, lamports, calls, i + 1);
        HeaviestNext(env, c, lamports, calls, i);
      }
    }
  }

  lemma {:induction false} HeaviestUpTo(env: Env, c: CommittedBlockHeader, lamports: Lamports, calls: seq<Call>, i: nat)
    requires i <= |calls| && forall j :: 0 <= j < i ==> StaysHeaviestAt(env, c, lamports, calls, j)
    ensures HeaviestAfter(env, c, lamports, calls, i)
  {
    hide StaysHeaviestAt;
    if i > 0 {
      HeaviestUpTo(env, c, lamports, calls, i - 1);
      HeaviestNext(env, c, lamports, calls, i - 1);
    }
  }

  lemma HeaviestNext(env: Env, c: CommittedBlockHeader, lamports: Lamports, calls: seq<Call>, i: nat)
    requires i < |calls| && HeaviestAfter(env, c, lamports, calls, i)
    ensures HeaviestAfter(env, c, lamports, calls, i + 1) <==> StaysHeaviestAt(env, c, lamports, calls, i)
  {
    hide StaysHeaviest, Executed, Sound, Heaviest;
    SoundRun(env, c, lamports, calls[..i]);
    HeaviestStepExactly(env, c, Run(env, InitialState(env, c, lamports), calls[..i]), calls[i]);
    assert calls[..i + 1][..i] == calls[..i];
  }

  // ---------------------------------------------------------------- below height 250

  ghost predicate Frozen(env: Env, c: CommittedBlockHeader, s: State) {
    s.main == InitialMain(env.blockHash, c) && s.forks == map[] && s.txs == map[]
  }

  lemma OpensNoFork(env: Env, c: CommittedBlockHeader, s: State, call: Call)
    requires c.blockheight < PRUNING_FACTOR && Frozen(env, c, s) && call.ix.SubmitForkHeaders?
    ensures ForkOutcome(env, s, call).Err?
  {
    hide Headers.Verified;
  }

  lemma FrozenStep(env: Env, c: CommittedBlockHeader, s: State, call: Call)
    requires c.blockheight < PRUNING_FACTOR && Frozen(env, c, s)
    ensures Frozen(env, c, Step(env, s, call))
  {
    hide AppendToMain, LongForked;
    if call.ix.SubmitForkHeaders? {
      OpensNoFork(env, c, s, call);
    }
  }

  /** Initialized below height 250, the relay stays as it is in every run: no header is accepted, no fork opened and
      no transaction proved. */
  lemma {:induction false} FrozenBelow250(env: Env, c: CommittedBlockHeader, lamports: Lamports, calls: seq<Call>)
    requires c.blockheight < PRUNING_FACTOR
    ensures Frozen(env, c, Run(env, InitialState(env, c, lamports), calls))
  {
    hide Step;
    if calls != [] {
      var front := calls[..|calls| - 1];
      FrozenBelow250(env, c, lamports, front);
      FrozenStep(env, c, Run(env, InitialState(env, c, lamports), front), calls[|calls| - 1]);
    }
  }

  // ---------------------------------------------------------------- fork ids

  /** The call succeeds in opening a fork. */
  ghost predicate OpensFork(env: Env, s: State, call: Call) {
    call.ix.SubmitForkHeaders? && call.ix.init && Executed(env, s, call).Ok?
  }

  lemma {:induction false} CounterGrows(env: Env, c: CommittedBlockHeader, lamports: Lamports, calls: seq<Call>, i: nat)
    requires i <= |calls|
    ensures Run(env, InitialState(env, c, lamports), calls[..i]).main.forkCounter
         <= Run(env, InitialState(env, c, lamports), calls).main.forkCounter
  {
    hide Step;
    if i == |calls| {
      assert calls[..i] == calls;
    } else {
      var front := calls[..|calls| - 1];
      CounterGrows(env, c, lamports, front, i);
      assert front[..i] == calls[..i];
      SoundRun(env, c, lamports, front);
      SoundStep(env, c, Run(env, InitialState(env, c, lamports), front), calls[|calls| - 1]);
    }
  }

  /** No fork id is ever opened twice, by any signer and even after its account was closed: ids strictly increase. */
  lemma ForkIdsNeverReused(env: Env, c: CommittedBlockHeader, lamports: Lamports, calls: seq<Call>, i: nat, j: nat)
    requires i < j < |calls|
    requires OpensFork(env, Run(env, InitialState(env, c, lamports), calls[..i]), calls[i])
    requires OpensFork(env, Run(env, InitialState(env, c, lamports), calls[..j]), calls[j])
    ensures calls[i].ix.forkId < calls[j].ix.forkId
  {
    hide Headers.Verified, LongForked, Sound;
    var s0 := InitialState(env, c, lamports);
    SoundRun(env, c, lamports, calls[..i]);
    SoundRun(env, c, lamports, calls[..j]);
    LongForkStep(env, c, Run(env, s0, calls[..i]), calls[i]);
    LongForkStep(env, c, Run(env, s0, calls[..j]), calls[j]);
    assert calls[..j][..i + 1] == calls[..i + 1] && calls[..i + 1][..i] == calls[..i];
    CounterGrows(env, c, lamports, calls[..j], i + 1);
  }

  /** Every open fork: a used id, and 1 to 250 linked headers whose tip is at start_height + length. */
  lemma OpenForksAreWellFormed(env: Env, c: CommittedBlockHeader, lamports: Lamports, calls: seq<Call>, key: ForkKey)
    requires key in Run(env, InitialState(env, c, lamports), calls).forks
    ensures var s := Run(env, InitialState(env, c, lamports), calls);
            key.id < s.main.forkCounter && WellFormed(env.blockHash, c, s.forks[key])
  {
    hide WellFormed, Run;
    SoundRun(env, c, lamports, calls);
    ForkIsWellFormed(env.blockHash, c, Run(env, InitialState(env, c, lamports), calls).forks[key]);
  }

  /** 1 to 250 headers, each a valid successor of the one before, the first of an anchored base at start_height; the
      last is the recorded tip, at start_height + length. */
  ghost predicate WellFormed(bh: BlockHash, genesis: CommittedBlockHeader, f: ForkView) {
    && 1 <= f.length <= 250 && Filled(f)
    && (forall i :: 0 < i < f.length ==> Links(bh, HeaderIn(f, i - 1), HeaderIn(f, i)))
    && f.tipCommitHash == CommitHash(HeaderIn(f, f.length - 1))
    && HeaderIn(f, f.length - 1).blockheight == f.startHeight + f.length
    && exists base :: Anchored(bh, genesis, base) && base.blockheight == f.startHeight &&
         Links(bh, base, HeaderIn(f, 0))
  }

  lemma ForkIsWellFormed(bh: BlockHash, genesis: CommittedBlockHeader, f: ForkView)
    requires ForkSound(bh, genesis, f)
    ensures WellFormed(bh, genesis, f)
  {
    hide Anchored;
    var base :| Anchored(bh, genesis, base) && ForkHangsOff(bh, f, base);
    var chain := [base] + ForkHeaders(f);
    ChainHeights(bh, chain, f.length);
    assert Links(bh, chain[0], chain[1]);
    forall i | 0 < i < f.length
      ensures Links(bh, HeaderIn(f, i - 1), HeaderIn(f, i))
    {
      assert Links(bh, chain[i], chain[i + 1]);
    }
  }
}
