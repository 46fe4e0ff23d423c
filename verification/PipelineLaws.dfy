/** Laws of the commit pipeline over one stop and over whole runs with errors, crashes and restarts. */
module PipelineLaws {
  import opened Types
  import opened Blocks
  import opened Governance
  import opened Rewards
  import opened RewardDistribution
  import opened Pipeline

  // ----- The reorg check -------------------------------------------------------------------------------

  /**
   Once the block is stored, no retry of the same candidate passes the check. So a staking delta
   that failed to apply stays unapplied.
  */
  lemma RetryAfterStoreIsDropped(ex: Executor, n: Node, b: Block, st: Stage, again: Stage)
    requires CanStop(ex, n, b, st) && Order(st) >= 6 && b.header.number > 0
    requires CanStop(ex, Stop(ex, n, b, st), b, again)
    ensures Order(again) <= 2
    ensures st.ApplyingDelta? ==> Stop(ex, Stop(ex, n, b, st), b, again).disk.staking == n.disk.staking
  {
    CacheAfterStore(ex, n, b, st);
  }

  lemma CacheAfterStore(ex: Executor, n: Node, b: Block, st: Stage)
    requires CanStop(ex, n, b, st) && Order(st) >= 6
    ensures Stop(ex, n, b, st).cache == Some(b.header.number)
  {
    StoredCache(n, Execute(ex, n, b), b);
    if Order(st) >= 7 {
      LateStop(ex, n, b, st);
    }
  }

  lemma TipAfterStore(ex: Executor, n: Node, b: Block, st: Stage)
    requires CanStop(ex, n, b, st) && Order(st) >= 6
    ensures Stop(ex, n, b, st).disk.latest == Some(b.header.number)
  {
    StoredTip(n, Execute(ex, n, b), b);
    if Order(st) >= 7 {
      LateStop(ex, n, b, st);
    }
  }

  lemma StoredTip(n: Node, out: Outcome, b: Block)
    requires out.result.Some?
    ensures Stored(n, out, b).disk.latest == Swapped(n, out, b).disk.latest == Some(b.header.number)
  {
  }

  lemma StoredCache(n: Node, out: Outcome, b: Block)
    requires out.result.Some? && HeadMatches(n, b)
    ensures Stored(n, out, b).cache == Swapped(n, out, b).cache == Some(b.header.number)
  {
  }

  // ----- What the late steps leave alone -----------------------------------------------------------------

  /** Same chain, same trie nodes, same staking store and head: only accounts, registries and live set may differ. */
  predicate SameChain(a: Node, b: Node) {
    && b.disk == a.disk.(accounts := b.disk.accounts, gov := b.disk.gov)
    && b.cache == a.cache
  }

  ghost predicate AgreesExcept(a: Accounts, b: Accounts, dirty: set<Address>) {
    forall x | x !in dirty :: (x in a <==> x in b) && (x in a ==> a[x] == b[x])
  }

  /** The live set is as it was, or has the interval's credits on top. */
  ghost predicate CreditedFrom(live: Option<ValidatorSet>, before: Option<ValidatorSet>, h: Header) {
    live == before || (before.Some? && exists fees: u128 :: live == Some(Distribute(before.value, h.number, h.coinbase, fees)))
  }

  lemma MintKeepsChain(n: Node, mint: u128)
    ensures SameChain(n, WithMint(n, mint)) && WithMint(n, mint).live == n.live
    ensures AgreesExcept(WithMint(n, mint).disk.accounts, n.disk.accounts, {STAKING_PRECOMPILE_ADDR})
  {
  }

  lemma RewardsKeepChain(n: Node, b: Block, payout: Payout)
    ensures SameChain(n, WithRewards(n, b, payout))
    ensures AgreesExcept(WithRewards(n, b, payout).disk.accounts, n.disk.accounts, {STAKING_PRECOMPILE_ADDR})
    ensures CreditedFrom(WithRewards(n, b, payout).live, n.live, b.header)
  {
    if PaysAt(n, b.header.number) && payout.Paid? {
      MintKeepsChain(n, EscrowMint(b.header.number, FeesSeen(n.disk, payout.unread, b.header.number)));
    }
  }

  function Escrow(n: Node): nat {
    AccountAt(n.disk.accounts, STAKING_PRECOMPILE_ADDR).balance
  }

  /** The validators are never owed more of an interval than its mint put into escrow. */
  lemma PayIsCovered(n: Node, h: Header, fees: u128)
    requires n.live.Some? && StakeSum(n.live.value.validators, n.live.value.activeSet) <= U128_MAX
    requires Escrow(n) + EscrowMint(h.number, fees) <= U128_MAX
    ensures Escrow(Pay(n, h, fees)) - Escrow(n) == EscrowMint(h.number, fees)
    ensures Claims(Pay(n, h, fees).live.value.validators) - Claims(n.live.value.validators)
         <= Escrow(Pay(n, h, fees)) - Escrow(n)
  {
    CreditsCoveredByMint(n.live.value, h.number, h.coinbase, fees);
  }

  /** Every stop from the staking step on has the block, the delta and the swap of `Swapped`. */
  lemma LateStop(ex: Executor, n: Node, b: Block, st: Stage)
    requires CanStop(ex, n, b, st) && Order(st) >= 7
    ensures var s, swapped := Stop(ex, n, b, st), Swapped(n, Execute(ex, n, b), b);
            && SameChain(swapped, s)
            && AgreesExcept(s.disk.accounts, swapped.disk.accounts, if Order(st) >= 10 then {STAKING_PRECOMPILE_ADDR} else {})
            && CreditedFrom(s.live, swapped.live, b.header)
  {
    LateStopAfter(n, Execute(ex, n, b), b, st);
  }

  lemma LateStopAfter(n: Node, out: Outcome, b: Block, st: Stage)
    requires out.result.Some? && Order(st) >= 7
    ensures var s, swapped := StopAfter(n, out, b, st), Swapped(n, out, b);
            && SameChain(swapped, s)
            && AgreesExcept(s.disk.accounts, swapped.disk.accounts, if Order(st) >= 10 then {STAKING_PRECOMPILE_ADDR} else {})
            && CreditedFrom(s.live, swapped.live, b.header)
  {
    var swapped := Swapped(n, out, b);
    var g := Governed(n, out, b);
    GovernanceKeepsChain(swapped, b.header.number);
    var p := Patch(b, out.result.value);
    match st
    case Minting(unread) =>
      MintKeepsChain(g, EscrowMint(b.header.number, FeesSeen(g.disk, unread, b.header.number)));
    case Retaining(payout) => RewardsKeepChain(g, p, payout);
    case Finished(payout) =>
      RewardsKeepChain(g, p, payout);
      assert StopAfter(n, out, b, st) == WithRetained(Rewarded(n, out, b, payout), p);
    case _ =>
  }

  lemma GovernanceKeepsChain(n: Node, block: nat)
    ensures SameChain(n, WithGovernance(n, block))
    ensures WithGovernance(n, block).disk.accounts == n.disk.accounts && WithGovernance(n, block).live == n.live
  {
  }

  // ----- What is durable when, and when the live set is swapped ------------------------------------------

  predicate BlockOnDisk(d: Disk, b: Block) {
    && b.header.number in d.numbers && d.numbers[b.header.number] == Hash(b.header)
    && Hash(b.header) in d.blocks && d.blocks[Hash(b.header)] == b
    && d.latest == Some(b.header.number)
  }

  /**
   A commit that returns to its caller has replaced the live set by the executed one exactly when
   block and staking delta are both on disk; before that, neither the set nor the staking store moved.
  */
  lemma SwapIffDurable(ex: Executor, n: Node, b: Block, st: Stage)
    requires CanStop(ex, n, b, st) && n.live.Some? && Order(st) >= 2
    requires st.ApplyingDelta? ==> !IsEmptyDelta(Execute(ex, n, b).result.value.delta)
    ensures var r := Execute(ex, n, b).result.value;
            var s := Stop(ex, n, b, st);
            if Order(st) >= 7 then
              && BlockOnDisk(s.disk, Patch(b, r)) && CreditedFrom(s.live, Some(r.validators), b.header)
              && (s.disk.staking == ApplyDelta(n.disk.staking, r.delta))
            else s.live == n.live && s.disk.staking == n.disk.staking
    ensures Order(st) <= 5 ==>
              var d := Stop(ex, n, b, st).disk;
              d.blocks == n.disk.blocks && d.numbers == n.disk.numbers && d.latest == n.disk.latest
  {
    if Order(st) >= 7 {
      var out := Execute(ex, n, b);
      LateStop(ex, n, b, st);
      EmptyDeltaIsIdentity(n.disk.staking, out.result.value.delta);
      assert Swapped(n, out, b).live == Some(out.result.value.validators);
    }
  }

  lemma EmptyDeltaIsIdentity(s: StakingStore, d: StakingDelta)
    ensures IsEmptyDelta(d) ==> ApplyDelta(s, d) == s
  {
  }

  // ----- Partial account writes --------------------------------------------------------------------------

  /** The sender's first transaction in the block is the `i`-th. */
  predicate FirstOfSender(b: Block, i: nat) {
    i < |b.txs| && forall j | 0 <= j < i :: b.txs[j].from != b.txs[i].from
  }

  /** What every transaction is checked against: an executed block starts each sender at its stored nonce and moves it on. */
  ghost predicate ChecksNonces(ex: Executor) {
    forall b: Block, view: Accounts, vs: Option<ValidatorSet>, gov: Gov, counter: nat, staking: StakingStore ::
      ex(b, view, vs, gov, counter, staking).result.Some? ==>
        forall i: nat | FirstOfSender(b, i) && b.txs[i].from in view ::
          && view[b.txs[i].from].nonce == b.txs[i].nonce
          && b.txs[i].from in ex(b, view, vs, gov, counter, staking).result.value.accounts
          && ex(b, view, vs, gov, counter, staking).result.value.accounts[b.txs[i].from].nonce > b.txs[i].nonce
  }

  /**
   A stop between the first account write and the block write is not recoverable by producing the
   same block again: once a sender's account is written, its transactions no longer execute.
  */
  lemma PartialWriteBlocksReplay(ex: Executor, n: Node, b: Block, st: Stage, i: nat)
    requires ChecksNonces(ex) && CanStop(ex, n, b, st) && FirstOfSender(b, i)
    requires (st.PuttingAccounts? && b.txs[i].from in st.done) || st.CommittingNodes? || st.PuttingBlock?
    ensures Execute(ex, Stop(ex, n, b, st), b).result.None?
  {
    var s := Stop(ex, n, b, st);
    var sender := b.txs[i].from;
    assert sender in Touched(b);
    var r := ex(b, View(b, n.disk.accounts), n.live, n.disk.gov, n.disk.proposalCounter, n.disk.staking).result.value;
    assert sender in View(b, n.disk.accounts);
    assert sender in r.accounts && r.accounts[sender].nonce > b.txs[i].nonce;
    assert View(b, s.disk.accounts)[sender] == r.accounts[sender];
    var again := ex(b, View(b, s.disk.accounts), s.live, s.disk.gov, s.disk.proposalCounter, s.disk.staking);
    assert FirstOfSender(b, i) && sender in View(b, s.disk.accounts);
    assert View(b, s.disk.accounts)[sender].nonce != b.txs[i].nonce;
  }

  /** Execution stored nothing new about proposals. */
  predicate LeavesRegistry(n: Node, out: Outcome) {
    out.proposals == n.disk.gov.proposals && out.counter == n.disk.proposalCounter
  }

  /** With no touched account written and the stored registry left alone, the same block executes the same. */
  lemma CleanStopReplays(ex: Executor, n: Node, b: Block, st: Stage)
    requires CanStop(ex, n, b, st) && Order(st) <= 3
    requires st.PuttingAccounts? ==> st.done !! Touched(b)
    requires Order(st) >= 1 ==> LeavesRegistry(n, Execute(ex, n, b))
    ensures Execute(ex, Stop(ex, n, b, st), b) == Execute(ex, n, b)
  {
    var s := Stop(ex, n, b, st);
    assert View(b, s.disk.accounts) == View(b, n.disk.accounts);
    assert s.disk.gov == n.disk.gov;
  }

  // ----- Runs --------------------------------------------------------------------------------------------

  /** A commit that stopped somewhere, or a restart; a crash is a stop followed by a restart. */
  datatype Event =
    | Attempt(block: Block, stage: Stage)
    | Boot(pointerRead: bool, live: Option<ValidatorSet>, retained: seq<Retained>)

  predicate Legal(ex: Executor, n: Node, e: Event) {
    e.Attempt? ==> CanStop(ex, n, e.block, e.stage)
  }

  /** Opening the database reads the tip pointer; a failed read leaves the cached head unset. */
  ghost function After(ex: Executor, n: Node, e: Event): Node
    requires Legal(ex, n, e)
  {
    match e
    case Attempt(b, st) => Stop(ex, n, b, st)
    case Boot(pointerRead, live, retained) =>
      Node(n.disk, if pointerRead then n.disk.latest else None, live, retained)
  }

  ghost predicate LegalRun(ex: Executor, n: Node, es: seq<Event>)
    decreases |es|, 0
  {
    es == [] || (LegalRun(ex, n, es[..|es| - 1]) && Legal(ex, Run(ex, n, es[..|es| - 1]), es[|es| - 1]))
  }

  ghost function Run(ex: Executor, n: Node, es: seq<Event>): Node
    requires LegalRun(ex, n, es)
    decreases |es|, 1
  {
    if es == [] then n else After(ex, Run(ex, n, es[..|es| - 1]), es[|es| - 1])
  }

  // ----- Trie nodes of stored blocks ---------------------------------------------------------------------

  /** The nodes of the new root are on disk already, were flushed while executing, or are handed over to be written. */
  ghost predicate HandedOver(reach: H256 -> set<H256>, n: Node, out: Outcome)
    requires out.result.Some?
  {
    reach(out.result.value.stateRoot) <= n.disk.nodes + out.flushed + out.result.value.nodes
  }

  predicate Stores(e: Event) {
    e.Attempt? && Order(e.stage) >= 6
  }

  lemma NodesAfterStop(ex: Executor, n: Node, b: Block, st: Stage)
    requires CanStop(ex, n, b, st)
    ensures n.disk.nodes <= Stop(ex, n, b, st).disk.nodes
    ensures Order(st) >= 6 ==>
              var out := Execute(ex, n, b);
              Stop(ex, n, b, st).disk.nodes == n.disk.nodes + out.flushed + out.result.value.nodes
  {
    if Order(st) >= 7 {
      LateStop(ex, n, b, st);
    }
  }

  /** A block that is stored has its state complete on disk exactly when its root was handed over. */
  lemma StoredCompleteIff(reach: H256 -> set<H256>, ex: Executor, n: Node, b: Block, st: Stage)
    requires CanStop(ex, n, b, st) && Order(st) >= 6
    ensures var r := Execute(ex, n, b).result.value;
            && BlockOnDisk(Stop(ex, n, b, st).disk, Patch(b, r))
            && (reach(Patch(b, r).header.stateRoot) <= Stop(ex, n, b, st).disk.nodes <==> HandedOver(reach, n, Execute(ex, n, b)))
  {
    NodesAfterStop(ex, n, b, st);
    if Order(st) >= 7 {
      LateStop(ex, n, b, st);
    }
  }

  /** The blocks that the run stored. */
  ghost function StoredBy(ex: Executor, n: Node, es: seq<Event>): set<Block>
    requires LegalRun(ex, n, es)
  {
    if es == [] then {} else
    var before, mid, e := StoredBy(ex, n, es[..|es| - 1]), Run(ex, n, es[..|es| - 1]), es[|es| - 1];
    if Stores(e) then before + {Patch(e.block, Execute(ex, mid, e.block).result.value)} else before
  }

  ghost predicate StoredComplete(reach: H256 -> set<H256>, ex: Executor, n: Node, es: seq<Event>)
    requires LegalRun(ex, n, es)
  {
    forall b | b in StoredBy(ex, n, es) :: reach(b.header.stateRoot) <= Run(ex, n, es).disk.nodes
  }

  /** At every point of the run, every block it stored so far is complete. */
  ghost predicate CompleteThroughout(reach: H256 -> set<H256>, ex: Executor, n: Node, es: seq<Event>)
    requires LegalRun(ex, n, es)
  {
    StoredComplete(reach, ex, n, es) && (es != [] ==> CompleteThroughout(reach, ex, n, es[..|es| - 1]))
  }

  ghost predicate AllHandedOver(reach: H256 -> set<H256>, ex: Executor, n: Node, es: seq<Event>)
    requires LegalRun(ex, n, es)
  {
    es != [] ==>
      var init, e := es[..|es| - 1], es[|es| - 1];
      && AllHandedOver(reach, ex, n, init)
      && (Stores(e) ==> HandedOver(reach, Run(ex, n, init), Execute(ex, Run(ex, n, init), e.block)))
  }

  /**
   With no pruning, over every run of commits stopped anywhere and restarts: the blocks it stores
   are complete on disk from then on if and only if each of their roots was handed over.
  */
  lemma {:induction false} NodesDurableIff(reach: H256 -> set<H256>, ex: Executor, n: Node, es: seq<Event>)
    requires LegalRun(ex, n, es)
    ensures CompleteThroughout(reach, ex, n, es) <==> AllHandedOver(reach, ex, n, es)
  {
    if es != [] {
      var init, e := es[..|es| - 1], es[|es| - 1];
      NodesDurableIff(reach, ex, n, init);
      if CompleteThroughout(reach, ex, n, init) {
        LastEventComplete(reach, ex, n, es);
      }
    }
  }

  lemma LastEventComplete(reach: H256 -> set<H256>, ex: Executor, n: Node, es: seq<Event>)
    requires LegalRun(ex, n, es) && es != [] && StoredComplete(reach, ex, n, es[..|es| - 1])
    ensures var mid, e := Run(ex, n, es[..|es| - 1]), es[|es| - 1];
            StoredComplete(reach, ex, n, es) <==> (Stores(e) ==> HandedOver(reach, mid, Execute(ex, mid, e.block)))
  {
    var init, e := es[..|es| - 1], es[|es| - 1];
    var mid := Run(ex, n, init);
    if e.Attempt? {
      NodesAfterStop(ex, mid, e.block, e.stage);
    }
    assert forall b | b in StoredBy(ex, n, init) :: reach(b.header.stateRoot) <= Run(ex, n, es).disk.nodes;
    if Stores(e) {
      StoredCompleteIff(reach, ex, mid, e.block, e.stage);
      assert Patch(e.block, Execute(ex, mid, e.block).result.value) in StoredBy(ex, n, es);
    }
  }

  /** Execution keeps the trie nodes to itself: it neither flushes any nor leaves any to be written. */
  ghost predicate HandsOverNothing(ex: Executor) {
    forall b: Block, view: Accounts, vs: Option<ValidatorSet>, gov: Gov, counter: nat, staking: StakingStore ::
      var out := ex(b, view, vs, gov, counter, staking);
      out.flushed == {} && (out.result.Some? ==> out.result.value.nodes == {})
  }

  lemma ExecuteHandsOverNothing(ex: Executor, n: Node, b: Block)
    requires HandsOverNothing(ex)
    ensures Execute(ex, n, b).flushed == {}
    ensures Execute(ex, n, b).result.Some? ==> Execute(ex, n, b).result.value.nodes == {}
  {
  }

  lemma NodesStay(ex: Executor, n: Node, b: Block, st: Stage)
    requires HandsOverNothing(ex) && CanStop(ex, n, b, st)
    ensures Stop(ex, n, b, st).disk.nodes == n.disk.nodes
  {
    ExecuteHandsOverNothing(ex, n, b);
    if Order(st) >= 6 {
      NodesAfterStop(ex, n, b, st);
    }
  }

  /**
   With such an executor no run ever writes a trie node, and a block it stores is complete exactly
   when the starting disk had its state; from a disk without nodes that is: when its root reaches nothing.
  */
  lemma {:induction false} NothingHandedOver(reach: H256 -> set<H256>, ex: Executor, n: Node, es: seq<Event>)
    requires HandsOverNothing(ex) && LegalRun(ex, n, es)
    ensures Run(ex, n, es).disk.nodes == n.disk.nodes
    ensures AllHandedOver(reach, ex, n, es) <==>
            forall b | b in StoredBy(ex, n, es) :: reach(b.header.stateRoot) <= n.disk.nodes
  {
    if es != [] {
      var init, e := es[..|es| - 1], es[|es| - 1];
      NothingHandedOver(reach, ex, n, init);
      var mid := Run(ex, n, init);
      if e.Attempt? {
        NodesStay(ex, mid, e.block, e.stage);
        ExecuteHandsOverNothing(ex, mid, e.block);
      }
    }
  }

  // ----- The account table against the tip ---------------------------------------------------------------

  /**
   The starting accounts with the diffs of the stored blocks, kept without looking at the disk, and
   the addresses where the disk may differ.
  */
  datatype Published = Published(accounts: Accounts, dirty: set<Address>)

  /** A stored block publishes its diff and so cleans the rows it writes; everything else only adds dirt. */
  ghost function Publish(ex: Executor, n: Node, before: Published, e: Event): Published
    requires Legal(ex, n, e)
  {
    if e.Boot? || Order(e.stage) <= 2 then before else
    var changes := Execute(ex, n, e.block).result.value.accounts;
    if e.stage.PuttingAccounts? then before.(dirty := before.dirty + e.stage.done)
    else if Order(e.stage) <= 5 then before.(dirty := before.dirty + changes.Keys)
    else Published(before.accounts + changes,
                   before.dirty - changes.Keys + if Order(e.stage) >= 10 then {STAKING_PRECOMPILE_ADDR} else {})
  }

  ghost function PublishedBy(ex: Executor, n: Node, es: seq<Event>): Published
    requires LegalRun(ex, n, es)
  {
    if es == [] then Published(n.disk.accounts, {}) else
    Publish(ex, Run(ex, n, es[..|es| - 1]), PublishedBy(ex, n, es[..|es| - 1]), es[|es| - 1])
  }

  lemma SwappedAccounts(n: Node, out: Outcome, b: Block)
    requires out.result.Some?
    ensures Stored(n, out, b).disk.accounts == Swapped(n, out, b).disk.accounts
         == n.disk.accounts + out.result.value.accounts
  {
  }

  lemma LateAccounts(n: Node, out: Outcome, b: Block, st: Stage)
    requires out.result.Some? && Order(st) >= 6
    ensures AgreesExcept(StopAfter(n, out, b, st).disk.accounts, n.disk.accounts + out.result.value.accounts,
                         if Order(st) >= 10 then {STAKING_PRECOMPILE_ADDR} else {})
  {
    SwappedAccounts(n, out, b);
    if Order(st) >= 7 {
      LateStopAfter(n, out, b, st);
    }
  }

  lemma EarlyAccounts(n: Node, out: Outcome, b: Block, st: Stage, before: Published)
    requires 3 <= Order(st) <= 5 && out.result.Some? && (st.PuttingAccounts? ==> st.done <= out.result.value.accounts.Keys)
    requires AgreesExcept(n.disk.accounts, before.accounts, before.dirty)
    ensures AgreesExcept(StopAfter(n, out, b, st).disk.accounts, before.accounts,
                         before.dirty + if st.PuttingAccounts? then st.done else out.result.value.accounts.Keys)
  {
  }

  lemma PublishStep(ex: Executor, n: Node, before: Published, e: Event)
    requires Legal(ex, n, e) && AgreesExcept(n.disk.accounts, before.accounts, before.dirty)
    ensures AgreesExcept(After(ex, n, e).disk.accounts, Publish(ex, n, before, e).accounts, Publish(ex, n, before, e).dirty)
  {
    if e.Attempt? && Order(e.stage) >= 3 {
      var out := Execute(ex, n, e.block);
      if Order(e.stage) <= 5 {
        EarlyAccounts(n, out, e.block, e.stage, before);
      } else {
        LatePublish(n, out, e.block, e.stage, before);
      }
    }
  }

  lemma LatePublish(n: Node, out: Outcome, b: Block, st: Stage, before: Published)
    requires Order(st) >= 6 && out.result.Some? && AgreesExcept(n.disk.accounts, before.accounts, before.dirty)
    ensures var changes := out.result.value.accounts;
            AgreesExcept(StopAfter(n, out, b, st).disk.accounts, before.accounts + changes,
                         before.dirty - changes.Keys + if Order(st) >= 10 then {STAKING_PRECOMPILE_ADDR} else {})
  {
    LateAccounts(n, out, b, st);
  }

  /**
   The account table differs from the diffs of the stored blocks only at rows that a commit wrote
   without storing its block, or that the escrow mint wrote, and that no stored block has written since.
  */
  lemma {:induction false} AccountsAheadOnlyUnpublished(ex: Executor, n: Node, es: seq<Event>)
    requires LegalRun(ex, n, es)
    ensures AgreesExcept(Run(ex, n, es).disk.accounts, PublishedBy(ex, n, es).accounts, PublishedBy(ex, n, es).dirty)
  {
    if es != [] {
      var init, e := es[..|es| - 1], es[|es| - 1];
      AccountsAheadOnlyUnpublished(ex, n, init);
      PublishStep(ex, Run(ex, n, init), PublishedBy(ex, n, init), e);
    }
  }

  /** The event may write the row of `x`. */
  ghost predicate Writes(ex: Executor, n: Node, e: Event, x: Address)
    requires Legal(ex, n, e)
  {
    e.Attempt? && Order(e.stage) >= 3 &&
    (x in (if e.stage.PuttingAccounts? then e.stage.done else Execute(ex, n, e.block).result.value.accounts.Keys)
     || (x == STAKING_PRECOMPILE_ADDR && Order(e.stage) >= 10))
  }

  ghost predicate NeverWrites(ex: Executor, n: Node, es: seq<Event>, x: Address)
    requires LegalRun(ex, n, es)
  {
    es != [] ==> NeverWrites(ex, n, es[..|es| - 1], x) && !Writes(ex, Run(ex, n, es[..|es| - 1]), es[|es| - 1], x)
  }

  lemma UnwrittenRowStays(ex: Executor, n: Node, e: Event, x: Address)
    requires Legal(ex, n, e) && !Writes(ex, n, e, x)
    ensures AccountAt(After(ex, n, e).disk.accounts, x) == AccountAt(n.disk.accounts, x)
  {
    if e.Attempt? && Order(e.stage) >= 6 {
      LateAccounts(n, Execute(ex, n, e.block), e.block, e.stage);
    }
  }

  /** A leaked row stays leaked: until something writes it again, restarts included, it keeps its value and its mark. */
  lemma {:induction false} LeakedRowStays(ex: Executor, n: Node, es: seq<Event>, x: Address, before: Published)
    requires LegalRun(ex, n, es) && NeverWrites(ex, n, es, x)
    ensures AccountAt(Run(ex, n, es).disk.accounts, x) == AccountAt(n.disk.accounts, x)
    ensures x in PublishFrom(ex, n, before, es).dirty <==> x in before.dirty
  {
    if es != [] {
      LeakedRowStays(ex, n, es[..|es| - 1], x, before);
      UnwrittenRowStays(ex, Run(ex, n, es[..|es| - 1]), es[|es| - 1], x);
    }
  }

  ghost function PublishFrom(ex: Executor, n: Node, before: Published, es: seq<Event>): Published
    requires LegalRun(ex, n, es)
  {
    if es == [] then before else
    Publish(ex, Run(ex, n, es[..|es| - 1]), PublishFrom(ex, n, before, es[..|es| - 1]), es[|es| - 1])
  }

  /** Executing an empty block pays its coinbase the block reward and does nothing else to it. */
  ghost predicate PaysBlockReward(ex: Executor) {
    forall b: Block, view: Accounts, vs: Option<ValidatorSet>, gov: Gov, counter: nat, staking: StakingStore ::
      var out := ex(b, view, vs, gov, counter, staking);
      out.result.Some? && b.txs == [] && b.header.coinbase in view && BlockRewardAt(b.header.number) > 0 ==>
        var c := b.header.coinbase;
        && c in out.result.value.accounts
        && out.result.value.accounts[c] == view[c].(balance := Sat(view[c].balance + BlockRewardAt(b.header.number)))
  }

  lemma EmptyBlockPays(ex: Executor, n: Node, b: Block)
    requires PaysBlockReward(ex) && b.txs == [] && BlockRewardAt(b.header.number) > 0 && Execute(ex, n, b).result.Some?
    ensures var c, out := b.header.coinbase, Execute(ex, n, b);
            && c in out.result.value.accounts
            && out.result.value.accounts[c].balance
                 == Sat(AccountAt(n.disk.accounts, c).balance + BlockRewardAt(b.header.number))
  {
    assert b.header.coinbase in Touched(b);
  }

  /**
   The leak pays twice: an empty block stopped just before its block write has paid its coinbase on
   disk, and the next empty block of that height pays it again.
  */
  lemma StoppedRewardIsPaidTwice(ex: Executor, n: Node, b: Block, again: Block, st: Stage)
    requires PaysBlockReward(ex) && CanStop(ex, n, b, PuttingBlock) && b.txs == again.txs == []
    requires again.header.number == b.header.number && again.header.coinbase == b.header.coinbase
    requires BlockRewardAt(b.header.number) > 0 && b.header.coinbase != STAKING_PRECOMPILE_ADDR
    requires CanStop(ex, Stop(ex, n, b, PuttingBlock), again, st) && Order(st) >= 6
    ensures var c, r := b.header.coinbase, BlockRewardAt(b.header.number);
            AccountAt(Stop(ex, Stop(ex, n, b, PuttingBlock), again, st).disk.accounts, c).balance
              == Sat(AccountAt(n.disk.accounts, c).balance + 2 * r)
  {
    var mid := Stop(ex, n, b, PuttingBlock);
    EmptyBlockPays(ex, n, b);
    EmptyBlockPays(ex, mid, again);
    LateAccounts(mid, Execute(ex, mid, again), again, st);
  }
}
