/**
 The chain the commit pipeline implements, written as one plain state: a list of blocks with the
 accounts, validator set, staking rows and registries after the last of them. It has no head
 cache, no index by hash, no clone of the validator set and no order of writes.
*/
module Sequential {
  import opened Types
  import opened Blocks
  import opened Governance
  import opened Rewards
  import opened RewardDistribution
  import opened Pipeline
  import opened PipelineLaws
  import opened PipelineGovernance
  import GR = GovernanceRuns

  datatype Ledger = Ledger(
    chain: seq<Block>,
    accounts: Accounts,
    live: Option<ValidatorSet>,
    staking: StakingStore,
    gov: Gov,
    counter: nat)

  function ExecuteOn(ex: Executor, l: Ledger, b: Block): Outcome {
    ex(b, View(b, l.accounts), l.live, l.gov, l.counter, l.staking)
  }

  /** The tips of the blocks that could be read. */
  function TipsOfChain(receipts: Receipts, bs: seq<Block>, unread: set<nat>): nat {
    if bs == [] then 0 else
    var before, last := TipsOfChain(receipts, bs[..|bs| - 1], unread), bs[|bs| - 1];
    if last.header.number in unread then before else before + TipsOf(receipts, last.txs, last.header.baseFee)
  }

  /** What the interval pays is created in the escrow account and owed to the validators. */
  function Credited(l: Ledger, h: Header, fees: u128): Ledger
    requires l.live.Some?
  {
    var mint := IntervalTotal(h.number, fees);
    var escrow := AccountAt(l.accounts, STAKING_PRECOMPILE_ADDR);
    l.(accounts := if mint == 0 then l.accounts
                   else l.accounts[STAKING_PRECOMPILE_ADDR := escrow.(balance := Sat(escrow.balance + mint))],
       live := Some(Distribute(l.live.value, h.number, h.coinbase, fees)))
  }

  /** Mint and credits for what could be read of the last interval of the chain. */
  function Reward(l: Ledger, receipts: Receipts, unread: set<nat>): Ledger
    requires l.chain != [] && l.live.Some?
  {
    Credited(l, l.chain[|l.chain| - 1].header,
             Sat(TipsOfChain(receipts, l.chain[Minus(|l.chain|, REWARD_INTERVAL)..], unread)))
  }

  /** The ledger one block later, the block executed to `out`, its interval reward ending in `payout`. */
  ghost function Seal(l: Ledger, receipts: Receipts, b: Block, out: Outcome, payout: Payout): Ledger
    requires out.result.Some?
  {
    var r := out.result.value;
    var height := |l.chain|;
    var voted := l.gov.(proposals := out.proposals);
    var next := Ledger(
      l.chain + [Patch(b, r)],
      l.accounts + r.accounts,
      if l.live.None? then None else Some(r.validators),
      ApplyDelta(l.staking, r.delta),
      if l.live.None? then Tick(voted, height) else EndOfBlock(voted, ActiveOf(r.validators), height),
      out.counter);
    if height % REWARD_INTERVAL == 0 && l.live.Some? && payout.Paid? then Reward(next, receipts, payout.unread) else next
  }

  datatype Commit = Commit(block: Block, payout: Payout)

  /** A block that does not execute changes nothing. */
  ghost function SealOn(ex: Executor, receipts: Receipts, l: Ledger, c: Commit): Ledger {
    var out := ExecuteOn(ex, l, c.block);
    if out.result.None? then l else Seal(l, receipts, c.block, out, c.payout)
  }

  /** The ledger after the steps `xs`, in order. */
  ghost function Fold<X>(step: (Ledger, X) -> Ledger, l: Ledger, xs: seq<X>): Ledger {
    if xs == [] then l else step(Fold(step, l, xs[..|xs| - 1]), xs[|xs| - 1])
  }

  ghost function Sealing(ex: Executor, receipts: Receipts): (Ledger, Commit) -> Ledger {
    (l: Ledger, c: Commit) => SealOn(ex, receipts, l, c)
  }

  /** The committed blocks alone, executed in place one after the other. */
  ghost function SealAll(ex: Executor, receipts: Receipts, l: Ledger, cs: seq<Commit>): Ledger {
    Fold(Sealing(ex, receipts), l, cs)
  }

  // ----- The node holds the ledger ------------------------------------------------------------------------

  ghost predicate HoldsBlock(d: Disk, h: nat, b: Block) {
    && b.header.number == h
    && h in d.numbers && d.numbers[h] == Hash(b.header)
    && Hash(b.header) in d.blocks && d.blocks[Hash(b.header)] == b
  }

  ghost predicate HoldsChain(n: Node, chain: seq<Block>) {
    && chain != []
    && n.disk.latest == n.cache == Some(|chain| - 1)
    && (forall h | h in n.disk.numbers :: h < |chain|)
    && forall h | 0 <= h < |chain| :: HoldsBlock(n.disk, h, chain[h])
  }

  ghost predicate Holds(n: Node, l: Ledger) {
    && HoldsChain(n, l.chain)
    && n.disk.accounts == l.accounts && n.live == l.live
    && n.disk.staking == l.staking && n.disk.gov == l.gov && n.disk.proposalCounter == l.counter
  }

  lemma {:induction false} TipsAgree(n: Node, chain: seq<Block>, unread: set<nat>, lo: nat, hi: nat)
    requires HoldsChain(n, chain) && lo <= hi <= |chain|
    ensures TipsBetween(ChainOf(n.disk) - unread, n.disk.receipts, lo, hi)
         == TipsOfChain(n.disk.receipts, chain[lo..hi], unread)
    decreases hi
  {
    if lo < hi {
      TipsAgree(n, chain, unread, lo, hi - 1);
      assert HoldsBlock(n.disk, hi - 1, chain[hi - 1]);
      assert chain[lo..hi][..hi - lo - 1] == chain[lo..hi - 1];
    }
  }

  /** Storing the next block extends the chain and disturbs no older block: hashes do not collide. */
  lemma StoringExtends(n: Node, chain: seq<Block>, b: Block)
    requires HoldsChain(n, chain) && b.header.number == |chain|
    ensures HoldsChain(WithBlock(n, b), chain + [b])
  {
    var m := WithBlock(n, b);
    forall h | 0 <= h < |chain| + 1 ensures HoldsBlock(m.disk, h, (chain + [b])[h]) {
      if h < |chain| {
        assert HoldsBlock(n.disk, h, chain[h]);
      }
    }
  }

  /** What a chain needs of a node is only its index, blocks and head. */
  lemma SameIndexHolds(n: Node, m: Node, chain: seq<Block>)
    requires HoldsChain(n, chain)
    requires m.disk.blocks == n.disk.blocks && m.disk.numbers == n.disk.numbers
    requires m.disk.latest == n.disk.latest && m.cache == n.cache
    ensures HoldsChain(m, chain)
  {
    forall h | 0 <= h < |chain| ensures HoldsBlock(m.disk, h, chain[h]) {
      assert HoldsBlock(n.disk, h, chain[h]);
    }
  }

  lemma SwappedHolds(n: Node, l: Ledger, out: Outcome, b: Block)
    requires Holds(n, l) && out.result.Some? && b.header.number == |l.chain|
    ensures var m := Swapped(n, out, b);
            && HoldsChain(m, l.chain + [Patch(b, out.result.value)])
            && m.disk.accounts == l.accounts + out.result.value.accounts
            && m.disk.staking == ApplyDelta(l.staking, out.result.value.delta)
            && m.disk.gov == l.gov.(proposals := out.proposals)
            && m.disk.receipts == n.disk.receipts && m.disk.proposalCounter == out.counter
            && m.live == (if l.live.None? then None else Some(out.result.value.validators))
  {
    var r := out.result.value;
    var before := WithNodes(WithAccounts(WithExecution(n, out), r.accounts), r.nodes);
    SameIndexHolds(n, before, l.chain);
    StoringExtends(before, l.chain, Patch(b, r));
    EmptyDeltaIsIdentity(l.staking, r.delta);
    SameIndexHolds(Stored(n, out, b), Swapped(n, out, b), l.chain + [Patch(b, r)]);
  }

  lemma WindowAgrees(n: Node, chain: seq<Block>, unread: set<nat>)
    requires HoldsChain(n, chain)
    ensures FeesSeen(n.disk, unread, |chain| - 1)
         == Sat(TipsOfChain(n.disk.receipts, chain[Minus(|chain|, REWARD_INTERVAL)..], unread))
  {
    var height := |chain| - 1;
    TipsAgree(n, chain, unread, WindowStart(height), height + 1);
    assert chain[Minus(|chain|, REWARD_INTERVAL)..] == chain[WindowStart(height)..height + 1];
  }

  lemma PayHolds(n: Node, l: Ledger, h: Header, fees: u128)
    requires Holds(n, l) && l.live.Some? && h.number % REWARD_INTERVAL == 0
    ensures Holds(Pay(n, h, fees), Credited(l, h, fees))
  {
    var m := Pay(n, h, fees);
    assert m.disk.accounts == Credited(l, h, fees).accounts;
    SameIndexHolds(n, m, l.chain);
  }

  lemma RewardHolds(n: Node, l: Ledger, b: Block, unread: set<nat>)
    requires Holds(n, l) && l.live.Some? && b == l.chain[|l.chain| - 1]
    requires (|l.chain| - 1) % REWARD_INTERVAL == 0
    ensures Holds(WithRewards(n, b, Paid(unread)), Reward(l, n.disk.receipts, unread))
  {
    var height := |l.chain| - 1;
    assert HoldsBlock(n.disk, height, l.chain[height]);
    WindowAgrees(n, l.chain, unread);
    PayHolds(n, l, b.header, FeesSeen(n.disk, unread, height));
  }

  /** A commit that finished sealed its block on the ledger. */
  lemma CommitSeals(ex: Executor, n: Node, l: Ledger, b: Block, payout: Payout)
    requires Holds(n, l) && CanStop(ex, n, b, Finished(payout)) && b.header.number > 0
    ensures ExecuteOn(ex, l, b).result.Some?
    ensures Holds(Stop(ex, n, b, Finished(payout)), Seal(l, n.disk.receipts, b, ExecuteOn(ex, l, b), payout))
  {
    var out := Execute(ex, n, b);
    assert out == ExecuteOn(ex, l, b);
    var height := |l.chain|;
    SwappedHolds(n, l, out, b);
    var swapped, governed := Swapped(n, out, b), Governed(n, out, b);
    var chain := l.chain + [Patch(b, out.result.value)];
    SameIndexHolds(swapped, governed, chain);
    var next := Ledger(chain, governed.disk.accounts, governed.live, governed.disk.staking, governed.disk.gov, out.counter);
    var last := Rewarded(n, out, b, payout);
    if height % REWARD_INTERVAL == 0 && l.live.Some? && payout.Paid? {
      RewardHolds(governed, next, Patch(b, out.result.value), payout.unread);
      assert Holds(last, Reward(next, n.disk.receipts, payout.unread));
    } else {
      assert last == governed;
    }
    SameIndexHolds(last, WithRetained(last, Patch(b, out.result.value)), Seal(l, n.disk.receipts, b, out, payout).chain);
  }

  // ----- Runs --------------------------------------------------------------------------------------------

  /** Every commit either finished or was given up at or before the reorg check. */
  predicate Clean(es: seq<Event>) {
    forall e | e in es :: e.Attempt? &&
      (Order(e.stage) <= 2 || (e.stage.Finished? && e.block.header.number > 0))
  }

  function Committed(es: seq<Event>): seq<Commit> {
    if es == [] then [] else
    var before, e := Committed(es[..|es| - 1]), es[|es| - 1];
    if e.Attempt? && e.stage.Finished? then before + [Commit(e.block, e.stage.payout)] else before
  }

  /** What a candidate given up at `st` leaves behind on the ledger: the registry as its execution stored it. */
  function Dropped(l: Ledger, out: Outcome, st: Stage): Ledger {
    if st.Seeding? then l else l.(gov := l.gov.(proposals := out.proposals), counter := out.counter)
  }

  ghost function Next(ex: Executor, receipts: Receipts, l: Ledger, e: Event): Ledger {
    if e.Boot? then l
    else if Order(e.stage) <= 2 then Dropped(l, ExecuteOn(ex, l, e.block), e.stage)
    else if e.stage.Finished? then SealOn(ex, receipts, l, Commit(e.block, e.stage.payout))
    else l
  }

  ghost function Replaying(ex: Executor, receipts: Receipts): (Ledger, Event) -> Ledger {
    (l: Ledger, e: Event) => Next(ex, receipts, l, e)
  }

  /** The ledger after a clean run, dropped candidates included. */
  ghost function Replay(ex: Executor, receipts: Receipts, l: Ledger, es: seq<Event>): Ledger {
    Fold(Replaying(ex, receipts), l, es)
  }

  function Registries(l: Ledger): GR.State {
    GR.State(l.gov, l.counter)
  }

  ghost predicate QuietOn(l: Ledger, b: Block, out: Outcome) {
    |out.executed| <= |b.txs| && !HasAcceptedCall(Registries(l), b, out.executed)
  }

  /** No dropped candidate ran a governance call that the registry accepted. */
  ghost predicate Quiet(ex: Executor, receipts: Receipts, l: Ledger, es: seq<Event>) {
    forall i | 0 <= i < |es| && es[i].Attempt? && 1 <= Order(es[i].stage) <= 2 ::
      var before := Replay(ex, receipts, l, es[..i]);
      QuietOn(before, es[i].block, ExecuteOn(ex, before, es[i].block))
  }

  lemma DropHolds(ex: Executor, n: Node, l: Ledger, b: Block, st: Stage)
    requires Holds(n, l) && CanStop(ex, n, b, st) && Order(st) <= 2
    ensures Holds(Stop(ex, n, b, st), Dropped(l, ExecuteOn(ex, l, b), st))
  {
    assert Execute(ex, n, b) == ExecuteOn(ex, l, b);
    SameIndexHolds(n, Stop(ex, n, b, st), l.chain);
  }

  lemma StopKeepsReceipts(ex: Executor, n: Node, b: Block, st: Stage)
    requires CanStop(ex, n, b, st)
    ensures Stop(ex, n, b, st).disk.receipts == n.disk.receipts
  {
    if Order(st) >= 7 {
      LateStop(ex, n, b, st);
    }
  }

  /** After any clean run the node holds exactly the ledger its commits and dropped candidates lead to. */
  lemma {:induction false} RunHolds(ex: Executor, n: Node, l: Ledger, es: seq<Event>)
    requires Holds(n, l) && LegalRun(ex, n, es) && Clean(es)
    ensures Holds(Run(ex, n, es), Replay(ex, n.disk.receipts, l, es))
    ensures Run(ex, n, es).disk.receipts == n.disk.receipts
  {
    if es != [] {
      var init, e := es[..|es| - 1], es[|es| - 1];
      assert Clean(init) && e in es;
      RunHolds(ex, n, l, init);
      var mid, before := Run(ex, n, init), Replay(ex, n.disk.receipts, l, init);
      StopKeepsReceipts(ex, mid, e.block, e.stage);
      if Order(e.stage) <= 2 {
        DropHolds(ex, mid, before, e.block, e.stage);
      } else {
        CommitSeals(ex, mid, before, e.block, e.stage.payout);
      }
    }
  }

  lemma QuietStep(ex: Executor, receipts: Receipts, l: Ledger, e: Event)
    requires e.Attempt? && (Order(e.stage) <= 2 || e.stage.Finished?)
    requires StoresOnlyOps(ex)
    requires 1 <= Order(e.stage) <= 2 ==> QuietOn(l, e.block, ExecuteOn(ex, l, e.block))
    ensures Next(ex, receipts, l, e) == if Order(e.stage) <= 2 then l else SealOn(ex, receipts, l, Commit(e.block, e.stage.payout))
  {
    if 1 <= Order(e.stage) <= 2 {
      ExecutionGovernsOn(ex, l, e.block);
      StoresIffAccepted(e.block, l.live, Registries(l), ExecuteOn(ex, l, e.block));
    }
  }

  lemma ExecutionGovernsOn(ex: Executor, l: Ledger, b: Block)
    requires StoresOnlyOps(ex)
    ensures Governs(b, l.live, Registries(l), ExecuteOn(ex, l, b))
  {
  }

  lemma FoldOneMore<X>(step: (Ledger, X) -> Ledger, l: Ledger, xs: seq<X>, x: X)
    ensures Fold(step, l, xs + [x]) == step(Fold(step, l, xs), x)
  {
    assert (xs + [x])[..|xs|] == xs;
  }

  lemma CommittedOneMore(es: seq<Event>, e: Event)
    ensures Committed(es + [e]) == if e.Attempt? && e.stage.Finished? then Committed(es) + [Commit(e.block, e.stage.payout)] else Committed(es)
  {
    assert (es + [e])[..|es|] == es;
  }

  /** The `i`-th step seals its block when it finished, and changes nothing otherwise. */
  ghost predicate SealsOrSkips(step: (Ledger, Event) -> Ledger, seal: (Ledger, Commit) -> Ledger,
                               l: Ledger, es: seq<Event>, i: nat)
    requires i < |es| && es[i].Attempt? && (Order(es[i].stage) <= 2 || es[i].stage.Finished?)
  {
    var before := Fold(step, l, es[..i]);
    step(before, es[i]) == if Order(es[i].stage) <= 2 then before else seal(before, Commit(es[i].block, es[i].stage.payout))
  }

  lemma TakeOneMore<X>(xs: seq<X>, k: nat)
    requires 0 < k <= |xs|
    ensures xs[..k] == xs[..k - 1] + [xs[k - 1]]
  {
  }

  lemma SkipOneMore(step: (Ledger, Event) -> Ledger, seal: (Ledger, Commit) -> Ledger,
                    l: Ledger, es: seq<Event>, k: nat)
    requires k < |es| && es[k].Attempt? && (Order(es[k].stage) <= 2 || es[k].stage.Finished?)
    requires SealsOrSkips(step, seal, l, es, k)
    requires Fold(step, l, es[..k]) == Fold(seal, l, Committed(es[..k]))
    ensures Fold(step, l, es[..k] + [es[k]]) == Fold(seal, l, Committed(es[..k] + [es[k]]))
  {
    FoldOneMore(step, l, es[..k], es[k]);
    CommittedOneMore(es[..k], es[k]);
    if es[k].stage.Finished? {
      FoldOneMore(seal, l, Committed(es[..k]), Commit(es[k].block, es[k].stage.payout));
    }
  }

  /** Up to the `k`-th step, the ones that change nothing can be left out. */
  lemma {:induction false} FoldSkips(step: (Ledger, Event) -> Ledger, seal: (Ledger, Commit) -> Ledger,
                                     l: Ledger, es: seq<Event>, k: nat)
    requires Clean(es) && k <= |es|
    requires forall i: nat | i < |es| :: SealsOrSkips(step, seal, l, es, i)
    ensures Fold(step, l, es[..k]) == Fold(seal, l, Committed(es[..k]))
  {
    if k == 0 {
      assert es[..k] == [];
    } else {
      FoldSkips(step, seal, l, es, k - 1);
      assert es[k - 1] in es && SealsOrSkips(step, seal, l, es, k - 1);
      SkipOneMore(step, seal, l, es, k - 1);
      TakeOneMore(es, k);
    }
  }

  lemma QuietReplayIsCommittedOnly(ex: Executor, receipts: Receipts, l: Ledger, es: seq<Event>)
    requires StoresOnlyOps(ex) && Clean(es) && Quiet(ex, receipts, l, es)
    ensures Replay(ex, receipts, l, es) == SealAll(ex, receipts, l, Committed(es))
  {
    var step, seal := Replaying(ex, receipts), Sealing(ex, receipts);
    forall i: nat | i < |es| ensures SealsOrSkips(step, seal, l, es, i) {
      assert es[i] in es;
      QuietStep(ex, receipts, Replay(ex, receipts, l, es[..i]), es[i]);
    }
    FoldSkips(step, seal, l, es, |es|);
    assert es[..|es|] == es;
  }

  /**
   One committer, commits that finish, and candidates dropped at or before the reorg check none of
   whose governance calls was accepted: the tip,
   the account table, the staking rows, the registries and the live validator set are those of the
   committed blocks alone, executed one after the other in place.
  */
  lemma RunIsSequentialFold(ex: Executor, n: Node, l: Ledger, es: seq<Event>)
    requires Holds(n, l) && LegalRun(ex, n, es) && Clean(es)
    requires StoresOnlyOps(ex) && Quiet(ex, n.disk.receipts, l, es)
    ensures Holds(Run(ex, n, es), SealAll(ex, n.disk.receipts, l, Committed(es)))
  {
    RunHolds(ex, n, l, es);
    QuietReplayIsCommittedOnly(ex, n.disk.receipts, l, es);
  }

  // ----- What a dropped candidate leaks --------------------------------------------------------------------

  /**
   A vote decides its proposal at once and is stored while it executes. When the candidate is
   dropped, the proposal stays decided and the same vote is refused from then on.
  */
  lemma DroppedVoteIsFinal(ex: Executor, n: Node, b: Block, st: Stage, id: nat, voter: Address, approve: bool,
                           active: set<Address>, later: set<Address>, block: nat)
    requires CanStop(ex, n, b, st) && 1 <= Order(st) <= 2
    requires VoteAndFinalize(n.disk.gov.proposals, id, voter, approve, active, b.header.number)
          == Some(Execute(ex, n, b).proposals)
    ensures var ps := Stop(ex, n, b, st).disk.gov.proposals;
            && ps != n.disk.gov.proposals
            && VoteAndFinalize(ps, id, voter, approve, later, block) == None
  {
    var ps := Stop(ex, n, b, st).disk.gov.proposals;
    assert ps[id].status != Pending;
  }
}
