/**
 What executing a block does to governance: its proposal and vote transactions move the stored
 registry one by one, as the operations of `GovernanceRuns`, whether or not the block is committed.
*/
module PipelineGovernance {
  import opened Types
  import opened Blocks
  import opened Governance
  import GR = GovernanceRuns
  import opened RewardDistribution
  import opened Pipeline
  import opened PipelineLaws

  // ----- Transactions as operations ------------------------------------------------------------------------

  /** A governance call counts when it is sent without value, by an active validator, to the staking address. */
  function OpOf(tx: Tx, active: set<Address>, block: nat): Option<GR.Op> {
    if tx.to != Some(STAKING_PRECOMPILE_ADDR) || tx.value != 0 || tx.from !in active then None else
    match tx.call
    case NoCall => None
    case ProposeUpgrade(name, version, activation) => Some(GR.Propose(name, version, activation, block))
    case CastVote(id, approve) => Some(GR.CastVote(id, tx.from, approve, active, block))
  }

  /** The governance operations of the transactions that ran. */
  function OpsOf(b: Block, executed: seq<set<Address>>): seq<GR.Op>
    requires |executed| <= |b.txs|
  {
    if executed == [] then [] else
    var i := |executed| - 1;
    var before, op := OpsOf(b, executed[..i]), OpOf(b.txs[i], executed[i], b.header.number);
    if op.Some? then before + [op.value] else before
  }

  function Registered(n: Node): GR.State {
    GR.State(n.disk.gov, n.disk.proposalCounter)
  }

  ghost predicate Governs(b: Block, vs: Option<ValidatorSet>, before: GR.State, out: Outcome) {
    && |out.executed| <= |b.txs| && (out.result.Some? ==> |out.executed| == |b.txs|)
    && (vs.None? ==> forall i | 0 <= i < |out.executed| :: out.executed[i] == {})
    && GR.State(before.gov.(proposals := out.proposals), out.counter) == GR.RunFrom(before, OpsOf(b, out.executed))
  }

  /** All that execution stores about proposals is what the block's governance transactions do, in order. */
  ghost predicate StoresOnlyOps(ex: Executor) {
    forall b: Block, view: Accounts, vs: Option<ValidatorSet>, gov: Gov, counter: nat, staking: StakingStore ::
      Governs(b, vs, GR.State(gov, counter), ex(b, view, vs, gov, counter, staking))
  }

  // ----- When operations leave the registry as it was --------------------------------------------------------

  /** The operation is carried out; anything else is refused and changes nothing. */
  predicate Accepted(s: GR.State, op: GR.Op) {
    match op
    case Propose(name, _, activation, block) => 0 < |name| <= GR.MAX_NAME_LENGTH && activation > block
    case CastVote(id, voter, _, active, _) =>
      voter in active && id in s.gov.proposals && s.gov.proposals[id].status == Pending
    case _ => true
  }

  predicate IsTxOp(op: GR.Op) {
    op.Propose? || op.CastVote?
  }

  lemma {:induction false} OpsAreTxOps(b: Block, executed: seq<set<Address>>)
    requires |executed| <= |b.txs|
    ensures forall op | op in OpsOf(b, executed) :: IsTxOp(op) && op.block == b.header.number
  {
    if executed != [] {
      OpsAreTxOps(b, executed[..|executed| - 1]);
    }
  }

  /** Nothing goes back: the counter stays or rises, a decided proposal stays decided. */
  ghost predicate Advances(s: GR.State, t: GR.State) {
    && s.counter <= t.counter
    && forall id | id in s.gov.proposals ::
         id in t.gov.proposals && (s.gov.proposals[id].status != Pending ==> t.gov.proposals[id].status != Pending)
  }

  predicate DecidedBetween(s: GR.State, t: GR.State, id: nat) {
    && id in s.gov.proposals && id in t.gov.proposals
    && s.gov.proposals[id].status == Pending && t.gov.proposals[id].status != Pending
  }

  ghost predicate MovedOn(s: GR.State, t: GR.State) {
    && Advances(s, t)
    && (s.counter < t.counter || exists id :: DecidedBetween(s, t, id))
  }

  lemma OpAdvances(s: GR.State, op: GR.Op)
    requires IsTxOp(op)
    ensures Advances(s, GR.Step(s, op))
    ensures if Accepted(s, op) then MovedOn(s, GR.Step(s, op)) else GR.Step(s, op) == s
  {
    if op.CastVote? && Accepted(s, op) {
      var t := GR.Step(s, op);
      assert DecidedBetween(s, t, op.id);
    }
  }

  lemma MovedOnStays(s: GR.State, mid: GR.State, t: GR.State)
    requires MovedOn(s, mid) && Advances(mid, t)
    ensures MovedOn(s, t)
  {
    if id :| DecidedBetween(s, mid, id) {
      assert DecidedBetween(s, t, id);
    }
  }

  ghost predicate AnyAccepted(s: GR.State, ops: seq<GR.Op>) {
    exists op :: op in ops && Accepted(s, op)
  }

  lemma AnyAcceptedSplits(s: GR.State, ops: seq<GR.Op>)
    requires ops != []
    ensures AnyAccepted(s, ops) <==> AnyAccepted(s, ops[..|ops| - 1]) || Accepted(s, ops[|ops| - 1])
  {
    assert forall op | op in ops :: op in ops[..|ops| - 1] || op == ops[|ops| - 1];
    assert forall op | op in ops[..|ops| - 1] :: op in ops;
    assert ops[|ops| - 1] in ops;
  }

  /** Up to the first accepted operation the registry is the starting one, so acceptance can be judged there. */
  lemma {:induction false} MovesIffAccepted(s: GR.State, ops: seq<GR.Op>)
    requires forall op | op in ops :: IsTxOp(op)
    ensures if AnyAccepted(s, ops) then MovedOn(s, GR.RunFrom(s, ops)) else GR.RunFrom(s, ops) == s
    decreases |ops|
  {
    if ops != [] {
      var init, last := ops[..|ops| - 1], ops[|ops| - 1];
      assert last in ops && forall op | op in init :: op in ops;
      MovesIffAccepted(s, init);
      AnyAcceptedSplits(s, ops);
      OpAdvances(GR.RunFrom(s, init), last);
      if AnyAccepted(s, init) {
        MovedOnStays(s, GR.RunFrom(s, init), GR.RunFrom(s, ops));
      }
    }
  }

  /** Some transaction that ran carries a governance call that the registry of `s` accepts. */
  ghost predicate HasAcceptedCall(s: GR.State, b: Block, executed: seq<set<Address>>)
    requires |executed| <= |b.txs|
  {
    exists i :: 0 <= i < |executed| && CallAccepted(s, b, executed, i)
  }

  /** Sent to the staking address without value by an active validator, and acceptable in itself. */
  predicate CallAccepted(s: GR.State, b: Block, executed: seq<set<Address>>, i: nat)
    requires i < |executed| <= |b.txs|
  {
    var tx := b.txs[i];
    && tx.to == Some(STAKING_PRECOMPILE_ADDR) && tx.value == 0 && tx.from in executed[i]
    && match tx.call
       case NoCall => false
       case ProposeUpgrade(name, _, activation) => 1 <= |name| <= 64 && b.header.number < activation
       case CastVote(id, _) => id in s.gov.proposals && s.gov.proposals[id].status == Pending
  }

  lemma AcceptedIsOp(s: GR.State, b: Block, executed: seq<set<Address>>, i: nat)
    requires i < |executed| <= |b.txs|
    ensures var op := OpOf(b.txs[i], executed[i], b.header.number);
            CallAccepted(s, b, executed, i) <==> op.Some? && Accepted(s, op.value)
  {
  }

  /** Every proposal but perhaps one is as it was. */
  predicate KeptBut(was: Proposals, now: Proposals, but: Option<nat>) {
    forall k | k in was && Some(k) != but :: k in now && now[k] == was[k]
  }

  lemma OneCall(s: GR.State, b: Block, executed: seq<set<Address>>)
    requires |executed| == 1 <= |b.txs| && CallAccepted(s, b, executed, 0)
    ensures var op := OpOf(b.txs[0], executed[0], b.header.number);
            op.Some? && GR.RunFrom(s, OpsOf(b, executed)) == GR.Step(s, op.value)
  {
    var op := OpOf(b.txs[0], executed[0], b.header.number).value;
    assert executed[..0] == [];
    assert OpsOf(b, executed) == [op];
    assert [op][..0] == [];
    assert GR.RunFrom(s, [op]) == GR.Step(GR.RunFrom(s, []), op);
  }

  /** An accepted call for an upgrade takes the next id and, if the name is valid, writes a pending proposal with what was asked for. */
  lemma ProposalWrites(s: GR.State, b: Block, executed: seq<set<Address>>)
    requires |executed| == 1 <= |b.txs| && CallAccepted(s, b, executed, 0) && b.txs[0].call.ProposeUpgrade?
    ensures var t, call := GR.RunFrom(s, OpsOf(b, executed)), b.txs[0].call;
            && t.gov.versions == s.gov.versions && t.counter == s.counter + 1
            && KeptBut(s.gov.proposals, t.gov.proposals, None)
            && (if t.counter !in s.gov.proposals && ValidName(call.name) then
                  && t.gov.proposals.Keys == s.gov.proposals.Keys + {t.counter}
                  && t.gov.proposals[t.counter] == Proposal(call.name, call.version, call.activation, map[], Pending)
                else t.gov.proposals == s.gov.proposals)
  {
    OneCall(s, b, executed);
  }

  /** An accepted first vote schedules exactly when its sender is the only active validator, approves, and is in time. */
  lemma VoteWrites(s: GR.State, b: Block, executed: seq<set<Address>>)
    requires |executed| == 1 <= |b.txs| && CallAccepted(s, b, executed, 0) && b.txs[0].call.CastVote?
    ensures var t, call := GR.RunFrom(s, OpsOf(b, executed)), b.txs[0].call;
            var was, now := s.gov.proposals, t.gov.proposals;
            && t.gov.versions == s.gov.versions && t.counter == s.counter
            && now.Keys == was.Keys && KeptBut(was, now, Some(call.id))
            && (was[call.id].votes == map[] ==>
                  now[call.id].status == if call.approve && executed[0] == {b.txs[0].from} && b.header.number < was[call.id].activationBlock
                                         then Scheduled else Rejected)
  {
    OneCall(s, b, executed);
    var call := b.txs[0].call;
    if s.gov.proposals[call.id].votes == map[] {
      GR.FirstVoteDecides(s.gov.proposals, call.id, b.txs[0].from, call.approve, executed[0], b.header.number);
    }
  }

  lemma {:induction false} CallsAreOps(s: GR.State, b: Block, executed: seq<set<Address>>)
    requires |executed| <= |b.txs|
    ensures HasAcceptedCall(s, b, executed) <==> AnyAccepted(s, OpsOf(b, executed))
  {
    if executed != [] {
      var n := |executed| - 1;
      CallsAreOps(s, b, executed[..n]);
      AcceptedIsOp(s, b, executed, n);
      assert forall i: nat | i < n :: CallAccepted(s, b, executed[..n], i) <==> CallAccepted(s, b, executed, i);
      if i :| 0 <= i < |executed| && CallAccepted(s, b, executed, i) {
        if i < n {
          assert CallAccepted(s, b, executed[..n], i);
          var op :| op in OpsOf(b, executed[..n]) && Accepted(s, op);
          assert op in OpsOf(b, executed);
        } else {
          assert OpOf(b.txs[n], executed[n], b.header.number).value in OpsOf(b, executed);
        }
      }
      if op :| op in OpsOf(b, executed) && Accepted(s, op) {
        if op in OpsOf(b, executed[..n]) {
          assert HasAcceptedCall(s, b, executed[..n]);
          var i: nat :| i < n && CallAccepted(s, b, executed[..n], i);
          assert CallAccepted(s, b, executed, i);
        } else {
          assert CallAccepted(s, b, executed, n);
        }
      }
    }
  }

  /** Execution leaves what is stored about proposals alone exactly when no governance call of the block is accepted. */
  lemma StoresIffAccepted(b: Block, vs: Option<ValidatorSet>, before: GR.State, out: Outcome)
    requires Governs(b, vs, before, out)
    ensures out.proposals == before.gov.proposals && out.counter == before.counter
       <==> !HasAcceptedCall(before, b, out.executed)
  {
    var ops := OpsOf(b, out.executed);
    OpsAreTxOps(b, out.executed);
    MovesIffAccepted(before, ops);
    CallsAreOps(before, b, out.executed);
    assert before.gov.(proposals := before.gov.proposals) == before.gov;
  }

  lemma ExecutionGoverns(ex: Executor, n: Node, b: Block)
    requires StoresOnlyOps(ex)
    ensures Governs(b, n.live, Registered(n), Execute(ex, n, b))
  {
  }

  /**
   A dropped candidate leaves the node as it was, flushed trie nodes aside, if and only if none of
   the governance calls it ran is one the stored registry accepts.
  */
  lemma DropLeaksIff(ex: Executor, n: Node, b: Block, st: Stage)
    requires StoresOnlyOps(ex) && CanStop(ex, n, b, st) && 1 <= Order(st) <= 2
    ensures var out := Execute(ex, n, b);
            && |out.executed| <= |b.txs|
            && (Stop(ex, n, b, st) == n.(disk := n.disk.(nodes := n.disk.nodes + out.flushed)) <==>
                  !HasAcceptedCall(Registered(n), b, out.executed))
  {
    var out := Execute(ex, n, b);
    ExecutionGoverns(ex, n, b);
    StoresIffAccepted(b, n.live, Registered(n), out);
    DropIsExecution(ex, n, b, st);
  }

  lemma DropIsExecution(ex: Executor, n: Node, b: Block, st: Stage)
    requires CanStop(ex, n, b, st) && 1 <= Order(st) <= 2
    ensures var out := Execute(ex, n, b);
            Stop(ex, n, b, st) == n.(disk := n.disk.(nodes := n.disk.nodes + out.flushed)) <==> LeavesRegistry(n, out)
  {
  }

  /** Without a validator set nothing governs, so nothing leaks. */
  lemma NoValidatorsNoLeak(ex: Executor, n: Node, b: Block)
    requires StoresOnlyOps(ex) && n.live.None?
    ensures LeavesRegistry(n, Execute(ex, n, b))
  {
    var out := Execute(ex, n, b);
    ExecutionGoverns(ex, n, b);
    StoresIffAccepted(b, n.live, Registered(n), out);
  }

  // ----- Runs of the pipeline are runs of governance ----------------------------------------------------------

  /** The hook of a committed block, when its commit got that far. */
  function HookOf(n: Node, out: Outcome, b: Block): GR.Op
    requires out.result.Some?
  {
    if n.live.None? then GR.TickOnly(b.header.number)
    else GR.Hook(ActiveOf(out.result.value.validators), b.header.number)
  }

  /** What one event does to the registries: the operations that ran, and the hook if the governance step completed. */
  ghost function OpsOfEvent(ex: Executor, n: Node, e: Event): seq<GR.Op>
    requires Legal(ex, n, e) && StoresOnlyOps(ex)
  {
    if e.Boot? || e.stage.Seeding? then [] else
    ExecutionGoverns(ex, n, e.block);
    var out := Execute(ex, n, e.block);
    OpsOf(e.block, out.executed) + if Order(e.stage) >= 9 then [HookOf(n, out, e.block)] else []
  }

  lemma GovernedStored(n: Node, out: Outcome, b: Block)
    requires out.result.Some?
    ensures var s := Governed(n, out, b);
            Registered(s) == GR.Step(GR.State(n.disk.gov.(proposals := out.proposals), out.counter), HookOf(n, out, b))
    ensures Registered(Swapped(n, out, b)) == GR.State(n.disk.gov.(proposals := out.proposals), out.counter)
  {
  }

  lemma LateStored(n: Node, out: Outcome, b: Block, st: Stage)
    requires out.result.Some? && Order(st) >= 9
    ensures Registered(StopAfter(n, out, b, st)) == Registered(Governed(n, out, b))
  {
    var g := Governed(n, out, b);
    match st
    case Minting(unread) => MintKeepsChain(g, EscrowMint(b.header.number, FeesSeen(g.disk, unread, b.header.number)));
    case Retaining(payout) => RewardsKeepRegistries(g, Patch(b, out.result.value), payout);
    case Finished(payout) => RewardsKeepRegistries(g, Patch(b, out.result.value), payout);
    case _ =>
  }

  lemma RewardsKeepRegistries(n: Node, b: Block, payout: Payout)
    ensures Registered(WithRewards(n, b, payout)) == Registered(n)
  {
  }

  lemma EarlyStored(n: Node, out: Outcome, b: Block, st: Stage)
    requires 1 <= Order(st) <= 8 && (Order(st) >= 2 ==> out.result.Some?)
    requires st.PuttingAccounts? ==> st.done <= out.result.value.accounts.Keys
    ensures Registered(StopAfter(n, out, b, st)) == GR.State(n.disk.gov.(proposals := out.proposals), out.counter)
  {
  }

  lemma EventIsOps(ex: Executor, n: Node, e: Event)
    requires Legal(ex, n, e) && StoresOnlyOps(ex)
    ensures Registered(After(ex, n, e)) == GR.RunFrom(Registered(n), OpsOfEvent(ex, n, e))
  {
    if e.Attempt? && !e.stage.Seeding? {
      var out := Execute(ex, n, e.block);
      ExecutionGoverns(ex, n, e.block);
      var ops := OpsOf(e.block, out.executed);
      if Order(e.stage) >= 9 {
        GovernedStored(n, out, e.block);
        LateStored(n, out, e.block, e.stage);
        assert (ops + [HookOf(n, out, e.block)])[..|ops|] == ops;
      } else {
        EarlyStored(n, out, e.block, e.stage);
        assert ops + [] == ops;
      }
    }
  }

  /** The operations of a run, event by event. */
  ghost function OpsOfRun(ex: Executor, n: Node, es: seq<Event>): seq<GR.Op>
    requires LegalRun(ex, n, es) && StoresOnlyOps(ex)
  {
    if es == [] then [] else
    OpsOfRun(ex, n, es[..|es| - 1]) + OpsOfEvent(ex, Run(ex, n, es[..|es| - 1]), es[|es| - 1])
  }

  /**
   Every run of the pipeline, with commits stopped anywhere and restarts, acts on the stored
   registries as a run of governance: what is known of those runs holds of the disk.
  */
  lemma {:induction false} RunIsGovernanceRun(ex: Executor, n: Node, es: seq<Event>)
    requires StoresOnlyOps(ex) && LegalRun(ex, n, es)
    ensures Registered(Run(ex, n, es)) == GR.RunFrom(Registered(n), OpsOfRun(ex, n, es))
  {
    if es != [] {
      var init, e := es[..|es| - 1], es[|es| - 1];
      RunIsGovernanceRun(ex, n, init);
      EventIsOps(ex, Run(ex, n, init), e);
      GR.RunFromExtends(Registered(n), OpsOfRun(ex, n, init), OpsOfEvent(ex, Run(ex, n, init), e));
    }
  }

  /** So on every disk that such a run leaves, versions and executed proposals account for each other. */
  lemma DiskStaysConsistent(ex: Executor, n: Node, es: seq<Event>)
    requires StoresOnlyOps(ex) && LegalRun(ex, n, es) && Registered(n) == GR.Fresh()
    ensures GR.Consistent(Run(ex, n, es).disk.gov)
    ensures GR.UndecidedIsUnvoted(Run(ex, n, es).disk.gov.proposals)
  {
    RunIsGovernanceRun(ex, n, es);
    GR.RegistriesStayConsistent(OpsOfRun(ex, n, es));
    GR.InForceIffSoleValidator(OpsOfRun(ex, n, es), 0);
  }

  // ----- What is due on disk -----------------------------------------------------------------------------------

  /** The event completed its governance step. */
  predicate Governing(e: Event) {
    e.Attempt? && Order(e.stage) >= 9
  }

  /** The height of the last completed governance step, -1 before the first. */
  function LastGoverned(es: seq<Event>): int {
    if es == [] then -1
    else if Governing(es[|es| - 1]) then es[|es| - 1].block.header.number
    else LastGoverned(es[..|es| - 1])
  }

  predicate NoHooks(ops: seq<GR.Op>) {
    forall i | 0 <= i < |ops| :: !GR.IsHook(ops[i])
  }

  lemma {:induction false} LastHookSkips(a: seq<GR.Op>, b: seq<GR.Op>)
    requires NoHooks(b)
    ensures GR.LastHook(a + b) == GR.LastHook(a)
    decreases |b|
  {
    if b == [] {
      assert a + b == a;
    } else {
      LastHookSkips(a, b[..|b| - 1]);
      assert (a + b)[..|a + b| - 1] == a + b[..|b| - 1];
    }
  }

  /** An event is transactions of one height, and ends with a hook of that height exactly when it governs. */
  lemma EventShape(ex: Executor, n: Node, e: Event)
    requires Legal(ex, n, e) && StoresOnlyOps(ex)
    ensures var ops := OpsOfEvent(ex, n, e);
            && (e.Attempt? ==> forall i | 0 <= i < |ops| :: ops[i].block == e.block.header.number)
            && (if Governing(e) then ops != [] && GR.IsHook(ops[|ops| - 1]) else NoHooks(ops))
            && (e.Boot? || e.stage.Seeding? ==> ops == [])
  {
    if e.Attempt? && !e.stage.Seeding? {
      ExecutionGoverns(ex, n, e.block);
      OpsAreTxOps(e.block, Execute(ex, n, e.block).executed);
      var txs := OpsOf(e.block, Execute(ex, n, e.block).executed);
      assert forall i | 0 <= i < |txs| :: txs[i] in txs;
    }
  }

  /** After the last completed governance step nothing was executed for a block below it. */
  predicate NoneStale(es: seq<Event>) {
    es == [] || Governing(es[|es| - 1]) ||
    (&& NoneStale(es[..|es| - 1])
     && var e := es[|es| - 1];
        e.Attempt? && !e.stage.Seeding? ==> e.block.header.number >= LastGoverned(es[..|es| - 1]))
  }

  predicate TailAbove(ops: seq<GR.Op>, height: int) {
    forall i | 0 <= i < |ops| && (forall j | i <= j < |ops| :: !GR.IsHook(ops[j])) :: ops[i].block >= height
  }

  lemma TailExtends(a: seq<GR.Op>, b: seq<GR.Op>, height: int)
    requires TailAbove(a, height) && NoHooks(b) && forall i | 0 <= i < |b| :: b[i].block >= height
    ensures TailAbove(a + b, height)
  {
    var all := a + b;
    forall i | 0 <= i < |all| && (forall j | i <= j < |all| :: !GR.IsHook(all[j])) ensures all[i].block >= height {
      if i < |a| {
        assert forall j | i <= j < |a| :: a[j] == all[j];
        assert a[i].block >= height;
      } else {
        assert all[i] == b[i - |a|];
      }
    }
  }

  /** A vote at or above the last hook schedules only what is not due yet. */
  lemma TailIsInTime(ops: seq<GR.Op>)
    requires TailAbove(ops, GR.LastHook(ops))
    ensures !exists i :: GR.ScheduledTooLate(ops, i)
  {
  }

  lemma {:induction false} RunShape(ex: Executor, n: Node, es: seq<Event>)
    requires LegalRun(ex, n, es) && StoresOnlyOps(ex)
    ensures GR.LastHook(OpsOfRun(ex, n, es)) == LastGoverned(es)
    ensures NoneStale(es) ==> TailAbove(OpsOfRun(ex, n, es), LastGoverned(es))
  {
    if es != [] {
      var init, e := es[..|es| - 1], es[|es| - 1];
      RunShape(ex, n, init);
      var a, b := OpsOfRun(ex, n, init), OpsOfEvent(ex, Run(ex, n, init), e);
      EventShape(ex, Run(ex, n, init), e);
      if Governing(e) {
        assert (a + b)[|a + b| - 1] == b[|b| - 1];
      } else {
        LastHookSkips(a, b);
        if NoneStale(es) {
          TailExtends(a, b, LastGoverned(init));
        }
      }
    }
  }

  /**
   On the disk of every run: no proposal is left Scheduled that the last completed governance step
   has passed, if and only if no vote since then scheduled one; and none did unless a block below
   that step was executed after it.
  */
  lemma DiskNothingDueIff(ex: Executor, n: Node, es: seq<Event>)
    requires StoresOnlyOps(ex) && LegalRun(ex, n, es) && Registered(n) == GR.Fresh()
    ensures GR.NothingDue(Run(ex, n, es).disk.gov.proposals, LastGoverned(es)) <==>
            !exists i :: GR.ScheduledTooLate(OpsOfRun(ex, n, es), i)
    ensures NoneStale(es) ==> GR.NothingDue(Run(ex, n, es).disk.gov.proposals, LastGoverned(es))
  {
    var ops := OpsOfRun(ex, n, es);
    RunIsGovernanceRun(ex, n, es);
    RunShape(ex, n, es);
    GR.NothingDueIff(ops);
    if NoneStale(es) {
      TailIsInTime(ops);
    }
  }
}
