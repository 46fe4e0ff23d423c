/**
 Governance over whole runs: proposals, votes and end-of-block hooks in any order, with any
 validator sets, and with hooks lost to crashes.
*/
module GovernanceRuns {
  import opened Types
  import opened Governance
  import opened GovernanceLaws

  // ----- The two phases of one block -------------------------------------------------------------

  /** Finalising at `block` never makes a proposal ready at that same block. */
  lemma PhasesDoNotChain(ps: Proposals, active: set<Address>, block: nat)
    ensures Ready(FinalizeAll(ps, active, block), block) == Ready(ps, block)
    ensures PendingIds(FinalizeAll(ps, active, block)) == {}
  {
  }

  lemma FinalizeKeepsRequests(ps: Proposals, active: set<Address>, block: nat)
    ensures SameRequests(ps, FinalizeAll(ps, active, block))
  {
    forall id | id in ps ensures SameRequest(ps[id], FinalizeAll(ps, active, block)[id]) {
    }
  }

  lemma NothingPendingNothingFinalised(ps: Proposals, active: set<Address>, block: nat)
    requires PendingIds(ps) == {}
    ensures FinalizeAll(ps, active, block) == ps
  {
    forall id | id in ps ensures TryFinalize(ps[id], active, block) == ps[id] {
      assert id !in PendingIds(ps);
    }
  }

  /** After the hook nothing is pending and nothing is ready, so a second hook at that height is the identity. */
  lemma HookSettles(g: Gov, active: set<Address>, block: nat, again: set<Address>)
    ensures var after := EndOfBlock(g, active, block);
            && PendingIds(after.proposals) == {} && Ready(after.proposals, block) == {}
            && EndOfBlock(after, again, block) == after
  {
    var mid := Gov(g.versions, FinalizeAll(g.proposals, active, block));
    var after := Tick(mid, block);
    PhasesDoNotChain(g.proposals, active, block);
    TickIsJoin(mid, block);
    forall id | id in after.proposals
      ensures after.proposals[id].status != Pending && !IsReady(after.proposals[id], block)
    {
      assert id in mid.proposals && id !in PendingIds(mid.proposals);
      assert id !in Ready(mid.proposals, block) ==> after.proposals[id] == mid.proposals[id];
    }
    NothingPendingNothingFinalised(after.proposals, again, block);
    assert Ordered({}) == [];
  }

  // ----- Whole runs --------------------------------------------------------------------------------

  const MAX_NAME_LENGTH := 64

  /** Registries plus the persisted id counter. */
  datatype State = State(gov: Gov, counter: nat)

  /**
   One atomic effect on the stored registries. A crash or a dropped candidate is the absence of
   the `Hook` of its block: the transactions write the proposal registry while they execute.
   Without a validator set the hook is a tick alone.
  */
  datatype Op =
    | Propose(name: string, version: nat, activation: nat, block: nat)
    | CastVote(id: nat, voter: Address, approve: bool, active: set<Address>, block: nat)
    | Hook(active: set<Address>, block: nat)
    | TickOnly(block: nat)

  function ProposeStep(s: State, name: string, version: nat, activation: nat, block: nat): State {
    if |name| == 0 || |name| > MAX_NAME_LENGTH || activation <= block then s else
    var id := s.counter + 1;
    if ValidName(name) && id !in s.gov.proposals then
      State(s.gov.(proposals := s.gov.proposals[id := Proposal(name, version, activation, map[], Pending)]), id)
    else s.(counter := id)
  }

  function VoteStep(s: State, id: nat, voter: Address, approve: bool, active: set<Address>, block: nat): State {
    if voter !in active then s else
    match VoteAndFinalize(s.gov.proposals, id, voter, approve, active, block)
    case None => s
    case Some(ps) => s.(gov := s.gov.(proposals := ps))
  }

  ghost function Step(s: State, op: Op): State {
    match op
    case Propose(name, version, activation, block) => ProposeStep(s, name, version, activation, block)
    case CastVote(id, voter, approve, active, block) => VoteStep(s, id, voter, approve, active, block)
    case Hook(active, block) => s.(gov := EndOfBlock(s.gov, active, block))
    case TickOnly(block) => s.(gov := Tick(s.gov, block))
  }

  ghost function RunFrom(s: State, ops: seq<Op>): State {
    if ops == [] then s else Step(RunFrom(s, ops[..|ops| - 1]), ops[|ops| - 1])
  }

  function Fresh(): State {
    State(Gov(map[], map[]), 0)
  }

  /** A run from empty registries. */
  ghost function Run(ops: seq<Op>): State {
    RunFrom(Fresh(), ops)
  }

  lemma {:induction false} RunFromExtends(s: State, a: seq<Op>, b: seq<Op>)
    ensures RunFrom(RunFrom(s, a), b) == RunFrom(s, a + b)
    decreases |b|
  {
    if b == [] {
      assert a + b == a;
    } else {
      RunFromExtends(s, a, b[..|b| - 1]);
      assert (a + b)[..|a + b| - 1] == a + b[..|b| - 1];
    }
  }

  lemma OneMoreStep(s: State, ops: seq<Op>, op: Op)
    ensures RunFrom(s, ops + [op]) == Step(RunFrom(s, ops), op)
  {
    assert (ops + [op])[..|ops|] == ops;
  }

  lemma FirstStep(s: State, op: Op)
    ensures RunFrom(s, [op]) == Step(s, op)
  {
    OneMoreStep(s, [], op);
    assert [] + [op] == [op];
  }

  predicate IsHook(op: Op) {
    op.Hook? || op.TickOnly?
  }

  /** Undecided proposals carry no vote: the first vote always decides. */
  ghost predicate UndecidedIsUnvoted(ps: Proposals) {
    forall id | id in ps && ps[id].status == Pending :: ps[id].votes == map[]
  }

  predicate InForce(p: Proposal) {
    p.status in {Scheduled, Executed, Failed}
  }

  lemma UnvotedHasNoMajority(p: Proposal, active: set<Address>)
    requires p.votes == map[]
    ensures !HasMajority(p, active)
  {
    assert YesVoters(p, active) == {};
  }

  /** With one vote in, a majority means: a yes from the only active validator. */
  lemma OneVoteMajority(p: Proposal, voter: Address, vote: Vote, active: set<Address>)
    requires p.votes == map[voter := vote] && voter in active
    ensures HasMajority(p, active) <==> vote == Yes && active == {voter}
  {
    if vote == Yes {
      assert YesVoters(p, active) == {voter};
      if |active| == 1 {
        assert |active - {voter}| == 0;
        assert active == {voter};
      }
    } else {
      assert YesVoters(p, active) == {};
    }
    assert |active| > 0;
  }

  /**
   The first vote settles a proposal: it is scheduled exactly when the voter is the only active
   validator, approves, and is in time; in every other case, one yes of three included, it is rejected.
  */
  lemma FirstVoteDecides(ps: Proposals, id: nat, voter: Address, approve: bool, active: set<Address>, block: nat)
    requires id in ps && ps[id].status == Pending && ps[id].votes == map[] && voter in active
    ensures var after := VoteAndFinalize(ps, id, voter, approve, active, block);
            && after.Some?
            && after.value[id].status == (if approve && active == {voter} && ps[id].activationBlock > block
                                          then Scheduled else Rejected)
  {
    var vote := if approve then Yes else No;
    OneVoteMajority(ps[id].(votes := map[voter := vote]), voter, vote, active);
  }

  /** One step: how a proposal can come into force, exactly. */
  predicate SoleValidatorApproves(s: State, op: Op, id: nat) {
    && op.CastVote? && op.id == id && op.approve && op.active == {op.voter}
    && id in s.gov.proposals && s.gov.proposals[id].status == Pending
    && s.gov.proposals[id].activationBlock > op.block
  }

  lemma StepInForce(s: State, op: Op, id: nat)
    requires UndecidedIsUnvoted(s.gov.proposals)
    ensures UndecidedIsUnvoted(Step(s, op).gov.proposals)
    ensures s.gov.proposals.Keys <= Step(s, op).gov.proposals.Keys
    ensures id in Step(s, op).gov.proposals && InForce(Step(s, op).gov.proposals[id])
       <==> (id in s.gov.proposals && InForce(s.gov.proposals[id])) || SoleValidatorApproves(s, op, id)
  {
    match op
    case Propose(name, version, activation, block) =>
    case CastVote(vid, voter, approve, active, block) =>
      if voter in active && vid in s.gov.proposals && s.gov.proposals[vid].status == Pending {
        var vote := if approve then Yes else No;
        var voted := s.gov.proposals[vid].(votes := s.gov.proposals[vid].votes[voter := vote]);
        assert voted.votes == map[voter := vote];
        OneVoteMajority(voted, voter, vote, active);
      }
    case Hook(active, block) =>
      HookInForce(s.gov, active, block);
    case TickOnly(block) =>
      TickInForce(s.gov, block);
  }

  lemma TickInForce(g: Gov, block: nat)
    requires UndecidedIsUnvoted(g.proposals)
    ensures var after := Tick(g, block).proposals;
            && after.Keys == g.proposals.Keys && UndecidedIsUnvoted(after)
            && forall id | id in g.proposals :: InForce(after[id]) <==> InForce(g.proposals[id])
  {
    TickIsJoin(g, block);
    var after := Tick(g, block).proposals;
    forall id | id in g.proposals
      ensures id in after && (InForce(after[id]) <==> InForce(g.proposals[id]))
      ensures after[id].status == Pending ==> after[id] == g.proposals[id]
    {
      if g.proposals[id].status != Pending {
        SettledByTick(g, block, id);
      } else {
        assert id !in Ready(g.proposals, block);
      }
    }
  }

  lemma HookInForce(g: Gov, active: set<Address>, block: nat)
    requires UndecidedIsUnvoted(g.proposals)
    ensures var after := EndOfBlock(g, active, block).proposals;
            && after.Keys == g.proposals.Keys && UndecidedIsUnvoted(after)
            && forall id | id in g.proposals :: InForce(after[id]) <==> InForce(g.proposals[id])
  {
    var mid := Gov(g.versions, FinalizeAll(g.proposals, active, block));
    var after := EndOfBlock(g, active, block).proposals;
    TickIsJoin(mid, block);
    forall id | id in g.proposals
      ensures mid.proposals[id].status != Pending
      ensures InForce(mid.proposals[id]) <==> InForce(g.proposals[id])
    {
      if g.proposals[id].status == Pending {
        UnvotedHasNoMajority(g.proposals[id], active);
      }
    }
    forall id | id in g.proposals
      ensures id in after && after[id].status != Pending && (InForce(after[id]) <==> InForce(mid.proposals[id]))
    {
      SettledByTick(mid, block, id);
    }
  }

  lemma SettledByTick(g: Gov, block: nat, id: nat)
    requires id in g.proposals && g.proposals[id].status != Pending
    ensures id in Tick(g, block).proposals
    ensures Tick(g, block).proposals[id].status != Pending
    ensures InForce(Tick(g, block).proposals[id]) <==> InForce(g.proposals[id])
  {
    TickIsJoin(g, block);
    if id in Ready(g.proposals, block) {
      assert Tick(g, block).proposals[id].status in {Executed, Failed};
    }
  }

  /** From any registry without votes on undecided proposals: a proposal comes into force exactly by such an approval. */
  lemma {:induction false} InForceFrom(s: State, ops: seq<Op>, id: nat)
    requires UndecidedIsUnvoted(s.gov.proposals)
    ensures UndecidedIsUnvoted(RunFrom(s, ops).gov.proposals)
    ensures s.gov.proposals.Keys <= RunFrom(s, ops).gov.proposals.Keys
    ensures id in RunFrom(s, ops).gov.proposals && InForce(RunFrom(s, ops).gov.proposals[id])
       <==> (id in s.gov.proposals && InForce(s.gov.proposals[id])) || EverApproved(s, ops, id)
  {
    if ops != [] {
      var init, op := ops[..|ops| - 1], ops[|ops| - 1];
      InForceFrom(s, init, id);
      StepInForce(RunFrom(s, init), op, id);
      ApprovedSplits(s, ops, id);
    }
  }

  /** Over any run, a proposal is in force if and only if some step of the run was the approval of a sole active validator. */
  lemma InForceIffSoleValidator(ops: seq<Op>, id: nat)
    ensures UndecidedIsUnvoted(Run(ops).gov.proposals)
    ensures id in Run(ops).gov.proposals && InForce(Run(ops).gov.proposals[id]) <==> EverApproved(Fresh(), ops, id)
  {
    InForceFrom(Fresh(), ops, id);
  }

  /** Some step of the run was the approval of `id` by a sole active validator. */
  ghost predicate EverApproved(s: State, ops: seq<Op>, id: nat) {
    exists i: nat :: i < |ops| && ApprovedAt(s, ops, i, id)
  }

  ghost predicate ApprovedAt(s: State, ops: seq<Op>, i: nat, id: nat)
    requires i < |ops|
  {
    SoleValidatorApproves(RunFrom(s, ops[..i]), ops[i], id)
  }

  lemma ApprovedSplits(s: State, ops: seq<Op>, id: nat)
    requires ops != []
    ensures EverApproved(s, ops, id) <==> EverApproved(s, ops[..|ops| - 1], id) || ApprovedAt(s, ops, |ops| - 1, id)
  {
    var init := ops[..|ops| - 1];
    forall i: nat | i < |init| ensures ApprovedAt(s, init, i, id) <==> ApprovedAt(s, ops, i, id) {
      assert init[..i] == ops[..i];
    }
    if EverApproved(s, ops, id) && !ApprovedAt(s, ops, |ops| - 1, id) {
      var i: nat :| i < |ops| && ApprovedAt(s, ops, i, id);
      assert ApprovedAt(s, init, i, id);
    }
    if EverApproved(s, init, id) {
      var i: nat :| i < |init| && ApprovedAt(s, init, i, id);
      assert ApprovedAt(s, ops, i, id);
    }
  }

  /** Executed proposals are reflected in the version registry. */
  ghost predicate ExecutedIsRecorded(g: Gov) {
    forall id | id in g.proposals && g.proposals[id].status == Executed ::
      var p := g.proposals[id];
      p.moduleName in g.versions && p.newVersion <= g.versions[p.moduleName]
  }

  /** Every recorded version was asked for by an executed proposal. */
  ghost predicate RecordedWasExecuted(g: Gov) {
    forall name | name in g.versions ::
      exists id :: id in g.proposals && g.proposals[id].status == Executed
        && g.proposals[id].moduleName == name && g.proposals[id].newVersion == g.versions[name]
  }

  ghost predicate Consistent(g: Gov) {
    ExecutedIsRecorded(g) && RecordedWasExecuted(g)
  }

  lemma PromoteConsistent(g: Gov, id: nat)
    requires Consistent(g) && (id in g.proposals ==> g.proposals[id].status == Scheduled)
    ensures Consistent(Promote(g, id))
  {
    var out := Promote(g, id);
    forall name | name in out.versions
      ensures exists x :: x in out.proposals && out.proposals[x].status == Executed
                && out.proposals[x].moduleName == name && out.proposals[x].newVersion == out.versions[name]
    {
      if id in g.proposals && out.versions != g.versions && name == g.proposals[id].moduleName {
        assert out.proposals[id].status == Executed;
      } else {
        var x :| x in g.proposals && g.proposals[x].status == Executed
                 && g.proposals[x].moduleName == name && g.proposals[x].newVersion == g.versions[name];
        assert x != id && out.proposals[x] == g.proposals[x];
      }
    }
  }

  lemma {:induction false} SweepConsistent(g: Gov, ids: seq<nat>)
    requires Consistent(g) && Distinct(ids)
    requires forall i | 0 <= i < |ids| && ids[i] in g.proposals :: g.proposals[ids[i]].status == Scheduled
    ensures Consistent(Sweep(g, ids))
  {
    if ids != [] {
      var init, last := ids[..|ids| - 1], ids[|ids| - 1];
      SweepConsistent(g, init);
      SweepIsJoin(g, init);
      LastIsFresh(ids);
      PromoteConsistent(Sweep(g, init), last);
    }
  }

  /** Statuses other than `Executed` may move freely without touching consistency. */
  lemma UndecidedMovesConsistent(g: Gov, ps: Proposals)
    requires Consistent(g) && g.proposals.Keys <= ps.Keys
    requires forall id | id in ps :: (ps[id].status == Executed <==> id in g.proposals && g.proposals[id].status == Executed)
               && (ps[id].status == Executed ==> ps[id] == g.proposals[id])
    ensures Consistent(Gov(g.versions, ps))
  {
    forall name | name in g.versions
      ensures exists x :: x in ps && ps[x].status == Executed && ps[x].moduleName == name && ps[x].newVersion == g.versions[name]
    {
      var x :| x in g.proposals && g.proposals[x].status == Executed
               && g.proposals[x].moduleName == name && g.proposals[x].newVersion == g.versions[name];
      assert x in ps && ps[x] == g.proposals[x];
    }
  }

  lemma TickConsistent(g: Gov, block: nat)
    requires Consistent(g)
    ensures Consistent(Tick(g, block))
  {
    var ids := Ordered(Ready(g.proposals, block));
    ListsElems(ids, Ready(g.proposals, block));
    SweepConsistent(g, ids);
  }

  lemma HookConsistent(g: Gov, active: set<Address>, block: nat)
    requires Consistent(g)
    ensures Consistent(EndOfBlock(g, active, block))
  {
    var mid := Gov(g.versions, FinalizeAll(g.proposals, active, block));
    UndecidedMovesConsistent(g, mid.proposals);
    TickConsistent(mid, block);
  }

  /** In every reachable registry pair, crashes included, versions and executed proposals account for each other. */
  lemma {:induction false} RegistriesStayConsistent(ops: seq<Op>)
    ensures Consistent(Run(ops).gov)
  {
    if ops != [] {
      var s, op := Run(ops[..|ops| - 1]), ops[|ops| - 1];
      RegistriesStayConsistent(ops[..|ops| - 1]);
      match op
      case Hook(active, block) => HookConsistent(s.gov, active, block);
      case TickOnly(block) => TickConsistent(s.gov, block);
      case Propose(name, version, activation, block) =>
        UndecidedMovesConsistent(s.gov, Step(s, op).gov.proposals);
      case CastVote(id, voter, approve, active, block) =>
        UndecidedMovesConsistent(s.gov, Step(s, op).gov.proposals);
    }
  }

  // ----- Nothing due is left behind, or exactly what -----------------------------------------------------

  /** The height of the last completed hook, -1 before the first. */
  function LastHook(ops: seq<Op>): int {
    if ops == [] then -1
    else if IsHook(ops[|ops| - 1]) then ops[|ops| - 1].block
    else LastHook(ops[..|ops| - 1])
  }

  ghost predicate NothingDue(ps: Proposals, height: int) {
    forall id | id in ps && ps[id].status == Scheduled :: ps[id].activationBlock > height
  }

  lemma TickLeavesNothingDue(g: Gov, block: nat)
    ensures NothingDue(Tick(g, block).proposals, block)
  {
    TickIsJoin(g, block);
    forall id | id in g.proposals && Tick(g, block).proposals[id].status == Scheduled
      ensures g.proposals[id].activationBlock > block
    {
      assert id !in Ready(g.proposals, block);
      assert SameRequest(g.proposals[id], Tick(g, block).proposals[id]);
    }
  }

  lemma HookLeavesNothingDue(s: State, op: Op)
    requires IsHook(op)
    ensures NothingDue(Step(s, op).gov.proposals, op.block)
  {
    match op
    case Hook(active, block) =>
      TickLeavesNothingDue(Gov(s.gov.versions, FinalizeAll(s.gov.proposals, active, block)), block);
    case TickOnly(block) => TickLeavesNothingDue(s.gov, block);
  }

  /** The vote approves, as sole validator, a proposal whose height a hook has passed already. */
  predicate SchedulesDue(s: State, op: Op, height: int) {
    op.CastVote? && SoleValidatorApproves(s, op, op.id) && s.gov.proposals[op.id].activationBlock <= height
  }

  lemma OpLeavesNothingDueIff(s: State, op: Op, height: int)
    requires !IsHook(op) && UndecidedIsUnvoted(s.gov.proposals)
    ensures NothingDue(Step(s, op).gov.proposals, height) <==>
            NothingDue(s.gov.proposals, height) && !SchedulesDue(s, op, height)
  {
    var ps, qs := s.gov.proposals, Step(s, op).gov.proposals;
    forall id | id in ps && !(op.CastVote? && op.id == id) ensures id in qs && qs[id] == ps[id] {
    }
    if op.CastVote? && op.id in ps {
      VoteSchedules(s, op);
    }
  }

  lemma VoteSchedules(s: State, op: Op)
    requires op.CastVote? && op.id in s.gov.proposals && UndecidedIsUnvoted(s.gov.proposals)
    ensures op.id in Step(s, op).gov.proposals
    ensures var p, q := s.gov.proposals[op.id], Step(s, op).gov.proposals[op.id];
            && q.activationBlock == p.activationBlock
            && (q.status == Scheduled <==> p.status == Scheduled || SoleValidatorApproves(s, op, op.id))
  {
    var p := s.gov.proposals[op.id];
    if op.voter in op.active && p.status == Pending {
      FirstVoteDecides(s.gov.proposals, op.id, op.voter, op.approve, op.active, op.block);
    }
  }

  /** The `i`-th operation came after the last hook and scheduled a proposal that this hook had passed. */
  ghost predicate ScheduledTooLate(ops: seq<Op>, i: nat) {
    i < |ops| && (forall j | i <= j < |ops| :: !IsHook(ops[j])) && SchedulesDue(Run(ops[..i]), ops[i], LastHook(ops))
  }

  lemma TooLateSplits(ops: seq<Op>)
    requires ops != [] && !IsHook(ops[|ops| - 1])
    ensures var init := ops[..|ops| - 1];
            (exists i :: ScheduledTooLate(ops, i)) <==>
            (exists i :: ScheduledTooLate(init, i)) || SchedulesDue(Run(init), ops[|ops| - 1], LastHook(init))
  {
    var init := ops[..|ops| - 1];
    forall i: nat | i < |init| ensures ScheduledTooLate(init, i) <==> ScheduledTooLate(ops, i) {
      assert init[..i] == ops[..i];
      assert forall j | i <= j < |init| :: init[j] == ops[j];
    }
    if SchedulesDue(Run(init), ops[|ops| - 1], LastHook(init)) {
      assert ScheduledTooLate(ops, |init|);
    }
    if i: nat :| ScheduledTooLate(ops, i) {
      assert i < |init| ==> ScheduledTooLate(init, i);
    }
    if i: nat :| ScheduledTooLate(init, i) {
      assert ScheduledTooLate(ops, i);
    }
  }

  /**
   Over every run, at whatever heights: no proposal is left Scheduled that the last completed hook has
   passed, if and only if no vote since that hook scheduled one.
  */
  lemma {:induction false} NothingDueIff(ops: seq<Op>)
    ensures NothingDue(Run(ops).gov.proposals, LastHook(ops)) <==> !exists i :: ScheduledTooLate(ops, i)
  {
    if ops != [] {
      var init, op := ops[..|ops| - 1], ops[|ops| - 1];
      if IsHook(op) {
        HookLeavesNothingDue(Run(init), op);
      } else {
        NothingDueIff(init);
        InForceIffSoleValidator(init, 0);
        OpLeavesNothingDueIff(Run(init), op, LastHook(init));
        TooLateSplits(ops);
      }
    }
  }

  /** It does happen: a candidate executed at height 5 after the hook of height 7. */
  lemma StaleVoteSchedulesDue(a: Address)
    ensures var ops := [TickOnly(7), Propose("evm", 1, 6, 5), CastVote(1, a, true, {a}, 5)];
            LastHook(ops) == 7 && !NothingDue(Run(ops).gov.proposals, LastHook(ops))
  {
    var tick, propose, vote := TickOnly(7), Propose("evm", 1, 6, 5), CastVote(1, a, true, {a}, 5);
    EmptyTick(7);
    FirstStep(Fresh(), tick);
    OneMoreStep(Fresh(), [tick], propose);
    OneMoreStep(Fresh(), [tick] + [propose], vote);
    assert [tick] + [propose] + [vote] == [tick, propose, vote];
    var proposed := State(Gov(map[], map[1 := Proposal("evm", 1, 6, map[], Pending)]), 1);
    assert ValidName("evm");
    assert Step(Fresh(), propose) == proposed;
    FirstVoteDecides(proposed.gov.proposals, 1, a, true, {a}, 5);
    VoteSchedules(proposed, vote);
    LastHookOf(tick, propose, vote);
  }

  lemma LastHookOf(tick: Op, propose: Op, vote: Op)
    requires IsHook(tick) && !IsHook(propose) && !IsHook(vote)
    ensures LastHook([tick, propose, vote]) == tick.block
  {
    assert [tick, propose, vote][..2] == [tick, propose] && [tick, propose][..1] == [tick];
    assert LastHook([tick]) == tick.block;
    assert LastHook([tick, propose]) == tick.block;
  }

  lemma EmptyTick(block: nat)
    ensures Tick(Gov(map[], map[]), block) == Gov(map[], map[])
  {
    assert Ready(map[], block) == {};
    ListsEmpty(Ordered({}), {});
  }

  predicate HeightsAscend(ops: seq<Op>) {
    forall i, j | 0 <= i < j < |ops| :: ops[i].block <= ops[j].block
  }

  lemma {:induction false} LastHookIsBelow(ops: seq<Op>, height: nat)
    requires forall i | 0 <= i < |ops| :: IsHook(ops[i]) ==> ops[i].block <= height
    ensures LastHook(ops) <= height
  {
    if ops != [] {
      LastHookIsBelow(ops[..|ops| - 1], height);
    }
  }

  /** With heights that do not go down it never does. */
  lemma NothingDueRemains(ops: seq<Op>)
    requires HeightsAscend(ops)
    ensures NothingDue(Run(ops).gov.proposals, LastHook(ops))
  {
    NothingDueIff(ops);
    if i: nat :| ScheduledTooLate(ops, i) {
      assert forall j | 0 <= j < |ops| && IsHook(ops[j]) :: j < i;
      LastHookIsBelow(ops, ops[i].block);
    }
  }

  // ----- When every block has its hook ---------------------------------------------------------------------

  /** Between operations of different heights there is a hook that finalises. */
  predicate BlocksClosed(ops: seq<Op>) {
    forall i, j | 0 <= i < j < |ops| && ops[i].block != ops[j].block :: exists k :: i <= k < j && ops[k].Hook?
  }

  ghost predicate ProposedAt(ops: seq<Op>, i: nat, id: nat) {
    i < |ops| && id !in Run(ops[..i]).gov.proposals && id in Run(ops[..i + 1]).gov.proposals
  }

  lemma {:induction false} WasProposed(ops: seq<Op>, n: nat, id: nat)
    requires n <= |ops| && id in Run(ops[..n]).gov.proposals
    ensures exists i: nat :: i < n && ProposedAt(ops, i, id)
  {
    assert n > 0;
    if id in Run(ops[..n - 1]).gov.proposals {
      WasProposed(ops, n - 1, id);
    } else {
      assert ProposedAt(ops, n - 1, id);
    }
  }

  lemma OnlyProposeAdds(s: State, op: Op, id: nat)
    ensures id in s.gov.proposals ==>
              id in Step(s, op).gov.proposals
              && (s.gov.proposals[id].status != Pending ==> Step(s, op).gov.proposals[id].status != Pending)
    ensures id !in s.gov.proposals && id in Step(s, op).gov.proposals ==> op.Propose?
    ensures op.Hook? && id in s.gov.proposals ==> Step(s, op).gov.proposals[id].status != Pending
  {
    match op
    case Hook(active, block) =>
      HookSettles(s.gov, active, block, active);
      TickIsJoin(Gov(s.gov.versions, FinalizeAll(s.gov.proposals, active, block)), block);
      assert id in s.gov.proposals ==> id !in PendingIds(EndOfBlock(s.gov, active, block).proposals);
    case TickOnly(block) => TickIsJoin(s.gov, block);
    case _ =>
  }

  /** Once there and decided, a proposal stays so. */
  lemma {:induction false} StaysDecided(ops: seq<Op>, lo: nat, hi: nat, id: nat)
    requires lo <= hi <= |ops| && id in Run(ops[..lo]).gov.proposals
    ensures id in Run(ops[..hi]).gov.proposals
    ensures Run(ops[..lo]).gov.proposals[id].status != Pending ==> Run(ops[..hi]).gov.proposals[id].status != Pending
    ensures (exists k :: lo <= k < hi && ops[k].Hook?) ==> Run(ops[..hi]).gov.proposals[id].status != Pending
    decreases hi
  {
    if lo < hi {
      StaysDecided(ops, lo, hi - 1, id);
      assert ops[..hi][..hi - 1] == ops[..hi - 1];
      OnlyProposeAdds(Run(ops[..hi - 1]), ops[hi - 1], id);
    }
  }

  /**
   When no block's hook is lost, a proposal comes into force if and only if a sole active validator
   approves it in the very block that proposed it: at the end of that block everything pending is rejected.
  */
  lemma InForceIffApprovedInItsBlock(ops: seq<Op>, id: nat)
    requires BlocksClosed(ops)
    ensures id in Run(ops).gov.proposals && InForce(Run(ops).gov.proposals[id]) <==>
            exists p: nat, i: nat :: p < i < |ops| && ProposedAt(ops, p, id)
              && ApprovedAt(Fresh(), ops, i, id) && ops[p].block == ops[i].block
  {
    InForceIffSoleValidator(ops, id);
    if EverApproved(Fresh(), ops, id) {
      var i: nat :| i < |ops| && ApprovedAt(Fresh(), ops, i, id);
      WasProposed(ops, i, id);
      var p: nat :| p < i && ProposedAt(ops, p, id);
      assert ops[..p + 1][..p] == ops[..p];
      OnlyProposeAdds(Run(ops[..p]), ops[p], id);
      StaysDecided(ops, p + 1, i, id);
      assert forall k | p <= k < i :: !ops[k].Hook?;
    }
  }

  /** The whole mechanism is inert unless the active set is, at some vote, a single validator. */
  lemma InertWithoutSoleValidator(ops: seq<Op>)
    requires forall i | 0 <= i < |ops| && ops[i].CastVote? :: |ops[i].active| != 1
    ensures Run(ops).gov.versions == map[]
    ensures forall id | id in Run(ops).gov.proposals :: Run(ops).gov.proposals[id].status in {Pending, Rejected, Approved}
  {
    RegistriesStayConsistent(ops);
    forall id | id in Run(ops).gov.proposals ensures !InForce(Run(ops).gov.proposals[id]) {
      InForceIffSoleValidator(ops, id);
      assert forall i: nat | i < |ops| :: !ApprovedAt(Fresh(), ops, i, id);
    }
    assert forall name :: name !in Run(ops).gov.versions;
  }
}
