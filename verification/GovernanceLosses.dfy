/**
 A whole hook lost to a crash, and everything that may run afterwards: when the versions still come
 out as if the hook had completed.
*/
module GovernanceLosses {
  import opened Types
  import opened Governance
  import opened GovernanceLaws
  import opened GovernanceRuns

  // ----- Joins over runs -----------------------------------------------------------------------------------

  predicate Settled(p: Proposal) {
    p.status in {Executed, Failed}
  }

  predicate SameAsk(p: Proposal, q: Proposal) {
    p.moduleName == q.moduleName && p.newVersion == q.newVersion && p.activationBlock == q.activationBlock
  }

  function SettledSince(ps: Proposals, qs: Proposals): set<nat> {
    set id | id in qs && Settled(qs[id]) && !(id in ps && Settled(ps[id]))
  }

  /** Proposals are never dropped, never change what they ask for, and stay settled. */
  ghost predicate Continues(ps: Proposals, qs: Proposals) {
    forall id | id in ps :: id in qs && SameAsk(ps[id], qs[id]) && (Settled(ps[id]) ==> Settled(qs[id]))
  }

  lemma JoinByAsk(base: Versions, ps: Proposals, qs: Proposals, ids: set<nat>, out: Versions)
    requires IsJoin(base, ps, ids, out)
    requires forall id | id in ids :: id in ps && id in qs && SameAsk(ps[id], qs[id])
    ensures IsJoin(base, qs, ids, out)
  {
    forall name | name in out && Asks(ps, ids, name, out[name]) ensures Asks(qs, ids, name, out[name]) {
      var id :| id in ids && Counts(ps, id) && ps[id].moduleName == name && ps[id].newVersion == out[name];
      assert Counts(qs, id);
    }
    forall id | id in ids && Counts(qs, id) ensures qs[id].moduleName in out && qs[id].newVersion <= out[qs[id].moduleName] {
      assert Counts(ps, id);
    }
  }

  /** Adding proposals to a join changes it exactly when one of them is above it. */
  lemma JoinExtends(base: Versions, ps: Proposals, a: set<nat>, b: set<nat>, small: Versions, large: Versions)
    requires IsJoin(base, ps, a, small) && IsJoin(base, ps, a + b, large)
    ensures large == small <==>
            forall id | id in b && Counts(ps, id) ::
              ps[id].moduleName in small && ps[id].newVersion <= small[ps[id].moduleName]
  {
    if forall id | id in b && Counts(ps, id) ::
         ps[id].moduleName in small && ps[id].newVersion <= small[ps[id].moduleName] {
      forall name | name in small && Asks(ps, a, name, small[name]) ensures Asks(ps, a + b, name, small[name]) {
        var w :| w in a && Counts(ps, w) && ps[w].moduleName == name && ps[w].newVersion == small[name];
        assert w in a + b;
      }
      assert IsJoin(base, ps, a + b, small);
      JoinUnique(base, ps, a + b, small, large);
    }
    forall id | id in b && Counts(ps, id) ensures ps[id].moduleName in large && ps[id].newVersion <= large[ps[id].moduleName] {
      assert id in a + b;
    }
  }

  /** The request of `id` is met without it: by the starting versions or by a proposal of `others`. */
  ghost predicate Met(base: Versions, ps: Proposals, others: set<nat>, id: nat)
    requires id in ps
  {
    var p := ps[id];
    || (p.moduleName in base && p.newVersion <= base[p.moduleName])
    || exists x :: x in others && Counts(ps, x) && ps[x].moduleName == p.moduleName && p.newVersion <= ps[x].newVersion
  }

  lemma MetByJoin(base: Versions, ps: Proposals, others: set<nat>, out: Versions, id: nat)
    requires Counts(ps, id) && IsJoin(base, ps, others, out)
    ensures Met(base, ps, others, id) <==> ps[id].moduleName in out && ps[id].newVersion <= out[ps[id].moduleName]
  {
    var p := ps[id];
    if p.moduleName in out && p.newVersion <= out[p.moduleName]
       && !(p.moduleName in base && base[p.moduleName] == out[p.moduleName]) {
      assert Asks(ps, others, p.moduleName, out[p.moduleName]);
    }
  }

  lemma TickSettles(g: Gov, block: nat)
    ensures var out := Tick(g, block);
            && Continues(g.proposals, out.proposals) && out.proposals.Keys == g.proposals.Keys
            && SettledSince(g.proposals, out.proposals) == Ready(g.proposals, block)
            && IsJoin(g.versions, out.proposals, SettledSince(g.proposals, out.proposals), out.versions)
  {
    var out := Tick(g, block);
    TickIsJoin(g, block);
    forall id | id in g.proposals
      ensures id in out.proposals && SameAsk(g.proposals[id], out.proposals[id])
      ensures id in SettledSince(g.proposals, out.proposals) <==> id in Ready(g.proposals, block)
      ensures Settled(g.proposals[id]) ==> Settled(out.proposals[id])
    {
      assert SameRequest(g.proposals[id], out.proposals[id]);
    }
    JoinByAsk(g.versions, g.proposals, out.proposals, Ready(g.proposals, block), out.versions);
  }

  ghost predicate SettlesBy(g: Gov, out: Gov, ids: set<nat>) {
    && Continues(g.proposals, out.proposals)
    && SettledSince(g.proposals, out.proposals) == ids
    && IsJoin(g.versions, out.proposals, ids, out.versions)
  }

  lemma HookSettlesDue(g: Gov, active: set<Address>, block: nat)
    ensures SettlesBy(g, EndOfBlock(g, active, block), Ready(g.proposals, block))
  {
    PhasesDoNotChain(g.proposals, active, block);
    var mid := Gov(g.versions, FinalizeAll(g.proposals, active, block));
    var out := Tick(mid, block);
    TickSettles(mid, block);
    forall id | id in g.proposals
      ensures SameAsk(g.proposals[id], mid.proposals[id]) && (Settled(mid.proposals[id]) <==> Settled(g.proposals[id]))
    {
    }
    assert SettledSince(g.proposals, out.proposals) == SettledSince(mid.proposals, out.proposals);
  }

  lemma TransactionSettlesNothing(s: State, op: Op)
    requires !IsHook(op)
    ensures SettlesBy(s.gov, Step(s, op).gov, {})
  {
    var ps, qs := s.gov.proposals, Step(s, op).gov.proposals;
    forall id | id in qs ensures Settled(qs[id]) ==> id in ps && Settled(ps[id]) {
    }
    forall id | id in ps ensures id in qs && SameAsk(ps[id], qs[id]) && (Settled(ps[id]) ==> Settled(qs[id])) {
    }
    assert SettledSince(ps, qs) == {};
  }

  /** What an operation settles: a hook exactly what is scheduled and due, anything else nothing. */
  lemma StepSettles(s: State, op: Op)
    ensures SettlesBy(s.gov, Step(s, op).gov, if IsHook(op) then Ready(s.gov.proposals, op.block) else {})
  {
    match op
    case Hook(active, block) => HookSettlesDue(s.gov, active, block);
    case TickOnly(block) => TickSettles(s.gov, block);
    case _ => TransactionSettlesNothing(s, op);
  }

  lemma SettledAddsUp(ps: Proposals, qs: Proposals, rs: Proposals)
    requires Continues(ps, qs) && Continues(qs, rs)
    ensures Continues(ps, rs) && SettledSince(ps, rs) == SettledSince(ps, qs) + SettledSince(qs, rs)
  {
    forall id | id in ps ensures id in rs && SameAsk(ps[id], rs[id]) {
      assert SameAsk(ps[id], qs[id]) && SameAsk(qs[id], rs[id]);
    }
  }

  lemma {:induction false} RunIsJoin(s: State, ops: seq<Op>)
    ensures var t := RunFrom(s, ops);
            && Continues(s.gov.proposals, t.gov.proposals)
            && IsJoin(s.gov.versions, t.gov.proposals, SettledSince(s.gov.proposals, t.gov.proposals), t.gov.versions)
  {
    if ops != [] {
      var mid, op := RunFrom(s, ops[..|ops| - 1]), ops[|ops| - 1];
      RunIsJoin(s, ops[..|ops| - 1]);
      StepSettles(mid, op);
      JoinsChain(s.gov, mid.gov, Step(mid, op).gov);
    }
  }

  lemma JoinsChain(g: Gov, mid: Gov, out: Gov)
    requires Continues(g.proposals, mid.proposals) && Continues(mid.proposals, out.proposals)
    requires IsJoin(g.versions, mid.proposals, SettledSince(g.proposals, mid.proposals), mid.versions)
    requires IsJoin(mid.versions, out.proposals, SettledSince(mid.proposals, out.proposals), out.versions)
    ensures Continues(g.proposals, out.proposals)
    ensures IsJoin(g.versions, out.proposals, SettledSince(g.proposals, out.proposals), out.versions)
  {
    var a, b := SettledSince(g.proposals, mid.proposals), SettledSince(mid.proposals, out.proposals);
    SettledAddsUp(g.proposals, mid.proposals, out.proposals);
    JoinByAsk(g.versions, mid.proposals, out.proposals, a, mid.versions);
    assert SameRequests(out.proposals, out.proposals) by {
      forall id | id in out.proposals ensures SameRequest(out.proposals[id], out.proposals[id]) {
      }
    }
    JoinsCompose(g.versions, out.proposals, a, Gov(mid.versions, out.proposals), b, out.versions);
  }

  // ----- Due within a run ------------------------------------------------------------------------------------

  /** A hook of the run, the `j`-th operation, finds the proposal scheduled and due. */
  ghost predicate DueAt(s: State, ops: seq<Op>, j: nat, id: nat)
    requires j < |ops|
  {
    IsHook(ops[j]) && id in Ready(RunFrom(s, ops[..j]).gov.proposals, ops[j].block)
  }

  ghost predicate DueWithin(s: State, ops: seq<Op>, id: nat) {
    exists j: nat :: j < |ops| && DueAt(s, ops, j, id)
  }

  lemma DueSplits(s: State, ops: seq<Op>, id: nat)
    requires ops != []
    ensures DueWithin(s, ops, id) <==> DueWithin(s, ops[..|ops| - 1], id) || DueAt(s, ops, |ops| - 1, id)
  {
    var init := ops[..|ops| - 1];
    forall j: nat | j < |init| ensures DueAt(s, init, j, id) <==> DueAt(s, ops, j, id) {
      assert init[..j] == ops[..j];
    }
    if DueWithin(s, ops, id) && !DueAt(s, ops, |ops| - 1, id) {
      var j: nat :| j < |ops| && DueAt(s, ops, j, id);
      assert DueAt(s, init, j, id);
    }
    if DueWithin(s, init, id) {
      var j: nat :| j < |init| && DueAt(s, init, j, id);
      assert DueAt(s, ops, j, id);
    }
  }

  lemma {:induction false} SettledIffDue(s: State, ops: seq<Op>, id: nat)
    ensures id in SettledSince(s.gov.proposals, RunFrom(s, ops).gov.proposals) <==> DueWithin(s, ops, id)
  {
    if ops != [] {
      var init, op := ops[..|ops| - 1], ops[|ops| - 1];
      var mid := RunFrom(s, init);
      SettledIffDue(s, init, id);
      StepSettles(mid, op);
      RunIsJoin(s, init);
      SettledAddsUp(s.gov.proposals, mid.gov.proposals, Step(mid, op).gov.proposals);
      DueSplits(s, ops, id);
    }
  }

  /**
   Pending when the hook is lost, approved by a sole validator before the next hook rejects it, and
   due at a hook after that.
  */
  ghost predicate LateApproved(s: State, more: seq<Op>, id: nat) {
    && id in PendingIds(s.gov.proposals)
    && exists i: nat, j: nat :: i < j < |more| && ApprovedAndDue(s, more, i, j, id)
  }

  ghost predicate ApprovedAndDue(s: State, more: seq<Op>, i: nat, j: nat, id: nat)
    requires i < j < |more| && id in s.gov.proposals
  {
    ApprovedAt(s, more, i, id) && IsHook(more[j]) && s.gov.proposals[id].activationBlock <= more[j].block
  }

  lemma ApprovedInPrefix(s: State, more: seq<Op>, i: nat, j: nat, id: nat)
    requires i < j <= |more|
    ensures ApprovedAt(s, more[..j], i, id) <==> ApprovedAt(s, more, i, id)
  {
    assert more[..j][..i] == more[..i];
  }

  lemma DueInPrefix(s: State, more: seq<Op>, j: nat, id: nat)
    requires j <= |more| && DueWithin(s, more[..j], id)
    ensures DueWithin(s, more, id)
  {
    var k: nat :| k < j && DueAt(s, more[..j], k, id);
    assert more[..j][..k] == more[..k];
    assert DueAt(s, more, k, id);
  }

  lemma LateIffDue(s: State, more: seq<Op>, id: nat)
    requires UndecidedIsUnvoted(s.gov.proposals) && id in PendingIds(s.gov.proposals)
    ensures LateApproved(s, more, id) <==> DueWithin(s, more, id)
  {
    if DueWithin(s, more, id) {
      var j: nat :| j < |more| && DueAt(s, more, j, id);
      DueIsApproved(s, more, j, id);
    }
    if LateApproved(s, more, id) {
      var i: nat, j: nat :| i < j < |more| && ApprovedAndDue(s, more, i, j, id);
      ApprovedIsDue(s, more, i, j, id);
    }
  }

  lemma DueIsApproved(s: State, more: seq<Op>, j: nat, id: nat)
    requires UndecidedIsUnvoted(s.gov.proposals) && id in PendingIds(s.gov.proposals)
    requires j < |more| && DueAt(s, more, j, id)
    ensures LateApproved(s, more, id)
  {
    InForceFrom(s, more[..j], id);
    RunIsJoin(s, more[..j]);
    var i: nat :| i < j && ApprovedAt(s, more[..j], i, id);
    ApprovedInPrefix(s, more, i, j, id);
    assert ApprovedAndDue(s, more, i, j, id);
  }

  lemma ApprovedIsDue(s: State, more: seq<Op>, i: nat, j: nat, id: nat)
    requires UndecidedIsUnvoted(s.gov.proposals) && id in PendingIds(s.gov.proposals)
    requires i < j < |more| && ApprovedAndDue(s, more, i, j, id)
    ensures DueWithin(s, more, id)
  {
    ApprovedInPrefix(s, more, i, j, id);
    InForceFrom(s, more[..j], id);
    RunIsJoin(s, more[..j]);
    var p := RunFrom(s, more[..j]).gov.proposals[id];
    if Settled(p) {
      SettledIffDue(s, more[..j], id);
      DueInPrefix(s, more, j, id);
    } else {
      assert DueAt(s, more, j, id);
    }
  }

  // ----- With and without the hook -----------------------------------------------------------------------------

  /**
   The two histories side by side: `a` completed the hook, `b` lost it. What was pending then is
   rejected in `a`; what was due then is settled in `a` and, until the next hook, still scheduled in
   `b`; everything else is the same proposal, or settled in both.
  */
  ghost predicate Twin(pending: set<nat>, due: set<nat>, missed: nat, a: State, b: State) {
    && a.counter == b.counter && a.gov.proposals.Keys == b.gov.proposals.Keys
    && forall id | id in b.gov.proposals :: TwinAt(pending, due, missed, a.gov.proposals[id], b.gov.proposals[id], id)
  }

  predicate TwinAt(pending: set<nat>, due: set<nat>, missed: nat, p: Proposal, q: Proposal, id: nat) {
    if id in pending then p.status == Rejected && SameAsk(p, q)
    else if id in due then Settled(p) && q.status == Scheduled && q.activationBlock <= missed && SameAsk(p, q)
    else if Settled(q) then Settled(p) && SameAsk(p, q)
    else p == q
  }

  lemma TwinTick(pending: set<nat>, due: set<nat>, missed: nat, a: State, b: State, block: nat)
    requires Twin(pending, due, missed, a, b) && missed <= block
    ensures Twin(pending, {}, missed, a.(gov := Tick(a.gov, block)), b.(gov := Tick(b.gov, block)))
  {
    TickIsJoin(a.gov, block);
    TickIsJoin(b.gov, block);
    forall id | id in b.gov.proposals
      ensures TwinAt(pending, {}, missed, Tick(a.gov, block).proposals[id], Tick(b.gov, block).proposals[id], id)
    {
      assert TwinAt(pending, due, missed, a.gov.proposals[id], b.gov.proposals[id], id);
      assert SameRequest(a.gov.proposals[id], Tick(a.gov, block).proposals[id]);
      assert SameRequest(b.gov.proposals[id], Tick(b.gov, block).proposals[id]);
    }
  }

  lemma TwinFinalize(pending: set<nat>, due: set<nat>, missed: nat, a: State, b: State, active: set<Address>, block: nat)
    requires Twin(pending, due, missed, a, b)
    ensures Twin(pending, due, missed,
                 a.(gov := a.gov.(proposals := FinalizeAll(a.gov.proposals, active, block))),
                 b.(gov := b.gov.(proposals := FinalizeAll(b.gov.proposals, active, block))))
  {
    forall id | id in b.gov.proposals
      ensures TwinAt(pending, due, missed, FinalizeAll(a.gov.proposals, active, block)[id],
                     FinalizeAll(b.gov.proposals, active, block)[id], id)
    {
      assert TwinAt(pending, due, missed, a.gov.proposals[id], b.gov.proposals[id], id);
    }
  }

  lemma TwinPropose(pending: set<nat>, due: set<nat>, missed: nat, a: State, b: State, op: Op)
    requires Twin(pending, due, missed, a, b) && op.Propose?
    requires pending <= b.gov.proposals.Keys && due <= b.gov.proposals.Keys
    ensures Twin(pending, due, missed, Step(a, op), Step(b, op))
  {
    forall id | id in Step(b, op).gov.proposals
      ensures TwinAt(pending, due, missed, Step(a, op).gov.proposals[id], Step(b, op).gov.proposals[id], id)
    {
      assert id in b.gov.proposals ==> TwinAt(pending, due, missed, a.gov.proposals[id], b.gov.proposals[id], id);
    }
  }

  lemma TwinVote(pending: set<nat>, due: set<nat>, missed: nat, a: State, b: State, op: Op)
    requires Twin(pending, due, missed, a, b) && op.CastVote?
    ensures Twin(pending, due, missed, Step(a, op), Step(b, op))
  {
    if op.id in b.gov.proposals {
      assert TwinAt(pending, due, missed, a.gov.proposals[op.id], b.gov.proposals[op.id], op.id);
    }
    forall id | id in b.gov.proposals
      ensures TwinAt(pending, due, missed, Step(a, op).gov.proposals[id], Step(b, op).gov.proposals[id], id)
    {
      assert TwinAt(pending, due, missed, a.gov.proposals[id], b.gov.proposals[id], id);
    }
  }

  lemma TwinStep(pending: set<nat>, due: set<nat>, missed: nat, a: State, b: State, op: Op)
    requires Twin(pending, due, missed, a, b) && (IsHook(op) ==> missed <= op.block)
    requires pending <= b.gov.proposals.Keys && due <= b.gov.proposals.Keys
    ensures Twin(pending, if IsHook(op) then {} else due, missed, Step(a, op), Step(b, op))
    ensures b.gov.proposals.Keys <= Step(b, op).gov.proposals.Keys
  {
    StepSettles(b, op);
    match op
    case Hook(active, block) =>
      TwinFinalize(pending, due, missed, a, b, active, block);
      TwinTick(pending, due, missed,
               a.(gov := a.gov.(proposals := FinalizeAll(a.gov.proposals, active, block))),
               b.(gov := b.gov.(proposals := FinalizeAll(b.gov.proposals, active, block))), block);
    case TickOnly(block) => TwinTick(pending, due, missed, a, b, block);
    case Propose(_, _, _, _) => TwinPropose(pending, due, missed, a, b, op);
    case CastVote(_, _, _, _, _) => TwinVote(pending, due, missed, a, b, op);
  }

  predicate HooksFrom(ops: seq<Op>, height: nat) {
    forall j | 0 <= j < |ops| && IsHook(ops[j]) :: height <= ops[j].block
  }

  predicate HasHook(ops: seq<Op>) {
    exists j :: 0 <= j < |ops| && IsHook(ops[j])
  }

  lemma {:induction false} TwinRun(pending: set<nat>, due: set<nat>, missed: nat, a: State, b: State, more: seq<Op>)
    requires Twin(pending, due, missed, a, b) && HooksFrom(more, missed)
    requires pending <= b.gov.proposals.Keys && due <= b.gov.proposals.Keys
    ensures Twin(pending, if HasHook(more) then {} else due, missed, RunFrom(a, more), RunFrom(b, more))
    ensures b.gov.proposals.Keys <= RunFrom(b, more).gov.proposals.Keys
  {
    if more != [] {
      var init, op := more[..|more| - 1], more[|more| - 1];
      assert forall j | 0 <= j < |init| :: init[j] == more[j];
      TwinRun(pending, due, missed, a, b, init);
      TwinStep(pending, if HasHook(init) then {} else due, missed, RunFrom(a, init), RunFrom(b, init), op);
      assert HasHook(more) <==> HasHook(init) || IsHook(op);
    }
  }

  lemma TwinStart(s: State, active: set<Address>, missed: nat)
    requires UndecidedIsUnvoted(s.gov.proposals)
    ensures Twin(PendingIds(s.gov.proposals), Ready(s.gov.proposals, missed), missed, Step(s, Hook(active, missed)), s)
  {
    var ps := s.gov.proposals;
    var mid := Gov(s.gov.versions, FinalizeAll(ps, active, missed));
    PhasesDoNotChain(ps, active, missed);
    TickIsJoin(mid, missed);
    forall id | id in ps
      ensures TwinAt(PendingIds(ps), Ready(ps, missed), missed, Tick(mid, missed).proposals[id], ps[id], id)
    {
      if ps[id].status == Pending {
        UnvotedHasNoMajority(ps[id], active);
      }
      assert SameRequest(mid.proposals[id], Tick(mid, missed).proposals[id]);
    }
  }

  // ----- The theorem -------------------------------------------------------------------------------------------

  /** The proposals that come due after the loss without having been pending at it. */
  ghost function DueAnyway(s: State, more: seq<Op>): set<nat> {
    set id | id in RunFrom(s, more).gov.proposals && DueWithin(s, more, id) && id !in PendingIds(s.gov.proposals)
  }

  lemma DueAnywayIsSettled(s: State, more: seq<Op>)
    ensures DueAnyway(s, more) == SettledSince(s.gov.proposals, RunFrom(s, more).gov.proposals) - PendingIds(s.gov.proposals)
  {
    forall id: nat
      ensures id in DueAnyway(s, more) <==>
              id in SettledSince(s.gov.proposals, RunFrom(s, more).gov.proposals) - PendingIds(s.gov.proposals)
    {
      SettledIffDue(s, more, id);
    }
  }

  /** Every late approval is met by the versions at the loss or by what is due anyway. */
  ghost predicate LateIsMet(s: State, more: seq<Op>) {
    forall id | id in RunFrom(s, more).gov.proposals && LateApproved(s, more, id) && Counts(RunFrom(s, more).gov.proposals, id) ::
      Met(s.gov.versions, RunFrom(s, more).gov.proposals, DueAnyway(s, more), id)
  }

  lemma TwinSettled(s: State, missed: nat, a: State, b: State)
    requires Twin(PendingIds(s.gov.proposals), {}, missed, a, b)
    requires Continues(s.gov.proposals, a.gov.proposals) && Continues(s.gov.proposals, b.gov.proposals)
    ensures var pending := PendingIds(s.gov.proposals);
            && SettledSince(s.gov.proposals, a.gov.proposals)
                 == SettledSince(s.gov.proposals, b.gov.proposals) - pending
            && forall id | id in SettledSince(s.gov.proposals, a.gov.proposals) ::
                 id in b.gov.proposals && SameAsk(a.gov.proposals[id], b.gov.proposals[id])
  {
    forall id | id in b.gov.proposals
      ensures id in SettledSince(s.gov.proposals, a.gov.proposals) <==>
              id in SettledSince(s.gov.proposals, b.gov.proposals) - PendingIds(s.gov.proposals)
      ensures id in SettledSince(s.gov.proposals, a.gov.proposals) ==> SameAsk(a.gov.proposals[id], b.gov.proposals[id])
    {
      assert TwinAt(PendingIds(s.gov.proposals), {}, missed, a.gov.proposals[id], b.gov.proposals[id], id);
    }
  }

  lemma LostFrom(s: State, active: set<Address>, missed: nat, more: seq<Op>)
    requires UndecidedIsUnvoted(s.gov.proposals) && HooksFrom(more, missed) && HasHook(more)
    ensures RunFrom(Step(s, Hook(active, missed)), more).gov.versions == RunFrom(s, more).gov.versions
       <==> LateIsMet(s, more)
  {
    var first := Hook(active, missed);
    var a, b := RunFrom(Step(s, first), more), RunFrom(s, more);
    TwinStart(s, active, missed);
    TwinRun(PendingIds(s.gov.proposals), Ready(s.gov.proposals, missed), missed, Step(s, first), s, more);
    RunIsJoin(s, more);
    WithHookIsJoin(s, first, more);
    TwinSettled(s, missed, a, b);
    DueAnywayIsSettled(s, more);
    var anyway, late := DueAnyway(s, more), SettledSince(s.gov.proposals, b.gov.proposals) * PendingIds(s.gov.proposals);
    JoinByAsk(s.gov.versions, a.gov.proposals, b.gov.proposals, anyway, a.gov.versions);
    assert anyway + late == SettledSince(s.gov.proposals, b.gov.proposals);
    JoinExtends(s.gov.versions, b.gov.proposals, anyway, late, a.gov.versions, b.gov.versions);
    forall id | id in b.gov.proposals && Counts(b.gov.proposals, id)
      ensures LateApproved(s, more, id) <==> id in late
      ensures Met(s.gov.versions, b.gov.proposals, anyway, id) <==>
              b.gov.proposals[id].moduleName in a.gov.versions
              && b.gov.proposals[id].newVersion <= a.gov.versions[b.gov.proposals[id].moduleName]
    {
      MetByJoin(s.gov.versions, b.gov.proposals, anyway, a.gov.versions, id);
      LateIffSettled(s, more, id);
    }
  }

  lemma LateIffSettled(s: State, more: seq<Op>, id: nat)
    requires UndecidedIsUnvoted(s.gov.proposals)
    ensures LateApproved(s, more, id) <==>
            id in SettledSince(s.gov.proposals, RunFrom(s, more).gov.proposals) * PendingIds(s.gov.proposals)
  {
    if id in PendingIds(s.gov.proposals) {
      LateIffDue(s, more, id);
      SettledIffDue(s, more, id);
    }
  }

  lemma WithHookIsJoin(s: State, first: Op, more: seq<Op>)
    ensures var a := RunFrom(Step(s, first), more);
            && Continues(s.gov.proposals, a.gov.proposals)
            && IsJoin(s.gov.versions, a.gov.proposals, SettledSince(s.gov.proposals, a.gov.proposals), a.gov.versions)
  {
    FirstStep(s, first);
    RunFromExtends(s, [first], more);
    RunIsJoin(s, [first] + more);
  }

  /**
   A hook lost to a crash, after any history and before any other, with later hooks at its height or
   above: the versions come out as if it had completed if and only if every proposal that was pending
   then, was approved by a sole validator before the next hook could reject it and has come due since,
   is met by the versions of that time or by proposals that are due anyway.
  */
  lemma LostHookIff(pre: seq<Op>, active: set<Address>, missed: nat, more: seq<Op>)
    requires HooksFrom(more, missed) && HasHook(more)
    ensures Run(pre + [Hook(active, missed)] + more).gov.versions == Run(pre + more).gov.versions
       <==> LateIsMet(Run(pre), more)
  {
    InForceIffSoleValidator(pre, 0);
    OneMoreStep(Fresh(), pre, Hook(active, missed));
    RunFromExtends(Fresh(), pre + [Hook(active, missed)], more);
    RunFromExtends(Fresh(), pre, more);
    LostFrom(Run(pre), active, missed, more);
  }

  /** When the very next thing to happen is another hook, the loss is always repaired. */
  lemma NextHookRepairs(pre: seq<Op>, active: set<Address>, missed: nat, next: Op)
    requires IsHook(next) && missed <= next.block
    ensures Run(pre + [Hook(active, missed)] + [next]).gov.versions == Run(pre + [next]).gov.versions
  {
    assert [next][0] == next;
    LostHookIff(pre, active, missed, [next]);
  }

  // ----- The diverging run ---------------------------------------------------------------------------------------

  function Asked(status: Status, votes: map<Address, Vote>): State {
    State(Gov(map[], map[1 := Proposal("evm", 1, 8, votes, status)]), 1)
  }

  /** The two histories as runs from the registry at the loss. */
  lemma HistoriesSplit(pre: seq<Op>, hook: Op, more: seq<Op>)
    ensures Run(pre + more) == RunFrom(Run(pre), more)
    ensures Run(pre + [hook] + more) == RunFrom(Step(Run(pre), hook), more)
  {
    RunFromExtends(Fresh(), pre, more);
    OneMoreStep(Fresh(), pre, hook);
    RunFromExtends(Fresh(), pre + [hook], more);
  }

  /**
   A sole validator's proposal of height 5 is approved at height 6. With the hook of height 5 it is
   rejected before that; when that hook is lost it goes through, and no later hook makes up for it.
  */
  lemma LostHookDiverges(a: Address)
    ensures var pre, more := [Propose("evm", 1, 8, 5)], [CastVote(1, a, true, {a}, 6), Hook({a}, 6), Hook({a}, 8)];
            && Run(pre + more).gov.versions == map["evm" := 1]
            && Run(pre + [Hook({a}, 5)] + more).gov.versions == map[]
  {
    AskedByProposal();
    HistoriesSplit([Propose("evm", 1, 8, 5)], Hook({a}, 5), [CastVote(1, a, true, {a}, 6), Hook({a}, 6), Hook({a}, 8)]);
    WithoutHook(a);
    WithHook(a);
  }

  lemma AskedByProposal()
    ensures Run([Propose("evm", 1, 8, 5)]) == Asked(Pending, map[])
  {
    assert ValidName("evm");
    FirstStep(Fresh(), Propose("evm", 1, 8, 5));
  }

  lemma ThreeSteps(s: State, x: Op, y: Op, z: Op)
    ensures RunFrom(s, [x, y, z]) == Step(Step(Step(s, x), y), z)
  {
    FirstStep(s, x);
    OneMoreStep(s, [x], y);
    OneMoreStep(s, [x] + [y], z);
    assert [x] + [y] + [z] == [x, y, z];
  }

  lemma NothingReady(g: Gov, block: nat)
    requires Ready(g.proposals, block) == {}
    ensures Tick(g, block) == g
  {
    ListsEmpty(Ordered({}), {});
  }

  /** A hook that finds nothing pending and nothing due changes nothing. */
  lemma IdleHook(s: State, active: set<Address>, block: nat)
    requires PendingIds(s.gov.proposals) == {} && Ready(s.gov.proposals, block) == {}
    ensures Step(s, Hook(active, block)) == s
  {
    NothingPendingNothingFinalised(s.gov.proposals, active, block);
    NothingReady(s.gov, block);
  }

  lemma ApprovalSchedules(a: Address)
    ensures Step(Asked(Pending, map[]), CastVote(1, a, true, {a}, 6)) == Asked(Scheduled, map[a := Yes])
  {
    FirstVoteDecides(Asked(Pending, map[]).gov.proposals, 1, a, true, {a}, 6);
  }

  lemma DueHookExecutes(a: Address, votes: map<Address, Vote>)
    ensures Step(Asked(Scheduled, votes), Hook({a}, 8)).gov.versions == map["evm" := 1]
  {
    var s := Asked(Scheduled, votes);
    NothingPendingNothingFinalised(s.gov.proposals, {a}, 8);
    assert Ready(s.gov.proposals, 8) == {1};
    TickOfList(s.gov, 8, [1]);
    SweepOne(s.gov, 1);
    assert ValidName("evm");
  }

  lemma WithoutHook(a: Address)
    ensures RunFrom(Asked(Pending, map[]), [CastVote(1, a, true, {a}, 6), Hook({a}, 6), Hook({a}, 8)]).gov.versions
         == map["evm" := 1]
  {
    ThreeSteps(Asked(Pending, map[]), CastVote(1, a, true, {a}, 6), Hook({a}, 6), Hook({a}, 8));
    ApprovalSchedules(a);
    IdleHook(Asked(Scheduled, map[a := Yes]), {a}, 6);
    DueHookExecutes(a, map[a := Yes]);
  }

  lemma HookRejects(a: Address)
    ensures Step(Asked(Pending, map[]), Hook({a}, 5)) == Asked(Rejected, map[])
  {
    var s := Asked(Pending, map[]);
    UnvotedHasNoMajority(s.gov.proposals[1], {a});
    assert FinalizeAll(s.gov.proposals, {a}, 5) == Asked(Rejected, map[]).gov.proposals;
    NothingReady(Asked(Rejected, map[]).gov, 5);
  }

  lemma WithHook(a: Address)
    ensures RunFrom(Step(Asked(Pending, map[]), Hook({a}, 5)),
                    [CastVote(1, a, true, {a}, 6), Hook({a}, 6), Hook({a}, 8)]).gov.versions == map[]
  {
    var s := Asked(Rejected, map[]);
    HookRejects(a);
    ThreeSteps(s, CastVote(1, a, true, {a}, 6), Hook({a}, 6), Hook({a}, 8));
    IdleHook(s, {a}, 6);
    IdleHook(s, {a}, 8);
  }
}
