/**
 Upgrade governance: the proposal registry, the module-version registry, and the two sweeps the
 node runs after every committed block.

 Registries are objects whose maps the operations reassign. Each operation is proved against a
 function on the pair of registry values, and the laws are stated about those functions.
*/
module Governance {
  import opened Types

  datatype Vote = Yes | No | Abstain

  datatype Status = Pending | Approved | Rejected | Scheduled | Executed | Failed

  datatype Proposal = Proposal(
    moduleName: string,
    newVersion: nat,
    activationBlock: nat,
    votes: map<Address, Vote>,
    status: Status)

  type Versions = map<string, nat>
  type Proposals = map<nat, Proposal>

  /** The pair of registries that one metadata batch stores. */
  datatype Gov = Gov(versions: Versions, proposals: Proposals)

  predicate ValidNameChar(c: char) {
    'a' <= c <= 'z' || '0' <= c <= '9' || c == '_' || c == '-'
  }

  predicate ValidName(name: string) {
    name != [] && forall i | 0 <= i < |name| :: ValidNameChar(name[i])
  }

  // ----- Promotion of one proposal -----------------------------------------------------------

  function MarkExecuted(p: Proposal): Proposal {
    if p.status == Scheduled then p.(status := Executed) else p
  }

  function MarkFailed(p: Proposal): Proposal {
    if p.status == Scheduled then p.(status := Failed) else p
  }

  /** What `VersionRegistry::apply` accepts for a single module row: anything but a downgrade. */
  predicate Accepts(vs: Versions, name: string, version: nat) {
    name in vs ==> vs[name] <= version
  }

  /** The body of the ready loop, for the proposal `id`. */
  function Promote(g: Gov, id: nat): Gov {
    if id !in g.proposals then g else
    var p := g.proposals[id];
    if ValidName(p.moduleName) && Accepts(g.versions, p.moduleName, p.newVersion) then
      Gov(g.versions[p.moduleName := p.newVersion], g.proposals[id := MarkExecuted(p)])
    else
      Gov(g.versions, g.proposals[id := MarkFailed(p)])
  }

  function Sweep(g: Gov, ids: seq<nat>): Gov {
    if ids == [] then g else Promote(Sweep(g, ids[..|ids| - 1]), ids[|ids| - 1])
  }

  predicate IsReady(p: Proposal, block: nat) {
    p.status == Scheduled && p.activationBlock <= block
  }

  function Ready(ps: Proposals, block: nat): set<nat> {
    set id | id in ps && IsReady(ps[id], block)
  }

  // ----- Id order: the registry is a sorted map ----------------------------------------------

  /** `ids` lists exactly the members of `s`, in increasing order. */
  ghost predicate Lists(ids: seq<nat>, s: set<nat>) {
    && (forall i, j | 0 <= i < j < |ids| :: ids[i] < ids[j])
    && (forall i | 0 <= i < |ids| :: ids[i] in s)
    && (forall x | x in s :: x in ids)
  }

  lemma {:induction false} HasLeast(s: set<nat>)
    requires s != {}
    ensures exists m :: m in s && forall x | x in s :: m <= x
    decreases s
  {
    var y :| y in s;
    var rest := s - {y};
    if rest == {} {
      assert s == {y};
    } else {
      HasLeast(rest);
      var m :| m in rest && forall x | x in rest :: m <= x;
      var least := if m < y then m else y;
      assert forall x | x in s :: x == y || x in rest;
      assert least in s && forall x | x in s :: least <= x;
    }
  }

  ghost function Ordered(s: set<nat>): (ids: seq<nat>)
    ensures Lists(ids, s)
    decreases s
  {
    if s == {} then [] else
      HasLeast(s);
      var m :| m in s && forall x | x in s :: m <= x;
      var rest := Ordered(s - {m});
      assert forall x | x in s :: x == m || x in rest;
      [m] + rest
  }

  lemma ListsEmpty(ids: seq<nat>, s: set<nat>)
    requires Lists(ids, s)
    ensures ids == [] <==> s == {}
  {
    if ids != [] {
      assert ids[0] in s;
    }
    if s != {} {
      var x :| x in s;
      assert x in ids;
    }
  }

  /** Dropping the head of a listing lists the rest. */
  lemma ListsTail(ids: seq<nat>, s: set<nat>)
    requires Lists(ids, s) && ids != []
    ensures ids[0] in s && Lists(ids[1..], s - {ids[0]})
    ensures forall x | x in s :: ids[0] <= x
  {
    forall x | x in s ensures ids[0] <= x && (x != ids[0] ==> x in ids[1..]) {
      var i :| 0 <= i < |ids| && ids[i] == x;
      assert i > 0 ==> ids[1..][i - 1] == x;
    }
  }

  lemma {:induction false} ListsUnique(a: seq<nat>, b: seq<nat>, s: set<nat>)
    requires Lists(a, s) && Lists(b, s)
    ensures a == b
  {
    ListsEmpty(a, s);
    ListsEmpty(b, s);
    if a != [] {
      ListsTail(a, s);
      ListsTail(b, s);
      ListsUnique(a[1..], b[1..], s - {a[0]});
      assert a == [a[0]] + a[1..] && b == [b[0]] + b[1..];
    }
  }

  lemma ListsSnoc(ids: seq<nat>, s: set<nat>, m: nat)
    requires Lists(ids, s) && forall x | x in s :: x < m
    ensures Lists(ids + [m], s + {m})
  {
    assert (ids + [m])[|ids|] == m;
    forall x | x in s + {m} ensures x in ids + [m] {
      assert x != m ==> x in ids;
    }
  }

  method TakeLeast(s: set<nat>) returns (m: nat)
    requires s != {}
    ensures m in s && forall x | x in s :: m <= x
  {
    HasLeast(s);
    m :| m in s && forall x | x in s :: m <= x;
  }

  /** One completed governance sweep at `block`, visiting ready ids in the map's own order. */
  ghost function Tick(g: Gov, block: nat): Gov {
    Sweep(g, Ordered(Ready(g.proposals, block)))
  }

  // ----- Votes and finalisation ----------------------------------------------------------------

  function YesVoters(p: Proposal, active: set<Address>): set<Address> {
    set v | v in p.votes && v in active && p.votes[v] == Yes
  }

  predicate HasMajority(p: Proposal, active: set<Address>) {
    |YesVoters(p, active)| * 2 > |active|
  }

  /** Decides a pending proposal at once: without a majority, or too late, it is rejected. */
  function TryFinalize(p: Proposal, active: set<Address>, block: nat): Proposal {
    if p.status != Pending then p
    else if HasMajority(p, active) && p.activationBlock > block then p.(status := Scheduled)
    else p.(status := Rejected)
  }

  function FinalizeAll(ps: Proposals, active: set<Address>, block: nat): Proposals {
    map id | id in ps :: TryFinalize(ps[id], active, block)
  }

  function PendingIds(ps: Proposals): set<nat> {
    set id | id in ps && ps[id].status == Pending
  }

  /** The governance hook of one block: finalise what is pending, then execute what is ready. */
  ghost function EndOfBlock(g: Gov, active: set<Address>, block: nat): Gov {
    Tick(Gov(g.versions, FinalizeAll(g.proposals, active, block)), block)
  }

  /** The registry after a vote transaction; `None` when the transaction is refused. */
  function VoteAndFinalize(ps: Proposals, id: nat, voter: Address, approve: bool,
                           active: set<Address>, block: nat): Option<Proposals>
  {
    if id !in ps || ps[id].status != Pending then None else
    var voted := ps[id].(votes := ps[id].votes[voter := if approve then Yes else No]);
    Some(ps[id := TryFinalize(voted, active, block)])
  }

  /**
   Finalising moves a proposal's status alone, and only while it is pending: to Scheduled when more than
   half of the active validators said yes and its activation is still ahead, to Rejected otherwise.
  */
  ghost predicate Decided(p: Proposal, q: Proposal, active: set<Address>, block: nat) {
    && q == p.(status := q.status)
    && (p.status != Pending ==> q == p)
    && (p.status == Pending ==> q.status in {Scheduled, Rejected})
    && (p.status == Pending ==>
          (q.status == Scheduled <==>
             block < p.activationBlock && |active| < 2 * |set v | v in active && v in p.votes && p.votes[v] == Yes|))
  }

  lemma FinalizeDecides(p: Proposal, active: set<Address>, block: nat)
    ensures Decided(p, TryFinalize(p, active, block), active, block)
  {
    assert YesVoters(p, active) == set v | v in active && v in p.votes && p.votes[v] == Yes;
  }

  // ----- Registries as objects ----------------------------------------------------------------

  class VersionRegistry {
    var modules: Versions

    constructor ()
      ensures modules == map[]
    {
      modules := map[];
    }

    /** Works on a copy and swaps it in only on success. */
    method Apply(name: string, version: nat) returns (ok: bool)
      modifies this
      ensures ok == Accepts(old(modules), name, version)
      ensures modules == if ok then old(modules)[name := version] else old(modules)
    {
      var next := modules;
      if name in next && version < next[name] {
        return false;
      }
      next := next[name := version];
      modules := next;
      ok := true;
    }
  }

  class ProposalRegistry {
    var entries: Proposals

    constructor ()
      ensures entries == map[]
    {
      entries := map[];
    }

    method ReadyToExecute(block: nat) returns (ids: seq<nat>)
      ensures Lists(ids, Ready(entries, block))
      ensures forall id :: id in ids <==>
                id in entries && entries[id].status == Scheduled && entries[id].activationBlock <= block
    {
      var all := Ready(entries, block);
      var left := all;
      ids := [];
      while left != {}
        invariant left <= all
        invariant Lists(ids, all - left)
        invariant forall x, y | x in left && y in all - left :: y < x
        decreases left
      {
        var m := TakeLeast(left);
        ListsSnoc(ids, all - left, m);
        assert all - (left - {m}) == all - left + {m};
        ids, left := ids + [m], left - {m};
      }
      assert all - left == all;
    }

    /** `cast_and_maybe_finalize`. */
    method CastAndMaybeFinalize(id: nat, voter: Address, approve: bool, activeSet: seq<Address>, block: nat)
      returns (r: Option<Status>)
      modifies this
      ensures var after := VoteAndFinalize(old(entries), id, voter, approve, (set a | a in activeSet), block);
              match after
              case None => r == None && entries == old(entries)
              case Some(ps) => entries == ps && r == Some(ps[id].status)
      ensures r.Some? <==> id in old(entries) && old(entries)[id].status == Pending
      ensures r.Some? ==>
                && entries.Keys == old(entries).Keys
                && (forall k | k in entries && k != id :: entries[k] == old(entries)[k])
                && Decided(old(entries)[id].(votes := old(entries)[id].votes[voter := if approve then Yes else No]),
                           entries[id], (set a | a in activeSet), block)
    {
      if id !in entries || entries[id].status != Pending {
        return None;
      }
      var active := set a | a in activeSet;
      var p := entries[id];
      p := p.(votes := p.votes[voter := if approve then Yes else No]);
      FinalizeDecides(p, active, block);
      p := TryFinalize(p, active, block);
      entries := entries[id := p];
      r := Some(p.status);
    }

    /** `try_finalize_all_pending`: afterwards nothing is pending. */
    method TryFinalizeAllPending(activeSet: seq<Address>, block: nat) returns (changed: bool)
      modifies this
      ensures entries == FinalizeAll(old(entries), (set a | a in activeSet), block)
      ensures changed <==> PendingIds(old(entries)) != {}
      ensures entries.Keys == old(entries).Keys
      ensures forall id | id in entries :: Decided(old(entries)[id], entries[id], (set a | a in activeSet), block)
    {
      var active := set a | a in activeSet;
      ghost var before := entries;
      var left := PendingIds(entries);
      changed := false;
      while left != {}
        invariant left <= PendingIds(before)
        invariant entries.Keys == before.Keys
        invariant forall id | id in before ::
          entries[id] == if id in left then before[id] else TryFinalize(before[id], active, block)
        invariant changed <==> left != PendingIds(before)
        decreases left
      {
        var id :| id in left;
        var after := TryFinalize(entries[id], active, block);
        if after.status != entries[id].status {
          changed := true;
        }
        entries := entries[id := after];
        left := left - {id};
      }
      forall id | id in entries ensures Decided(before[id], entries[id], active, block) {
        FinalizeDecides(before[id], active, block);
      }
    }

    method SetStatus(id: nat, status: Status)
      modifies this
      ensures entries == if id in old(entries) && old(entries)[id].status == Scheduled
                         then old(entries)[id := old(entries)[id].(status := status)]
                         else old(entries)
    {
      if id in entries && entries[id].status == Scheduled {
        entries := entries[id := entries[id].(status := status)];
      }
    }
  }

  /** The body of the ready loop: one proposal ends Executed or Failed. */
  method PromoteOne(vreg: VersionRegistry, preg: ProposalRegistry, id: nat)
    modifies vreg, preg
    ensures Gov(vreg.modules, preg.entries) == Promote(old(Gov(vreg.modules, preg.entries)), id)
  {
    if id !in preg.entries {
      return;
    }
    var p := preg.entries[id];
    if !ValidName(p.moduleName) {
      preg.SetStatus(id, Failed);
      assert preg.entries == Promote(old(Gov(vreg.modules, preg.entries)), id).proposals;
      return;
    }
    var ok := vreg.Apply(p.moduleName, p.newVersion);
    if ok {
      preg.SetStatus(id, Executed);
    } else {
      preg.SetStatus(id, Failed);
    }
    assert preg.entries == Promote(old(Gov(vreg.modules, preg.entries)), id).proposals;
  }

  lemma SweepOneMore(g: Gov, ids: seq<nat>, i: nat)
    requires i < |ids|
    ensures Sweep(g, ids[..i + 1]) == Promote(Sweep(g, ids[..i]), ids[i])
  {
    assert ids[..i + 1][..i] == ids[..i];
  }

  /** `apply_ready_governance`: the registries end as one `Tick`, and the flag says whether anything was ready. */
  method ApplyReadyGovernance(vreg: VersionRegistry, preg: ProposalRegistry, block: nat) returns (changed: bool)
    modifies vreg, preg
    ensures Gov(vreg.modules, preg.entries) == Tick(old(Gov(vreg.modules, preg.entries)), block)
    ensures changed <==> Ready(old(preg.entries), block) != {}
  {
    ghost var g0 := Gov(vreg.modules, preg.entries);
    var ready := preg.ReadyToExecute(block);
    ListsUnique(ready, Ordered(Ready(g0.proposals, block)), Ready(g0.proposals, block));
    ListsEmpty(ready, Ready(g0.proposals, block));
    if |ready| == 0 {
      return false;
    }
    for i := 0 to |ready|
      invariant Gov(vreg.modules, preg.entries) == Sweep(g0, ready[..i])
    {
      SweepOneMore(g0, ready, i);
      PromoteOne(vreg, preg, ready[i]);
    }
    assert ready[..|ready|] == ready;
    changed := true;
  }
}
