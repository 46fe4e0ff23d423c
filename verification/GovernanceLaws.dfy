/** What the governance sweeps guarantee, whatever the visiting order, the batching and the crashes. */
module GovernanceLaws {
  import opened Governance

  // ----- The sweep computes a join -------------------------------------------------------------

  predicate Counts(ps: Proposals, id: nat) {
    id in ps && ValidName(ps[id].moduleName)
  }

  /** Some proposal of `ids` asks for exactly this row. */
  ghost predicate Asks(ps: Proposals, ids: set<nat>, name: string, version: nat) {
    exists id :: id in ids && Counts(ps, id) && ps[id].moduleName == name && ps[id].newVersion == version
  }

  /** `out` is the pointwise maximum of `base` and the well-named proposals of `ids`. */
  ghost predicate IsJoin(base: Versions, ps: Proposals, ids: set<nat>, out: Versions) {
    && (forall name | name in base :: name in out && base[name] <= out[name])
    && (forall id | id in ids && Counts(ps, id) ::
          ps[id].moduleName in out && ps[id].newVersion <= out[ps[id].moduleName])
    && (forall name | name in out ::
          (name in base && base[name] == out[name]) || Asks(ps, ids, name, out[name]))
  }

  lemma JoinUnique(base: Versions, ps: Proposals, ids: set<nat>, a: Versions, b: Versions)
    requires IsJoin(base, ps, ids, a) && IsJoin(base, ps, ids, b)
    ensures a == b
  {
    assert forall name | name in a :: name in b && a[name] <= b[name];
    assert forall name | name in b :: name in a && b[name] <= a[name];
  }

  /** Proposals differ at most in their status. */
  predicate SameRequest(p: Proposal, q: Proposal) {
    q == p.(status := q.status)
  }

  ghost predicate SameRequests(ps: Proposals, qs: Proposals) {
    qs.Keys == ps.Keys && forall id | id in ps :: SameRequest(ps[id], qs[id])
  }

  predicate Distinct(ids: seq<nat>) {
    forall i, j | 0 <= i < j < |ids| :: ids[i] != ids[j]
  }

  function Elems(ids: seq<nat>): set<nat> {
    set i | 0 <= i < |ids| :: ids[i]
  }

  lemma ElemsSnoc(ids: seq<nat>)
    requires ids != []
    ensures Elems(ids) == Elems(ids[..|ids| - 1]) + {ids[|ids| - 1]}
  {
    var init := ids[..|ids| - 1];
    forall x | x in Elems(ids) ensures x in Elems(init) + {ids[|ids| - 1]} {
      var i :| 0 <= i < |ids| && ids[i] == x;
      assert i < |ids| - 1 ==> init[i] == x;
    }
    forall x | x in Elems(init) ensures x in Elems(ids) {
      var i :| 0 <= i < |init| && init[i] == x;
      assert ids[i] == x;
    }
  }

  /** Visiting `ids` in any order: the versions are the join, only statuses of `ids` move. */
  lemma {:induction false} SweepIsJoin(g: Gov, ids: seq<nat>)
    requires Distinct(ids)
    ensures IsJoin(g.versions, g.proposals, Elems(ids), Sweep(g, ids).versions)
    ensures SameRequests(g.proposals, Sweep(g, ids).proposals)
    ensures forall id | id in g.proposals && id !in Elems(ids) :: Sweep(g, ids).proposals[id] == g.proposals[id]
  {
    if ids != [] {
      var init, last := ids[..|ids| - 1], ids[|ids| - 1];
      SweepIsJoin(g, init);
      ElemsSnoc(ids);
      JoinStep(g, Elems(init), last, Sweep(g, init));
    }
  }

  lemma PromoteTouches(g: Gov, id: nat)
    ensures SameRequests(g.proposals, Promote(g, id).proposals)
    ensures forall x | x in g.proposals && x != id :: Promote(g, id).proposals[x] == g.proposals[x]
  {
  }

  lemma SameRequestsTransitive(a: Proposals, b: Proposals, c: Proposals)
    requires SameRequests(a, b) && SameRequests(b, c)
    ensures SameRequests(a, c)
  {
    forall id | id in a ensures SameRequest(a[id], c[id]) {
      assert SameRequest(a[id], b[id]) && SameRequest(b[id], c[id]);
    }
  }

  /** The row `(name, version)` raises or keeps `mid`, or is refused because `mid` is already higher. */
  lemma RaiseStep(base: Versions, ps: Proposals, done: set<nat>, id: nat, mid: Versions, out: Versions)
    requires IsJoin(base, ps, done, mid) && id in ps
    requires var p := ps[id];
             out == if Counts(ps, id) && Accepts(mid, p.moduleName, p.newVersion)
                    then mid[p.moduleName := p.newVersion] else mid
    ensures IsJoin(base, ps, done + {id}, out)
  {
    var p := ps[id];
    forall name | name in out && !(name in base && base[name] == out[name])
      ensures Asks(ps, done + {id}, name, out[name])
    {
      if name == p.moduleName && Counts(ps, id) && out[name] == p.newVersion {
        assert id in done + {id};
      } else {
        assert Asks(ps, done, name, mid[name]);
        var w :| w in done && Counts(ps, w) && ps[w].moduleName == name && ps[w].newVersion == mid[name];
        assert w in done + {id};
      }
    }
  }

  lemma JoinStep(g: Gov, done: set<nat>, id: nat, mid: Gov)
    requires IsJoin(g.versions, g.proposals, done, mid.versions) && SameRequests(g.proposals, mid.proposals)
    ensures IsJoin(g.versions, g.proposals, done + {id}, Promote(mid, id).versions)
    ensures SameRequests(g.proposals, Promote(mid, id).proposals)
    ensures forall x | x in g.proposals && x != id :: Promote(mid, id).proposals[x] == mid.proposals[x]
  {
    PromoteTouches(mid, id);
    SameRequestsTransitive(g.proposals, mid.proposals, Promote(mid, id).proposals);
    if id in g.proposals {
      assert SameRequest(g.proposals[id], mid.proposals[id]);
      RaiseStep(g.versions, g.proposals, done, id, mid.versions, Promote(mid, id).versions);
    } else {
      JoinIgnoresUnknown(g.versions, g.proposals, done, id, mid.versions);
    }
  }

  lemma JoinIgnoresUnknown(base: Versions, ps: Proposals, done: set<nat>, id: nat, out: Versions)
    requires IsJoin(base, ps, done, out) && id !in ps
    ensures IsJoin(base, ps, done + {id}, out)
  {
    forall name | name in out && Asks(ps, done, name, out[name]) ensures Asks(ps, done + {id}, name, out[name]) {
      var w :| w in done && Counts(ps, w) && ps[w].moduleName == name && ps[w].newVersion == out[name];
      assert w in done + {id};
    }
  }

  /** Confluence: two visiting orders of the same proposals leave the same versions. */
  lemma SweepOrderIrrelevant(g: Gov, a: seq<nat>, b: seq<nat>)
    requires Distinct(a) && Distinct(b) && Elems(a) == Elems(b)
    ensures Sweep(g, a).versions == Sweep(g, b).versions
  {
    SweepIsJoin(g, a);
    SweepIsJoin(g, b);
    JoinUnique(g.versions, g.proposals, Elems(a), Sweep(g, a).versions, Sweep(g, b).versions);
  }

  // ----- Executed or Failed: exact, and order-dependent -----------------------------------------

  /** The `k`-th visited proposal is not overtaken by the start or by an earlier visit. */
  ghost predicate NotOvertaken(g: Gov, ids: seq<nat>, k: nat)
    requires k < |ids| && ids[k] in g.proposals
  {
    var p := g.proposals[ids[k]];
    && Accepts(g.versions, p.moduleName, p.newVersion)
    && forall j | 0 <= j < k && Counts(g.proposals, ids[j]) && g.proposals[ids[j]].moduleName == p.moduleName ::
         g.proposals[ids[j]].newVersion <= p.newVersion
  }

  lemma {:induction false} SweepStatus(g: Gov, ids: seq<nat>, k: nat)
    requires Distinct(ids) && k < |ids|
    requires ids[k] in g.proposals && g.proposals[ids[k]].status == Scheduled
    ensures ids[k] in Sweep(g, ids).proposals
    ensures Sweep(g, ids).proposals[ids[k]].status ==
            if ValidName(g.proposals[ids[k]].moduleName) && NotOvertaken(g, ids, k) then Executed else Failed
    decreases |ids|
  {
    var init, last := ids[..|ids| - 1], ids[|ids| - 1];
    SweepIsJoin(g, init);
    PromoteTouches(Sweep(g, init), last);
    if k < |ids| - 1 {
      SweepStatus(g, init, k);
      OvertakingIsEarlier(g, ids, k);
    } else {
      LastIsFresh(ids);
      OvertakenIffRefused(g, ids, k);
    }
  }

  lemma OvertakingIsEarlier(g: Gov, ids: seq<nat>, k: nat)
    requires k < |ids| - 1 && ids[k] in g.proposals
    ensures NotOvertaken(g, ids[..|ids| - 1], k) <==> NotOvertaken(g, ids, k)
  {
    var init := ids[..|ids| - 1];
    assert forall j | 0 <= j < |init| :: init[j] == ids[j];
  }

  lemma LastIsFresh(ids: seq<nat>)
    requires Distinct(ids) && ids != []
    ensures ids[|ids| - 1] !in Elems(ids[..|ids| - 1])
  {
  }

  lemma OvertakenIffRefused(g: Gov, ids: seq<nat>, k: nat)
    requires Distinct(ids) && k < |ids| && ids[k] in g.proposals
    ensures var p := g.proposals[ids[k]];
            NotOvertaken(g, ids, k) <==> Accepts(Sweep(g, ids[..k]).versions, p.moduleName, p.newVersion)
  {
    var p := g.proposals[ids[k]];
    var init := ids[..k];
    var mid := Sweep(g, init).versions;
    SweepIsJoin(g, init);
    forall j | 0 <= j < k ensures ids[j] in Elems(init) {
      assert init[j] == ids[j];
    }
    if NotOvertaken(g, ids, k) && p.moduleName in mid
       && !(p.moduleName in g.versions && g.versions[p.moduleName] == mid[p.moduleName]) {
      assert Asks(g.proposals, Elems(init), p.moduleName, mid[p.moduleName]);
    }
  }

  function Upgrade(version: nat, activation: nat): Proposal {
    Proposal("evm", version, activation, map[], Scheduled)
  }

  lemma TickOfList(g: Gov, block: nat, ids: seq<nat>)
    requires Lists(ids, Ready(g.proposals, block))
    ensures Tick(g, block) == Sweep(g, ids)
  {
    ListsUnique(ids, Ordered(Ready(g.proposals, block)), Ready(g.proposals, block));
  }

  function TwoUpgrades(): Gov {
    Gov(map[], map[1 := Upgrade(2, 20), 2 := Upgrade(3, 10)])
  }

  /** The versions agree, the statuses do not: a tick missed at height 10 turns a Failed into an Executed. */
  lemma StatusesDependOnBatching()
    ensures var missed := Tick(TwoUpgrades(), 20).proposals;
            1 in missed && missed[1].status == Executed
    ensures var completed := Tick(Tick(TwoUpgrades(), 10), 20).proposals;
            1 in completed && completed[1].status == Failed
  {
    var g := TwoUpgrades();
    MissedTick(g);
    CompletedTick(g);
  }

  lemma MissedTick(g: Gov)
    requires g == TwoUpgrades()
    ensures 1 in Tick(g, 20).proposals && Tick(g, 20).proposals[1].status == Executed
  {
    assert Ready(g.proposals, 20) == {1, 2};
    TickOfList(g, 20, [1, 2]);
    SweepTwo(g, 1, 2);
    FirstUpgradeExecutes(g);
    PromoteTouches(Promote(g, 1), 2);
  }

  lemma FirstUpgradeExecutes(g: Gov)
    requires g == TwoUpgrades()
    ensures 1 in Promote(g, 1).proposals && Promote(g, 1).proposals[1].status == Executed
  {
    assert g.proposals[1] == Upgrade(2, 20) && ValidName("evm");
  }

  lemma CompletedTick(g: Gov)
    requires g == TwoUpgrades()
    ensures var out := Tick(Tick(g, 10), 20).proposals; 1 in out && out[1].status == Failed
  {
    assert Ready(g.proposals, 10) == {2};
    TickOfList(g, 10, [2]);
    SweepOne(g, 2);
    var mid := Gov(map["evm" := 3], map[1 := Upgrade(2, 20), 2 := Upgrade(3, 10).(status := Executed)]);
    assert Tick(g, 10) == mid;
    assert Ready(mid.proposals, 20) == {1};
    TickOfList(mid, 20, [1]);
    SweepOne(mid, 1);
  }

  lemma SweepOne(g: Gov, id: nat)
    ensures Sweep(g, [id]) == Promote(g, id)
  {
    assert [id][..0] == [];
  }

  lemma SweepTwo(g: Gov, id: nat, next: nat)
    ensures Sweep(g, [id, next]) == Promote(Promote(g, id), next)
  {
    SweepOne(g, id);
    assert [id, next][..1] == [id];
  }

  // ----- Batching and crashes -------------------------------------------------------------------

  lemma ListsElems(ids: seq<nat>, s: set<nat>)
    requires Lists(ids, s)
    ensures Distinct(ids) && Elems(ids) == s
  {
    forall x | x in s ensures x in Elems(ids) {
      assert x in ids;
    }
  }

  lemma TickIsJoin(g: Gov, block: nat)
    ensures IsJoin(g.versions, g.proposals, Ready(g.proposals, block), Tick(g, block).versions)
    ensures SameRequests(g.proposals, Tick(g, block).proposals)
    ensures forall id | id in g.proposals ::
              if id in Ready(g.proposals, block) then Tick(g, block).proposals[id].status in {Executed, Failed}
              else Tick(g, block).proposals[id] == g.proposals[id]
  {
    var ids := Ordered(Ready(g.proposals, block));
    ListsElems(ids, Ready(g.proposals, block));
    SweepIsJoin(g, ids);
    forall id | id in Ready(g.proposals, block) ensures Tick(g, block).proposals[id].status in {Executed, Failed} {
      assert id in ids;
      var k :| 0 <= k < |ids| && ids[k] == id;
      SweepStatus(g, ids, k);
    }
  }

  /** Completed ticks at the heights `hs`, in that order. */
  ghost function Ticks(g: Gov, hs: seq<nat>): Gov {
    if hs == [] then g else Tick(Ticks(g, hs[..|hs| - 1]), hs[|hs| - 1])
  }

  /** The highest height ticked, -1 when there was none. */
  function Horizon(hs: seq<nat>): int {
    if hs == [] then -1 else
    var rest := Horizon(hs[..|hs| - 1]);
    if rest < hs[|hs| - 1] then hs[|hs| - 1] else rest
  }

  function ReadyUpTo(ps: Proposals, horizon: int): set<nat> {
    set id | id in ps && ps[id].status == Scheduled && ps[id].activationBlock <= horizon
  }

  /** However the activation heights are batched into ticks, the versions are the join over all of them. */
  lemma {:induction false} TicksAreJoin(g: Gov, hs: seq<nat>)
    ensures IsJoin(g.versions, g.proposals, ReadyUpTo(g.proposals, Horizon(hs)), Ticks(g, hs).versions)
    ensures SameRequests(g.proposals, Ticks(g, hs).proposals)
    ensures forall id | id in g.proposals ::
              if id in ReadyUpTo(g.proposals, Horizon(hs)) then Ticks(g, hs).proposals[id].status in {Executed, Failed}
              else Ticks(g, hs).proposals[id] == g.proposals[id]
  {
    if hs != [] {
      var init, h := hs[..|hs| - 1], hs[|hs| - 1];
      TicksAreJoin(g, init);
      var mid := Ticks(g, init);
      TickIsJoin(mid, h);
      var a, b := ReadyUpTo(g.proposals, Horizon(init)), Ready(mid.proposals, h);
      assert ReadyUpTo(g.proposals, Horizon(hs)) == a + b;
      JoinsCompose(g.versions, g.proposals, a, mid, b, Tick(mid, h).versions);
    }
  }

  lemma JoinsCompose(base: Versions, ps: Proposals, a: set<nat>, mid: Gov, b: set<nat>, out: Versions)
    requires SameRequests(ps, mid.proposals)
    requires IsJoin(base, ps, a, mid.versions) && IsJoin(mid.versions, mid.proposals, b, out)
    ensures IsJoin(base, ps, a + b, out)
  {
    forall name | name in out && !(name in base && base[name] == out[name])
      ensures Asks(ps, a + b, name, out[name])
    {
      if Asks(mid.proposals, b, name, out[name]) {
        var id :| id in b && Counts(mid.proposals, id) && mid.proposals[id].moduleName == name
                  && mid.proposals[id].newVersion == out[name];
        assert SameRequest(ps[id], mid.proposals[id]);
        assert id in a + b && Counts(ps, id);
      } else {
        assert Asks(ps, a, name, out[name]);
        var id :| id in a && Counts(ps, id) && ps[id].moduleName == name && ps[id].newVersion == out[name];
        assert id in a + b;
      }
    }
    forall id | id in a + b && Counts(ps, id)
      ensures ps[id].moduleName in out && ps[id].newVersion <= out[ps[id].moduleName]
    {
      assert SameRequest(ps[id], mid.proposals[id]);
      assert id in b ==> Counts(mid.proposals, id);
    }
  }

  /** Crash convergence: two histories of completed ticks with the same last reach agree on every version. */
  lemma MissedTicksConverge(g: Gov, crashFree: seq<nat>, withCrashes: seq<nat>)
    requires Horizon(crashFree) == Horizon(withCrashes)
    ensures Ticks(g, crashFree).versions == Ticks(g, withCrashes).versions
  {
    TicksAreJoin(g, crashFree);
    TicksAreJoin(g, withCrashes);
    JoinUnique(g.versions, g.proposals, ReadyUpTo(g.proposals, Horizon(crashFree)),
               Ticks(g, crashFree).versions, Ticks(g, withCrashes).versions);
  }
}
