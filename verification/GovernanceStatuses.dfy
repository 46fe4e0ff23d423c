/** When a lost tick changes what becomes of a proposal: Executed or Failed, exactly. */
module GovernanceStatuses {
  import opened Governance
  import opened GovernanceLaws

  /** Neither the registry nor a proposal of `earlier` is above the request of `id`. */
  ghost predicate NotOvertakenBy(g: Gov, id: nat, earlier: set<nat>)
    requires id in g.proposals
  {
    var p := g.proposals[id];
    && Accepts(g.versions, p.moduleName, p.newVersion)
    && forall x | x in earlier && Rivals(g.proposals, x, id) :: g.proposals[x].newVersion <= p.newVersion
  }

  /** Two proposals for the same, valid module. */
  predicate Rivals(ps: Proposals, x: nat, y: nat)
    requires y in ps
  {
    Counts(ps, x) && ps[x].moduleName == ps[y].moduleName
  }

  function Lower(s: set<nat>, id: nat): set<nat> {
    set x | x in s && x < id
  }

  function Outcome(valid: bool, notOvertaken: bool): Status {
    if valid && notOvertaken then Executed else Failed
  }

  // ----- One tick, two ticks -----------------------------------------------------------------------------

  lemma PrefixIsLower(ids: seq<nat>, s: set<nat>, k: nat)
    requires Lists(ids, s) && k < |ids|
    ensures forall x :: x in Lower(s, ids[k]) <==> exists j | 0 <= j < k :: ids[j] == x
  {
    forall x | x in Lower(s, ids[k]) ensures exists j | 0 <= j < k :: ids[j] == x {
      assert x in ids;
      var j :| 0 <= j < |ids| && ids[j] == x;
      assert j < k;
    }
  }

  lemma OvertakenByLower(g: Gov, ids: seq<nat>, s: set<nat>, k: nat)
    requires Lists(ids, s) && k < |ids| && ids[k] in g.proposals
    ensures NotOvertaken(g, ids, k) <==> NotOvertakenBy(g, ids[k], Lower(s, ids[k]))
  {
    PrefixIsLower(ids, s, k);
    if NotOvertaken(g, ids, k) {
      forall x | x in Lower(s, ids[k]) && Rivals(g.proposals, x, ids[k])
        ensures g.proposals[x].newVersion <= g.proposals[ids[k]].newVersion
      {
        var j :| 0 <= j < k && ids[j] == x;
      }
    }
  }

  /** In one tick a due proposal is up against the due proposals of lower id. */
  lemma TickStatus(g: Gov, block: nat, id: nat)
    requires id in Ready(g.proposals, block)
    ensures id in Tick(g, block).proposals
    ensures Tick(g, block).proposals[id].status
         == Outcome(ValidName(g.proposals[id].moduleName), NotOvertakenBy(g, id, Lower(Ready(g.proposals, block), id)))
  {
    var due := Ready(g.proposals, block);
    var ids := Ordered(due);
    ListsElems(ids, due);
    assert id in ids;
    var k :| 0 <= k < |ids| && ids[k] == id;
    SweepStatus(g, ids, k);
    OvertakenByLower(g, ids, due, k);
  }

  /** A join refuses a row exactly when its start or one of its proposals is above it. */
  lemma JoinAccepts(g: Gov, ids: set<nat>, out: Versions, id: nat)
    requires IsJoin(g.versions, g.proposals, ids, out) && id in g.proposals
    ensures Accepts(out, g.proposals[id].moduleName, g.proposals[id].newVersion) <==> NotOvertakenBy(g, id, ids)
  {
    var p := g.proposals[id];
    if NotOvertakenBy(g, id, ids) && p.moduleName in out
       && !(p.moduleName in g.versions && g.versions[p.moduleName] == out[p.moduleName]) {
      assert Asks(g.proposals, ids, p.moduleName, out[p.moduleName]);
    }
    forall x | x in ids && Rivals(g.proposals, x, id) ensures p.moduleName in out && g.proposals[x].newVersion <= out[p.moduleName] {
    }
  }

  /** Due by `later` only. */
  function DueBetween(g: Gov, missed: nat, later: nat): set<nat> {
    Ready(g.proposals, later) - Ready(g.proposals, missed)
  }

  lemma MidTick(g: Gov, missed: nat, later: nat)
    requires missed < later
    ensures Ready(Tick(g, missed).proposals, later) == DueBetween(g, missed, later)
    ensures SameRequests(g.proposals, Tick(g, missed).proposals)
  {
    TickIsJoin(g, missed);
    var mid := Tick(g, missed);
    forall id | id in g.proposals
      ensures id in Ready(mid.proposals, later) <==> id in DueBetween(g, missed, later)
    {
      assert SameRequest(g.proposals[id], mid.proposals[id]);
    }
  }

  /** Whom a proposal is up against when both ticks complete. */
  function AgainstInTwo(g: Gov, missed: nat, later: nat, id: nat): set<nat> {
    var early := Ready(g.proposals, missed);
    if id in early then Lower(early, id) else early + Lower(DueBetween(g, missed, later), id)
  }

  lemma SecondTickStatus(g: Gov, missed: nat, later: nat, id: nat)
    requires missed < later && id in DueBetween(g, missed, later)
    ensures var two := Tick(Tick(g, missed), later).proposals;
            id in two && two[id].status
              == Outcome(ValidName(g.proposals[id].moduleName), NotOvertakenBy(g, id, AgainstInTwo(g, missed, later, id)))
  {
    var mid := Tick(g, missed);
    MidTick(g, missed, later);
    TickStatus(mid, later, id);
    TickIsJoin(g, missed);
    JoinAccepts(g, Ready(g.proposals, missed), mid.versions, id);
    assert SameRequest(g.proposals[id], mid.proposals[id]);
    SameRivals(g, mid, id, Lower(DueBetween(g, missed, later), id));
  }

  lemma SameRivals(g: Gov, mid: Gov, id: nat, earlier: set<nat>)
    requires SameRequests(g.proposals, mid.proposals) && id in g.proposals
    ensures (forall x | x in earlier && Rivals(mid.proposals, x, id) :: mid.proposals[x].newVersion <= mid.proposals[id].newVersion)
       <==> (forall x | x in earlier && Rivals(g.proposals, x, id) :: g.proposals[x].newVersion <= g.proposals[id].newVersion)
  {
    forall x | x in earlier
      ensures Rivals(mid.proposals, x, id) <==> Rivals(g.proposals, x, id)
      ensures x in g.proposals ==> SameRequest(g.proposals[x], mid.proposals[x])
    {
      assert x in g.proposals <==> x in mid.proposals;
      assert x in g.proposals ==> SameRequest(g.proposals[x], mid.proposals[x]);
      assert SameRequest(g.proposals[id], mid.proposals[id]);
    }
    assert SameRequest(g.proposals[id], mid.proposals[id]);
  }

  lemma TwoTickStatus(g: Gov, missed: nat, later: nat, id: nat)
    requires missed < later && id in Ready(g.proposals, later)
    ensures var two := Tick(Tick(g, missed), later).proposals;
            id in two && two[id].status
              == Outcome(ValidName(g.proposals[id].moduleName), NotOvertakenBy(g, id, AgainstInTwo(g, missed, later, id)))
  {
    if id in Ready(g.proposals, missed) {
      var mid := Tick(g, missed);
      MidTick(g, missed, later);
      TickStatus(g, missed, id);
      TickIsJoin(mid, later);
      assert id !in Ready(mid.proposals, later);
    } else {
      SecondTickStatus(g, missed, later, id);
    }
  }

  // ----- Inversions --------------------------------------------------------------------------------------

  /**
   `p`, due by the missed height, and `q`, due only by the later one, want the same module, and the
   lost tick turns their order around: both are seen in one sweep, where the lower id `q` goes first.
   It decides something when the one that now goes second is below the other and nothing else
   overtakes it.
  */
  ghost predicate DecidingInversion(g: Gov, missed: nat, later: nat, p: nat, q: nat) {
    && p in Ready(g.proposals, missed) && q in DueBetween(g, missed, later) && q < p
    && Counts(g.proposals, q) && Rivals(g.proposals, p, q)
    && var vp, vq := g.proposals[p].newVersion, g.proposals[q].newVersion;
       || (vp < vq && NotOvertakenBy(g, p, Lower(Ready(g.proposals, missed), p)))
       || (vq < vp && NotOvertakenBy(g, q, Lower(Ready(g.proposals, later), q)))
  }

  /** The fate of an early proposal changes exactly through a later one of lower id that is above it. */
  lemma EarlyFate(g: Gov, missed: nat, later: nat, p: nat)
    requires missed < later && p in Ready(g.proposals, missed) && Counts(g.proposals, p)
    ensures NotOvertakenBy(g, p, AgainstInTwo(g, missed, later, p)) != NotOvertakenBy(g, p, Lower(Ready(g.proposals, later), p))
       <==> exists q :: DecidingInversion(g, missed, later, p, q) && g.proposals[p].newVersion < g.proposals[q].newVersion
  {
    var early, all := Lower(Ready(g.proposals, missed), p), Lower(Ready(g.proposals, later), p);
    assert forall x | x in early :: x in all;
    if NotOvertakenBy(g, p, early) && !NotOvertakenBy(g, p, all) {
      var q :| q in all && Rivals(g.proposals, q, p) && g.proposals[q].newVersion > g.proposals[p].newVersion;
      assert q !in early;
      assert DecidingInversion(g, missed, later, p, q);
    }
    if q :| DecidingInversion(g, missed, later, p, q) && g.proposals[p].newVersion < g.proposals[q].newVersion {
      assert q in all && Rivals(g.proposals, q, p);
    }
  }

  /** The fate of a late proposal changes exactly through an early one of higher id that is above it. */
  lemma LateFate(g: Gov, missed: nat, later: nat, q: nat)
    requires missed < later && q in DueBetween(g, missed, later) && Counts(g.proposals, q)
    ensures NotOvertakenBy(g, q, AgainstInTwo(g, missed, later, q)) != NotOvertakenBy(g, q, Lower(Ready(g.proposals, later), q))
       <==> exists p :: DecidingInversion(g, missed, later, p, q) && g.proposals[q].newVersion < g.proposals[p].newVersion
  {
    var two, one := AgainstInTwo(g, missed, later, q), Lower(Ready(g.proposals, later), q);
    assert forall x | x in one :: x in two;
    if NotOvertakenBy(g, q, one) && !NotOvertakenBy(g, q, two) {
      var p :| p in two && Rivals(g.proposals, p, q) && g.proposals[p].newVersion > g.proposals[q].newVersion;
      assert p !in one;
      assert DecidingInversion(g, missed, later, p, q);
    }
    if p :| DecidingInversion(g, missed, later, p, q) && g.proposals[q].newVersion < g.proposals[p].newVersion {
      assert p in two && Rivals(g.proposals, p, q);
    }
  }

  lemma SameStatusIff(g: Gov, missed: nat, later: nat, id: nat)
    requires missed < later && id in Ready(g.proposals, later)
    ensures var one, two := Tick(g, later).proposals, Tick(Tick(g, missed), later).proposals;
            && id in one && id in two
            && (one[id].status == two[id].status <==>
                  !(exists x :: DecidingInversion(g, missed, later, id, x) && g.proposals[id].newVersion < g.proposals[x].newVersion)
                  && !(exists x :: DecidingInversion(g, missed, later, x, id) && g.proposals[id].newVersion < g.proposals[x].newVersion))
  {
    TickStatus(g, later, id);
    TwoTickStatus(g, missed, later, id);
    if Counts(g.proposals, id) {
      if id in Ready(g.proposals, missed) {
        EarlyFate(g, missed, later, id);
      } else {
        LateFate(g, missed, later, id);
      }
    }
  }

  /**
   Losing the tick at `missed` leaves every proposal as it would have been, once the tick at `later`
   completes, if and only if no inversion decides an outcome. Whether one does can be read off the
   registries before either tick.
  */
  lemma StatusesConvergeIff(g: Gov, missed: nat, later: nat)
    requires missed < later
    ensures Tick(Tick(g, missed), later) == Tick(g, later)
       <==> forall p, q :: !DecidingInversion(g, missed, later, p, q)
  {
    var one, two := Tick(g, later), Tick(Tick(g, missed), later);
    SameVersions(g, missed, later);
    if p: nat, q: nat :| DecidingInversion(g, missed, later, p, q) {
      SameStatusIff(g, missed, later, if g.proposals[p].newVersion < g.proposals[q].newVersion then p else q);
    } else {
      forall id | id in g.proposals ensures one.proposals[id] == two.proposals[id] {
        if id in Ready(g.proposals, later) {
          SameStatusIff(g, missed, later, id);
        } else {
          NotDueStays(g, missed, later, id);
        }
        assert SameRequest(g.proposals[id], one.proposals[id]) && SameRequest(g.proposals[id], two.proposals[id]);
      }
    }
  }

  lemma NotDueStays(g: Gov, missed: nat, later: nat, id: nat)
    requires missed < later && id in g.proposals && id !in Ready(g.proposals, later)
    ensures id in Tick(g, later).proposals && id in Tick(Tick(g, missed), later).proposals
    ensures Tick(g, later).proposals[id] == Tick(Tick(g, missed), later).proposals[id] == g.proposals[id]
  {
    TickIsJoin(g, later);
    TickIsJoin(g, missed);
    MidTick(g, missed, later);
    TickIsJoin(Tick(g, missed), later);
  }

  lemma SameVersions(g: Gov, missed: nat, later: nat)
    requires missed < later
    ensures Tick(Tick(g, missed), later).versions == Tick(g, later).versions
    ensures SameRequests(g.proposals, Tick(Tick(g, missed), later).proposals)
    ensures SameRequests(g.proposals, Tick(g, later).proposals)
  {
    TickIsJoin(g, later);
    TickIsJoin(g, missed);
    var mid := Tick(g, missed);
    MidTick(g, missed, later);
    TickIsJoin(mid, later);
    JoinsCompose(g.versions, g.proposals, Ready(g.proposals, missed), mid, DueBetween(g, missed, later), Tick(mid, later).versions);
    assert Ready(g.proposals, missed) + DueBetween(g, missed, later) == Ready(g.proposals, later);
    JoinUnique(g.versions, g.proposals, Ready(g.proposals, later), Tick(mid, later).versions, Tick(g, later).versions);
    SameRequestsTransitive(g.proposals, mid.proposals, Tick(mid, later).proposals);
  }

  /** Two upgrades of one module, the later one due first: a decided inversion. */
  lemma InversionExists()
    ensures exists p, q :: DecidingInversion(TwoUpgrades(), 10, 20, p, q)
  {
    var g := TwoUpgrades();
    assert g.proposals[1] == Upgrade(2, 20) && g.proposals[2] == Upgrade(3, 10) && ValidName("evm");
    assert Ready(g.proposals, 10) == {2} && DueBetween(g, 10, 20) == {1};
    assert Lower(Ready(g.proposals, 20), 1) == {};
    assert DecidingInversion(g, 10, 20, 2, 1);
  }
}
