/**
 The stored chain over every run in which blocks come from `BuildCandidate`: candidates may be
 built, wait, and be committed as far as any stage, the node may restart, and the clock may stand
 anywhere.
*/
module ChainLaws {
  import opened Types
  import opened Blocks
  import opened RewardDistribution
  import opened Pipeline
  import opened PipelineLaws
  import opened Sequential
  import opened Candidates

  /** A child's clock is past its parent's, unless the parent's was the last 64-bit second. */
  predicate After64(parent: nat, child: nat) {
    parent < U64_MAX ==> parent < child
  }

  predicate Follows(child: Block, parent: Block) {
    && child.header.number == parent.header.number + 1
    && child.header.parentHash == Hash(parent.header)
    && After64(parent.header.timestamp, child.header.timestamp)
  }

  predicate Linked(chain: seq<Block>) {
    forall h | 0 < h < |chain| :: Follows(chain[h], chain[h - 1])
  }

  // ----- Steps -----------------------------------------------------------------------------------------

  datatype System = System(node: Node, candidates: set<Block>)

  datatype Act =
    | Build(selected: seq<Tx>, now: Clock, block: Block)
    | Commit(block: Block, stage: Stage)
    | Reopen(live: Option<ValidatorSet>, retained: seq<Retained>)

  ghost predicate Enabled(ex: Executor, cfg: Config, fee: FeeRule, s: System, a: Act) {
    match a
    case Build(selected, now, b) => IsCandidate(cfg, fee, s.node, selected, now, b)
    case Commit(b, st) => b in s.candidates && CanStop(ex, s.node, b, st)
    case Reopen(_, _) => true
  }

  ghost function Perform(ex: Executor, cfg: Config, fee: FeeRule, s: System, a: Act): System
    requires Enabled(ex, cfg, fee, s, a)
  {
    match a
    case Build(_, _, b) => s.(candidates := s.candidates + {b})
    case Commit(b, st) => s.(node := Stop(ex, s.node, b, st))
    case Reopen(live, retained) => s.(node := Node(s.node.disk, s.node.disk.latest, live, retained))
  }

  ghost predicate Reaches(ex: Executor, cfg: Config, fee: FeeRule, s: System, acts: seq<Act>, t: System)
    decreases |acts|
  {
    if acts == [] then s == t else
    Enabled(ex, cfg, fee, s, acts[0]) && Reaches(ex, cfg, fee, Perform(ex, cfg, fee, s, acts[0]), acts[1..], t)
  }

  // ----- The invariant ------------------------------------------------------------------------------------

  /** A candidate follows the stored block below it, however old the candidate is. */
  predicate Rooted(chain: seq<Block>, b: Block) {
    0 < b.header.number <= |chain| && Follows(b, chain[b.header.number - 1])
  }

  ghost predicate ChainOk(s: System, chain: seq<Block>) {
    && HoldsChain(s.node, chain) && Linked(chain)
    && forall b | b in s.candidates :: Rooted(chain, b)
  }

  lemma BuiltIsRooted(cfg: Config, fee: FeeRule, n: Node, chain: seq<Block>, selected: seq<Tx>, now: Clock, b: Block)
    requires HoldsChain(n, chain) && IsCandidate(cfg, fee, n, selected, now, b)
    ensures b.header.number == |chain| && Rooted(chain, b)
  {
    var head := |chain| - 1;
    assert HoldsBlock(n.disk, head, chain[head]);
    assert ChainOf(n.disk)[head] == chain[head];
  }

  /** Stops before the block write leave the chain as it was. */
  lemma EarlyStopHolds(ex: Executor, n: Node, chain: seq<Block>, b: Block, st: Stage)
    requires HoldsChain(n, chain) && CanStop(ex, n, b, st) && Order(st) <= 5
    ensures HoldsChain(Stop(ex, n, b, st), chain)
  {
    SameIndexHolds(n, Stop(ex, n, b, st), chain);
  }

  lemma StoredHolds(n: Node, chain: seq<Block>, out: Outcome, b: Block)
    requires HoldsChain(n, chain) && out.result.Some? && b.header.number == |chain|
    ensures HoldsChain(Stored(n, out, b), chain + [Patch(b, out.result.value)])
    ensures HoldsChain(Swapped(n, out, b), chain + [Patch(b, out.result.value)])
  {
    var r := out.result.value;
    var before := WithNodes(WithAccounts(WithExecution(n, out), r.accounts), r.nodes);
    SameIndexHolds(n, before, chain);
    StoringExtends(before, chain, Patch(b, r));
    SameIndexHolds(Stored(n, out, b), Swapped(n, out, b), chain + [Patch(b, r)]);
  }

  /** Stops from the block write on have the block on top of the chain. */
  lemma LateStopHolds(ex: Executor, n: Node, chain: seq<Block>, b: Block, st: Stage)
    requires HoldsChain(n, chain) && CanStop(ex, n, b, st) && Order(st) >= 6 && b.header.number == |chain|
    ensures HoldsChain(Stop(ex, n, b, st), chain + [Patch(b, Execute(ex, n, b).result.value)])
  {
    var out := Execute(ex, n, b);
    StoredHolds(n, chain, out, b);
    if Order(st) >= 7 {
      LateStop(ex, n, b, st);
      SameIndexHolds(Swapped(n, out, b), Stop(ex, n, b, st), chain + [Patch(b, out.result.value)]);
    }
  }

  /** Patching a candidate changes nothing it is linked by. */
  lemma LinkedExtends(chain: seq<Block>, b: Block, r: ExecResult)
    requires Linked(chain) && chain != [] && b.header.number == |chain| && Rooted(chain, b)
    ensures Linked(chain + [Patch(b, r)])
  {
  }

  /** A commit of a candidate for the next height, stopped anywhere, leaves the chain or adds the candidate's block. */
  lemma StopKeepsChain(ex: Executor, n: Node, chain: seq<Block>, b: Block, st: Stage) returns (longer: seq<Block>)
    requires HoldsChain(n, chain) && Linked(chain) && CanStop(ex, n, b, st)
    requires Order(st) >= 6 ==> b.header.number == |chain| && Rooted(chain, b)
    ensures chain <= longer && |longer| <= |chain| + 1
    ensures HoldsChain(Stop(ex, n, b, st), longer) && Linked(longer)
  {
    if Order(st) <= 5 {
      EarlyStopHolds(ex, n, chain, b, st);
      longer := chain;
    } else {
      LateStopHolds(ex, n, chain, b, st);
      LinkedExtends(chain, b, Execute(ex, n, b).result.value);
      longer := chain + [Patch(b, Execute(ex, n, b).result.value)];
    }
  }

  lemma ActKeepsChain(ex: Executor, cfg: Config, fee: FeeRule, s: System, a: Act, chain: seq<Block>)
    returns (longer: seq<Block>)
    requires ChainOk(s, chain) && Enabled(ex, cfg, fee, s, a)
    ensures chain <= longer && ChainOk(Perform(ex, cfg, fee, s, a), longer)
  {
    longer := chain;
    match a
    case Build(selected, now, b) => BuiltIsRooted(cfg, fee, s.node, chain, selected, now, b);
    case Commit(b, st) =>
      assert Rooted(chain, b);
      longer := StopKeepsChain(ex, s.node, chain, b, st);
    case Reopen(live, retained) => SameIndexHolds(s.node, Perform(ex, cfg, fee, s, a).node, chain);
  }

  /**
   Over every run the chain only grows, heights stay contiguous, each block names the hash of the
   stored, patched block below it, and timestamps increase, whatever the clock does.
  */
  lemma {:induction false} ChainOnlyGrows(ex: Executor, cfg: Config, fee: FeeRule, s: System, acts: seq<Act>, t: System,
                                          chain: seq<Block>)
    returns (longer: seq<Block>)
    requires ChainOk(s, chain) && Reaches(ex, cfg, fee, s, acts, t)
    ensures chain <= longer && ChainOk(t, longer)
    decreases |acts|
  {
    longer := chain;
    if acts != [] {
      var mid := ActKeepsChain(ex, cfg, fee, s, acts[0], chain);
      longer := ChainOnlyGrows(ex, cfg, fee, Perform(ex, cfg, fee, s, acts[0]), acts[1..], t, mid);
    }
  }

  /** However long a candidate waited, it is persisted only as a child of the block that is the head now. */
  lemma OnlyChildrenOfTheHeadCommit(ex: Executor, s: System, chain: seq<Block>, b: Block, st: Stage)
    requires ChainOk(s, chain) && b in s.candidates && CanStop(ex, s.node, b, st) && Order(st) >= 3
    ensures Follows(b, chain[|chain| - 1])
  {
    assert Rooted(chain, b);
  }

  /** One `produce_one`, as its method leaves the node, keeps the chain. */
  lemma ProduceOneKeepsChain(ex: Executor, cfg: Config, fee: FeeRule, selected: seq<Tx>, now: Clock,
                             n: Node, m: Node, chain: seq<Block>)
    returns (longer: seq<Block>)
    requires HoldsChain(n, chain) && Linked(chain) && Produces(ex, cfg, fee, selected, now, n, m)
    ensures chain <= longer && |longer| <= |chain| + 1 && HoldsChain(m, longer) && Linked(longer)
  {
    longer := chain;
    if m != n {
      var b, st :| IsCandidate(cfg, fee, n, selected, now, b) && CanStop(ex, n, b, st) && m == Stop(ex, n, b, st);
      BuiltIsRooted(cfg, fee, n, chain, selected, now, b);
      longer := StopKeepsChain(ex, n, chain, b, st);
    }
  }

  // ----- Unread heads ---------------------------------------------------------------------------------------

  /**
   The head is read once to build and once to commit. If each read gives the head or nothing, what
   is committed is a child of the head unless both gave nothing on a chain longer than genesis.
  */
  lemma OneFaultyReadIsHarmless(ex: Executor, cfg: Config, fee: FeeRule, n: Node, chain: seq<Block>,
                                first: Option<nat>, second: Option<nat>,
                                selected: seq<Tx>, now: Clock, b: Block, st: Stage)
    requires HoldsChain(n, chain) && first in {None, n.cache} && second in {None, n.cache}
    requires IsCandidate(cfg, fee, n.(cache := first), selected, now, b)
    requires CanStop(ex, n.(cache := second), b, st) && Order(st) >= 3
    ensures Follows(b, chain[|chain| - 1]) <==> !(first == None && second == None && |chain| > 1)
  {
    var head := HeadOr0(first);
    assert HoldsBlock(n.disk, head, chain[head]) && HoldsBlock(n.disk, |chain| - 1, chain[|chain| - 1]);
    assert b.header.number == head + 1;
  }

  /**
   Both reads come from one cached value that opening the database fills from the tip pointer. If
   that one read fails on a chain longer than the genesis block, the next stored block is block 1
   and the tip is moved back to it.
  */
  lemma UnreadPointerRewinds(ex: Executor, cfg: Config, fee: FeeRule, n: Node, chain: seq<Block>, boot: Event,
                             selected: seq<Tx>, now: Clock, b: Block, st: Stage)
    requires HoldsChain(n, chain) && boot.Boot?
    requires IsCandidate(cfg, fee, After(ex, n, boot), selected, now, b)
    requires CanStop(ex, After(ex, n, boot), b, st) && Order(st) >= 6
    ensures var tip := Stop(ex, After(ex, n, boot), b, st).disk.latest;
            && (tip == Some(|chain|) <==> boot.pointerRead || |chain| == 1)
            && (!boot.pointerRead ==> tip == Some(1))
  {
    var m := After(ex, n, boot);
    var head := HeadOr0(m.cache);
    assert HoldsBlock(n.disk, head, chain[head]);
    assert b.header.number == head + 1;
    TipAfterStore(ex, m, b, st);
  }
}
