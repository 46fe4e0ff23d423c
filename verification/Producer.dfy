/**
 The block producer as it runs: objects for the database, the shared validator set and the
 retained-roots tracker, and the methods that change them step by step. Any storage call may fail;
 which ones do is given with the database, call by call. Whatever happens, the state left behind is
 `Pipeline.Stop` at the step that failed, and nothing fails without a reason.
*/
module Producer {
  import opened Types
  import opened Blocks
  import opened Governance
  import opened GovernanceRuns
  import opened Rewards
  import opened RewardDistribution
  import opened Pipeline
  import opened PipelineLaws

  class ZbxDb {
    /** Whether the k-th storage call fails. */
    const faults: nat -> bool
    var calls: nat
    var disk: Disk
    var latestHeight: Option<nat>

    /** Opening seeds the cached head from the stored pointer. */
    constructor (d: Disk, faults: nat -> bool)
      ensures disk == d && latestHeight == d.latest && this.faults == faults && calls == 0
    {
      this.faults := faults;
      calls := 0;
      disk := d;
      latestHeight := d.latest;
    }

    /** One of the storage calls `lo .. hi` failed. */
    ghost predicate FaultIn(lo: nat, hi: nat) {
      exists k :: lo <= k < hi && faults(k)
    }

    method Call() returns (ok: bool)
      modifies this`calls
      ensures calls == old(calls) + 1 && ok == !faults(old(calls))
      ensures ok <==> !FaultIn(old(calls), calls)
    {
      ok := !faults(calls);
      calls := calls + 1;
    }

    method GetAccount(a: Address) returns (r: Option<Account>)
      modifies this`calls
      ensures calls == old(calls) + 1 && (r.Some? <==> !FaultIn(old(calls), calls))
      ensures r.Some? ==> r.value == AccountAt(disk.accounts, a)
    {
      var ok := Call();
      r := if ok then Some(AccountAt(disk.accounts, a)) else None;
    }

    method PutAccount(a: Address, account: Account) returns (ok: bool)
      modifies this`disk, this`calls
      ensures calls == old(calls) + 1 && (ok <==> !FaultIn(old(calls), calls))
      ensures disk == if ok then old(disk).(accounts := old(disk).accounts[a := account]) else old(disk)
    {
      ok := Call();
      if ok {
        disk := disk.(accounts := disk.accounts[a := account]);
      }
    }

    method CommitNodes(nodes: set<H256>) returns (ok: bool)
      modifies this`disk, this`calls
      ensures calls == old(calls) + 1 && (ok <==> !FaultIn(old(calls), calls))
      ensures disk == if ok then old(disk).(nodes := old(disk).nodes + nodes) else old(disk)
    {
      ok := Call();
      if ok {
        disk := disk.(nodes := disk.nodes + nodes);
      }
    }

    /** One synced batch: block by hash, hash by number, latest pointer; then the cached head. */
    method PutBlock(b: Block) returns (ok: bool)
      modifies this
      ensures calls == old(calls) + 1 && (ok <==> !FaultIn(old(calls), calls))
      ensures disk == if ok then StoreBlock(old(disk), b) else old(disk)
      ensures latestHeight == if ok then RaiseCache(old(latestHeight), b.header.number) else old(latestHeight)
      ensures ok ==> latestHeight.Some? && b.header.number <= latestHeight.value && latestHeight in {Some(b.header.number), old(latestHeight)}
      ensures old(latestHeight).Some? ==> latestHeight.Some? && old(latestHeight).value <= latestHeight.value
    {
      ok := Call();
      if ok {
        disk := disk.(
          blocks := disk.blocks[Hash(b.header) := b],
          numbers := disk.numbers[b.header.number := Hash(b.header)],
          latest := Some(b.header.number));
        if latestHeight.None? || b.header.number > latestHeight.value {
          latestHeight := Some(b.header.number);
        }
      }
    }

    method ApplyStakingDelta(d: StakingDelta) returns (ok: bool)
      modifies this`disk, this`calls
      ensures calls == old(calls) + 1 && (ok <==> !FaultIn(old(calls), calls))
      ensures disk == if ok then old(disk).(staking := ApplyDelta(old(disk).staking, d)) else old(disk)
    {
      ok := Call();
      if ok {
        disk := disk.(staking := ApplyDelta(disk.staking, d));
      }
    }

    method LoadGovernance() returns (r: Option<Gov>)
      modifies this`calls
      ensures calls == old(calls) + 1 && (r.Some? <==> !FaultIn(old(calls), calls))
      ensures r.Some? ==> r.value == disk.gov
    {
      var ok := Call();
      r := if ok then Some(disk.gov) else None;
    }

    /** Both registries in one synced batch. */
    method StoreGovernance(g: Gov) returns (ok: bool)
      modifies this`disk, this`calls
      ensures calls == old(calls) + 1 && (ok <==> !FaultIn(old(calls), calls))
      ensures disk == if ok then old(disk).(gov := g) else old(disk)
    {
      ok := Call();
      if ok {
        disk := disk.(gov := g);
      }
    }

    method GetBlockByNumber(h: nat) returns (r: Result<Option<Block>, ()>)
      modifies this`calls
      ensures calls == old(calls) + 1 && r.Ok? == !faults(old(calls))
      ensures r.Ok? <==> !FaultIn(old(calls), calls)
      ensures r.Ok? ==> r.value == if h in ChainOf(disk) then Some(ChainOf(disk)[h]) else None
    {
      var ok := Call();
      if !ok {
        return Err(());
      }
      r := Ok(if h in ChainOf(disk) then Some(ChainOf(disk)[h]) else None);
    }
  }

  /** The pruner's list of retained roots. */
  class Tracker {
    var list: seq<Retained>

    constructor ()
      ensures list == []
    {
      list := [];
    }
  }

  ghost function NodeOf(db: ZbxDb, cell: SharedSet?, tracker: Tracker): Node
    reads db, tracker, if cell == null then {} else {cell}
  {
    Node(db.disk, db.latestHeight, if cell == null then None else Some(cell.value), tracker.list)
  }

  /**
   What a state view must hold: a row for every sender, every receiver and the coinbase and for
   nobody else, as stored, or empty where nothing is stored.
  */
  ghost predicate Seeds(view: Accounts, block: Block, table: Accounts) {
    && (forall i | 0 <= i < |block.txs| :: block.txs[i].from in view)
    && (forall i | 0 <= i < |block.txs| && block.txs[i].to.Some? :: block.txs[i].to.value in view)
    && block.header.coinbase in view
    && (forall a | a in view ::
          a == block.header.coinbase
          || exists i :: 0 <= i < |block.txs| && (block.txs[i].from == a || block.txs[i].to == Some(a)))
    && forall a | a in view ::
         if a in table then view[a] == table[a] else view[a].nonce == 0 && view[a].balance == 0 && view[a].rest == []
  }

  /** What the view holds after the first `n` transactions. */
  ghost predicate SeededUpTo(view: Accounts, block: Block, table: Accounts, n: nat) {
    && n <= |block.txs|
    && (forall a | a in view :: a in Touched(block) && view[a] == AccountAt(table, a))
    && forall i | 0 <= i < n :: block.txs[i].from in view && (block.txs[i].to.Some? ==> block.txs[i].to.value in view)
  }

  /** Seeds the state view, each address once. */
  method SeedView(db: ZbxDb, block: Block) returns (r: Option<Accounts>)
    modifies db`calls
    ensures r.Some? ==> Seeds(r.value, block, db.disk.accounts)
    ensures r.Some? ==> r.value == View(block, db.disk.accounts)
    ensures old(db.calls) <= db.calls && (r.Some? <==> !db.FaultIn(old(db.calls), db.calls))
  {
    var view: Accounts := map[];
    for i := 0 to |block.txs|
      invariant old(db.calls) <= db.calls && !db.FaultIn(old(db.calls), db.calls)
      invariant SeededUpTo(view, block, db.disk.accounts, i)
    {
      var seeded := SeedTx(db, view, block, i);
      if seeded.None? {
        return None;
      }
      view := seeded.value;
    }
    ghost var all := view;
    r := SeedOne(db, view, block.header.coinbase);
    if r.Some? {
      SeededIsView(all, r.value, block, db.disk.accounts);
      ViewSeeds(block, db.disk.accounts);
    }
  }

  /** The loop's body: the sender, and the receiver if there is one. */
  method SeedTx(db: ZbxDb, view: Accounts, block: Block, i: nat) returns (r: Option<Accounts>)
    requires i < |block.txs| && SeededUpTo(view, block, db.disk.accounts, i)
    modifies db`calls
    ensures r.Some? ==> SeededUpTo(r.value, block, db.disk.accounts, i + 1)
    ensures old(db.calls) <= db.calls && (r.Some? <==> !db.FaultIn(old(db.calls), db.calls))
  {
    var tx := block.txs[i];
    r := SeedOne(db, view, tx.from);
    if r.Some? && tx.to.Some? {
      r := SeedOne(db, r.value, tx.to.value);
    }
  }

  lemma SeededIsView(all: Accounts, view: Accounts, block: Block, table: Accounts)
    requires SeededUpTo(all, block, table, |block.txs|)
    requires view == all[block.header.coinbase := AccountAt(table, block.header.coinbase)]
    ensures view == View(block, table)
  {
  }

  lemma ViewSeeds(block: Block, table: Accounts)
    ensures Seeds(View(block, table), block, table)
  {
  }

  method SeedOne(db: ZbxDb, view: Accounts, a: Address) returns (r: Option<Accounts>)
    modifies db`calls
    ensures r.Some? ==> r.value == if a in view then view else view[a := AccountAt(db.disk.accounts, a)]
    ensures old(db.calls) <= db.calls && (r.Some? <==> !db.FaultIn(old(db.calls), db.calls))
  {
    if a in view {
      return Some(view);
    }
    var account := db.GetAccount(a);
    if account.None? {
      return None;
    }
    r := Some(view[a := account.value]);
  }

  /** Writes the state diff in no particular order; on failure `done` is what was written. */
  method PutAccounts(db: ZbxDb, changes: Accounts) returns (ok: bool, done: set<Address>)
    modifies db`disk, db`calls
    ensures done <= changes.Keys && (ok ==> done == changes.Keys)
    ensures db.disk == old(db.disk).(accounts := old(db.disk.accounts) + map a | a in done :: changes[a])
    ensures old(db.calls) <= db.calls && (ok <==> !db.FaultIn(old(db.calls), db.calls))
  {
    done := {};
    var left := changes.Keys;
    while left != {}
      invariant left <= changes.Keys && done == changes.Keys - left
      invariant db.disk == old(db.disk).(accounts := old(db.disk.accounts) + map a | a in done :: changes[a])
      invariant old(db.calls) <= db.calls && !db.FaultIn(old(db.calls), db.calls)
      decreases left
    {
      var a :| a in left;
      ok := db.PutAccount(a, changes[a]);
      if !ok {
        return false, done;
      }
      left, done := left - {a}, done + {a};
    }
    ok := true;
  }

  /** The two-phase governance tick; registries are stored only when something changed. */
  method GovernanceHook(db: ZbxDb, active: Option<seq<Address>>, block: nat) returns (r: Result<(), Stage>)
    modifies db`disk, db`calls
    ensures old(db.calls) <= db.calls && (r.Ok? <==> !db.FaultIn(old(db.calls), db.calls))
    ensures r.Err? ==> r.error in {LoadingGovernance, StoringGovernance} && db.disk == old(db.disk)
    ensures r.Ok? ==> db.disk == old(db.disk).(gov :=
              match active
              case None => Tick(old(db.disk.gov), block)
              case Some(s) => EndOfBlock(old(db.disk.gov), (set a | a in s), block))
  {
    var loaded := db.LoadGovernance();
    if loaded.None? {
      return Err(LoadingGovernance);
    }
    var vreg := new VersionRegistry();
    var preg := new ProposalRegistry();
    vreg.modules := loaded.value.versions;
    preg.entries := loaded.value.proposals;
    var finalizeChanged := false;
    if active.Some? {
      finalizeChanged := preg.TryFinalizeAllPending(active.value, block);
    }
    ghost var mid := Gov(vreg.modules, preg.entries);
    var executeChanged := ApplyReadyGovernance(vreg, preg, block);
    if finalizeChanged || executeChanged {
      var ok := db.StoreGovernance(Gov(vreg.modules, preg.entries));
      if !ok {
        return Err(StoringGovernance);
      }
    } else {
      if active.Some? {
        NothingPendingNothingFinalised(loaded.value.proposals, (set a | a in active.value), block);
      }
      assert Ordered({}) == [];
      assert mid == loaded.value;
    }
    r := Ok(());
  }

  /** The height cannot be read, or nothing is stored at it. */
  predicate Unreadable(faults: nat -> bool, d: Disk, height: nat, start: nat, h: nat) {
    WindowStart(height) <= h && (h !in ChainOf(d) || faults(start + (h - WindowStart(height))))
  }

  /** Reads the window block by block, one call a height. */
  method ReadWindow(db: ZbxDb, height: nat) returns (readable: Chain, unread: set<nat>)
    modifies db`calls
    ensures db.calls == old(db.calls) + (height + 1 - WindowStart(height))
    ensures forall h :: h in unread <==>
              WindowStart(height) <= h <= height && Unreadable(db.faults, db.disk, height, old(db.calls), h)
    ensures forall h :: h in readable <==>
              WindowStart(height) <= h <= height && !Unreadable(db.faults, db.disk, height, old(db.calls), h)
    ensures forall h | h in readable :: h in ChainOf(db.disk) && readable[h] == ChainOf(db.disk)[h]
  {
    readable := map[];
    unread := {};
    var h := WindowStart(height);
    ghost var start := db.calls;
    while h <= height
      invariant WindowStart(height) <= h <= height + 1
      invariant db.calls == start + (h - WindowStart(height))
      invariant forall x :: x in unread <==> WindowStart(height) <= x < h && Unreadable(db.faults, db.disk, height, start, x)
      invariant forall x :: x in readable <==> WindowStart(height) <= x < h && !Unreadable(db.faults, db.disk, height, start, x)
      invariant forall x | x in readable :: x in ChainOf(db.disk) && readable[x] == ChainOf(db.disk)[x]
    {
      var b := db.GetBlockByNumber(h);
      if b.Ok? && b.value.Some? {
        readable := readable[h := b.value.value];
      } else {
        unread := unread + {h};
      }
      h := h + 1;
    }
  }

  /** Adds up the fees of the window, skipping exactly what cannot be read or is not there. */
  method ScanWindow(db: ZbxDb, height: nat) returns (fees: u128, unread: set<nat>)
    modifies db`calls
    ensures fees == FeesSeen(db.disk, unread, height)
    ensures db.calls == old(db.calls) + (height + 1 - WindowStart(height))
    ensures forall h :: h in unread <==>
              WindowStart(height) <= h <= height && Unreadable(db.faults, db.disk, height, old(db.calls), h)
    ensures !db.FaultIn(old(db.calls), db.calls) ==> WholeWindow(db.disk, height, Paid(unread))
    ensures forall sums | RunningFees(ChainOf(db.disk) - unread, db.disk.receipts, height, sums) ::
              fees == if sums[|sums| - 1] <= U128_MAX then sums[|sums| - 1] else U128_MAX
  {
    ghost var start := db.calls;
    var readable: Chain;
    readable, unread := ReadWindow(db, height);
    fees := AccumulateFees(readable, db.disk.receipts, height);
    SameTips(readable, ChainOf(db.disk) - unread, db.disk.receipts, WindowStart(height), height + 1);
    if !db.FaultIn(start, db.calls) {
      UnreadIsMissing(db.faults, db.disk, height, start, unread);
    }
    forall sums | RunningFees(ChainOf(db.disk) - unread, db.disk.receipts, height, sums)
      ensures FeesSeen(db.disk, unread, height) == Sat(sums[|sums| - 1])
    {
      FeesAre(ChainOf(db.disk) - unread, db.disk.receipts, height, sums);
    }
  }

  lemma UnreadIsMissing(faults: nat -> bool, d: Disk, height: nat, start: nat, unread: set<nat>)
    requires forall k: nat | start <= k < start + (height + 1 - WindowStart(height)) :: !faults(k)
    requires forall h | h in unread :: WindowStart(height) <= h <= height && Unreadable(faults, d, height, start, h)
    ensures WholeWindow(d, height, Paid(unread))
  {
    forall h | h in unread ensures h !in ChainOf(d) {
      assert !faults(start + (h - WindowStart(height)));
    }
  }

  /** The payout of a boundary at which no storage call failed: everything that is there was read. */
  predicate WholeWindow(d: Disk, height: nat, payout: Payout) {
    payout.Paid? && forall h | h in payout.unread :: WindowStart(height) <= h <= height && h !in ChainOf(d)
  }

  /** The mint raises the escrow balance, at most to 2^128 - 1, and touches nothing else. */
  ghost predicate Minted(before: Accounts, after: Accounts, mint: nat) {
    && (mint == 0 ==> after == before)
    && (forall a | a != STAKING_PRECOMPILE_ADDR :: (a in after <==> a in before) && (a in after ==> after[a] == before[a]))
    && (mint > 0 ==>
          && STAKING_PRECOMPILE_ADDR in after
          && var row := after[STAKING_PRECOMPILE_ADDR];
             if STAKING_PRECOMPILE_ADDR in before
             then row == before[STAKING_PRECOMPILE_ADDR].(balance := Sat(before[STAKING_PRECOMPILE_ADDR].balance + mint))
             else row.balance == mint && row.nonce == 0 && row.rest == [])
  }

  lemma MintRows(n: Node, mint: u128)
    ensures Minted(n.disk.accounts, WithMint(n, mint).disk.accounts, mint)
  {
  }

  /** The mint into escrow; a failed read or write leaves the disk as it was. */
  method MintEscrow(db: ZbxDb, mint: u128) returns (ok: bool)
    modifies db`disk, db`calls
    ensures old(db.calls) <= db.calls && (ok <==> !db.FaultIn(old(db.calls), db.calls))
    ensures db.disk == if ok then WithMint(Node(old(db.disk), None, None, []), mint).disk else old(db.disk)
    ensures ok ==> Minted(old(db.disk.accounts), db.disk.accounts, mint)
  {
    MintRows(Node(db.disk, None, None, []), mint);
    if mint > 0 {
      var escrow := db.GetAccount(STAKING_PRECOMPILE_ADDR);
      if escrow.None? {
        return false;
      }
      ok := db.PutAccount(STAKING_PRECOMPILE_ADDR, escrow.value.(balance := Sat(escrow.value.balance + mint)));
      assert ok ==> db.disk.accounts == WithMint(Node(old(db.disk), None, None, []), mint).disk.accounts;
    } else {
      ok := true;
    }
  }

  /** Mint, then credits; a failed mint leaves both. */
  method PayOut(db: ZbxDb, cell: SharedSet, tracker: Tracker, h: Header, fees: u128) returns (ok: bool)
    modifies db`disk, db`calls, cell
    ensures old(db.calls) <= db.calls && (ok <==> !db.FaultIn(old(db.calls), db.calls))
    ensures NodeOf(db, cell, tracker) == if ok then Pay(old(NodeOf(db, cell, tracker)), h, fees) else old(NodeOf(db, cell, tracker))
    ensures ok ==> Minted(old(db.disk.accounts), db.disk.accounts, EscrowMint(h.number, fees))
    ensures ok ==> PaidOut(old(cell.value), cell.value, h.coinbase, EscrowMint(h.number, fees))
  {
    ok := MintEscrow(db, EscrowMint(h.number, fees));
    if ok {
      DistributeBlockReward(cell, h.number, h.coinbase, fees);
    }
  }

  /** `apply_interval_rewards`: sum, mint into escrow, credit. An I/O error ends it before the credits. */
  method ApplyIntervalRewards(db: ZbxDb, cell: SharedSet, tracker: Tracker, block: Block) returns (payout: Payout)
    requires block.header.number % REWARD_INTERVAL == 0
    modifies db`disk, db`calls, cell
    ensures NodeOf(db, cell, tracker) == WithRewards(old(NodeOf(db, cell, tracker)), block, payout)
    ensures old(db.calls) <= db.calls
    ensures !db.FaultIn(old(db.calls), db.calls) ==> WholeWindow(old(db.disk), block.header.number, payout)
    ensures payout.Paid? ==>
              var mint := EscrowMint(block.header.number, FeesSeen(old(db.disk), payout.unread, block.header.number));
              && Minted(old(db.disk.accounts), db.disk.accounts, mint)
              && PaidOut(old(cell.value), cell.value, block.header.coinbase, mint)
    ensures payout.Skipped? ==> db.disk == old(db.disk) && cell.value == old(cell.value)
  {
    var height := block.header.number;
    var fees, unread := ScanWindow(db, height);
    var ok := PayOut(db, cell, tracker, block.header, fees);
    payout := if ok then Paid(unread) else Skipped;
  }

  /** The staking rows after a delta, row by row: deletes win, a delegation put of zero removes its row. */
  ghost predicate RowsAfter(before: StakingStore, d: StakingDelta, after: StakingStore) {
    && (forall k | k in d.deletes :: k !in after)
    && (forall k | k in d.puts && k !in d.deletes :: if k.Delegation? && d.puts[k] == 0 then k !in after
                                                     else k in after && after[k] == d.puts[k])
    && forall k | k !in d.puts && k !in d.deletes :: (k in after <==> k in before) && (k in after ==> after[k] == before[k])
  }

  lemma DeltaRows(before: StakingStore, d: StakingDelta)
    ensures RowsAfter(before, d, ApplyDelta(before, d))
    ensures IsEmptyDelta(d) ==> RowsAfter(before, d, before)
  {
  }

  /** Accounts, then trie nodes, then the block, then the staking delta: each durable before the next. */
  method Persist(db: ZbxDb, exec: ExecResult, block: Block) returns (r: Result<(), Stage>)
    modifies db
    ensures old(db.calls) <= db.calls && (r.Ok? <==> !db.FaultIn(old(db.calls), db.calls))
    ensures r.Ok? ==> RowsAfter(old(db.disk.staking), exec.delta, db.disk.staking)
    ensures r.Err? ==> db.disk.staking == old(db.disk.staking)
    ensures var d := old(db.disk);
            var withNodes := d.(accounts := d.accounts + exec.accounts, nodes := d.nodes + exec.nodes);
            match r
            case Err(PuttingAccounts(done)) =>
              && done <= exec.accounts.Keys && db.latestHeight == old(db.latestHeight)
              && db.disk == d.(accounts := d.accounts + map a | a in done :: exec.accounts[a])
            case Err(CommittingNodes) =>
              db.disk == d.(accounts := d.accounts + exec.accounts) && db.latestHeight == old(db.latestHeight)
            case Err(PuttingBlock) => db.disk == withNodes && db.latestHeight == old(db.latestHeight)
            case Err(ApplyingDelta) =>
              && db.disk == StoreBlock(withNodes, block)
              && db.latestHeight == RaiseCache(old(db.latestHeight), block.header.number)
            case Ok(_) =>
              && db.latestHeight == RaiseCache(old(db.latestHeight), block.header.number)
              && db.disk == if IsEmptyDelta(exec.delta) then StoreBlock(withNodes, block)
                            else StoreBlock(withNodes, block).(staking := ApplyDelta(d.staking, exec.delta))
            case Err(_) => false
  {
    DeltaRows(db.disk.staking, exec.delta);
    var ok, done := PutAccounts(db, exec.accounts);
    if !ok {
      return Err(PuttingAccounts(done));
    }
    assert (map a | a in done :: exec.accounts[a]) == exec.accounts;
    ok := db.CommitNodes(exec.nodes);
    if !ok {
      return Err(CommittingNodes);
    }
    ok := db.PutBlock(block);
    if !ok {
      return Err(PuttingBlock);
    }
    if exec.delta.puts != map[] || exec.delta.deletes != {} {
      ok := db.ApplyStakingDelta(exec.delta);
      if !ok {
        return Err(ApplyingDelta);
      }
    }
    r := Ok(());
  }

  /** The block is the candidate with the commitments of its execution, each in its own field. */
  predicate CarriesResult(b: Block, candidate: Block, r: ExecResult) {
    var h, c := b.header, candidate.header;
    && h.gasUsed == r.gasUsed
    && h.stateRoot == r.stateRoot
    && h.transactionsRoot == r.transactionsRoot
    && h.receiptsRoot == r.receiptsRoot
    && h.logsBloom == r.logsBloom
    && h.parentHash == c.parentHash && h.coinbase == c.coinbase && h.number == c.number
    && h.gasLimit == c.gasLimit && h.timestamp == c.timestamp && h.baseFee == c.baseFee
    && h.extraData == c.extraData && h.epoch == c.epoch && h.epochSeed == c.epochSeed
    && h.committeeSignature == c.committeeSignature
    && b.txs == candidate.txs
  }

  /** Everything after the reorg check; `n` is the node before execution. */
  method CommitExecuted(db: ZbxDb, cell: SharedSet?, tracker: Tracker, candidate: Block, out: Outcome, ghost n: Node)
    returns (r: Result<Block, Stage>, payout: Payout)
    requires out.result.Some? && NodeOf(db, cell, tracker) == WithExecution(n, out)
    modifies db, tracker, if cell == null then {} else {cell}
    ensures match r
            case Err(st) =>
              && 3 <= Order(st) <= 8 && (st.PuttingAccounts? ==> st.done <= out.result.value.accounts.Keys)
              && NodeOf(db, cell, tracker) == StopAfter(n, out, candidate, st)
            case Ok(b) =>
              && b == Patch(candidate, out.result.value)
              && NodeOf(db, cell, tracker) == WithRetained(Rewarded(n, out, candidate, payout), b)
    ensures old(db.calls) <= db.calls
    ensures !db.FaultIn(old(db.calls), db.calls) ==> r.Ok?
    ensures !db.FaultIn(old(db.calls), db.calls) && PaysAt(n, candidate.header.number) ==>
              WholeWindow(Governed(n, out, candidate).disk, candidate.header.number, payout)
    ensures r.Ok? ==>
              && CarriesResult(r.value, candidate, out.result.value)
              && tracker.list == old(tracker.list) + [Retained(candidate.header.number, out.result.value.stateRoot)]
  {
    payout := Skipped;
    var exec := out.result.value;
    var block := candidate.(header := candidate.header.(
      gasUsed := exec.gasUsed,
      stateRoot := exec.stateRoot,
      transactionsRoot := exec.transactionsRoot,
      receiptsRoot := exec.receiptsRoot,
      logsBloom := exec.logsBloom));
    var persisted := Persist(db, exec, block);
    if persisted.Err? {
      return Err(persisted.error), payout;
    }
    if cell != null {
      cell.value := exec.validators;
    }
    assert NodeOf(db, cell, tracker) == Swapped(n, out, candidate);

    var hook := GovernanceHook(db, if cell == null then None else Some(cell.value.activeSet), block.header.number);
    if hook.Err? {
      return Err(hook.error), payout;
    }
    assert NodeOf(db, cell, tracker) == Governed(n, out, candidate);

    // A failed reward step is suppressed.
    if block.header.number % REWARD_INTERVAL == 0 && cell != null {
      payout := ApplyIntervalRewards(db, cell, tracker, block);
    }
    ghost var rewarded := Rewarded(n, out, candidate, payout);
    assert NodeOf(db, cell, tracker) == rewarded;

    tracker.list := tracker.list + [Retained(block.header.number, block.header.stateRoot)];
    assert NodeOf(db, cell, tracker) == WithRetained(rewarded, block);
    r := Ok(block);
  }

  /** Executes against a clone of the live set; what execution stores by itself is on disk afterwards. */
  method RunExecutor(db: ZbxDb, cell: SharedSet?, tracker: Tracker, ex: Executor, candidate: Block, view: Accounts)
    returns (out: Outcome)
    requires view == View(candidate, db.disk.accounts)
    modifies db`disk
    ensures out == Execute(ex, old(NodeOf(db, cell, tracker)), candidate)
    ensures NodeOf(db, cell, tracker) == WithExecution(old(NodeOf(db, cell, tracker)), out)
  {
    var clone := if cell == null then None else Some(cell.value);
    out := ex(candidate, view, clone, db.disk.gov, db.disk.proposalCounter, db.disk.staking);
    db.disk := db.disk.(
      gov := db.disk.gov.(proposals := out.proposals),
      proposalCounter := out.counter,
      nodes := db.disk.nodes + out.flushed);
  }

  /** What a successful commit has done, each thing in its place. */
  ghost predicate Committed(before: Disk, d: Disk, b: Block, candidate: Block, result: ExecResult) {
    && CarriesResult(b, candidate, result)
    && Hash(b.header) in d.blocks && d.blocks[Hash(b.header)] == b
    && b.header.number in d.numbers && d.numbers[b.header.number] == Hash(b.header)
    && d.latest == Some(b.header.number)
    && RowsAfter(before.staking, result.delta, d.staking)
  }

  /** The reorg check and everything after it. */
  method CommitIfHead(db: ZbxDb, cell: SharedSet?, tracker: Tracker, ex: Executor, candidate: Block, out: Outcome, ghost n: Node)
    returns (r: Result<Block, Stage>, payout: Payout)
    requires out == Execute(ex, n, candidate) && out.result.Some?
    requires NodeOf(db, cell, tracker) == WithExecution(n, out)
    modifies db, tracker, if cell == null then {} else {cell}
    ensures match r
            case Err(st) =>
              && 2 <= Order(st) <= 8 && CanStop(ex, n, candidate, st)
              && NodeOf(db, cell, tracker) == Stop(ex, n, candidate, st)
            case Ok(b) =>
              && CanStop(ex, n, candidate, Finished(payout))
              && NodeOf(db, cell, tracker) == Stop(ex, n, candidate, Finished(payout))
              && b == Patch(candidate, out.result.value)
    ensures old(db.calls) <= db.calls
    ensures !db.FaultIn(old(db.calls), db.calls) ==>
              && (r.Ok? <==> HeadMatches(n, candidate))
              && (r.Ok? && PaysAt(n, candidate.header.number) ==>
                    WholeWindow(Governed(n, out, candidate).disk, candidate.header.number, payout))
    ensures r.Ok? ==>
              && Committed(n.disk, db.disk, r.value, candidate, out.result.value)
              && tracker.list == n.retained + [Retained(candidate.header.number, out.result.value.stateRoot)]
  {
    payout := Skipped;
    var parentNumber := Minus(candidate.header.number, 1);
    var headNow := match db.latestHeight case None => 0 case Some(h) => h;
    if headNow != parentNumber {
      return Err(Rechecking), payout;
    }
    r, payout := CommitExecuted(db, cell, tracker, candidate, out, n);
    if r.Ok? {
      FinishedCommit(ex, n, candidate, payout);
    }
  }

  /**
   `execute_and_commit_inner`. An error names the step that failed and leaves exactly the effects
   before it; success leaves all of them. When no storage call fails, it succeeds unless the block does
   not execute or the head has moved.
  */
  method ExecuteAndCommitInner(db: ZbxDb, cell: SharedSet?, tracker: Tracker, ex: Executor, candidate: Block)
    returns (r: Result<Block, Stage>, payout: Payout)
    modifies db, tracker, if cell == null then {} else {cell}
    ensures match r
            case Err(st) =>
              && IsError(st) && CanStop(ex, old(NodeOf(db, cell, tracker)), candidate, st)
              && NodeOf(db, cell, tracker) == Stop(ex, old(NodeOf(db, cell, tracker)), candidate, st)
            case Ok(b) =>
              && CanStop(ex, old(NodeOf(db, cell, tracker)), candidate, Finished(payout))
              && NodeOf(db, cell, tracker) == Stop(ex, old(NodeOf(db, cell, tracker)), candidate, Finished(payout))
              && b == Patch(candidate, Execute(ex, old(NodeOf(db, cell, tracker)), candidate).result.value)
    ensures old(db.calls) <= db.calls
    ensures var n := old(NodeOf(db, cell, tracker));
            var out := Execute(ex, n, candidate);
            !db.FaultIn(old(db.calls), db.calls) ==>
              && (r.Ok? <==> out.result.Some? && HeadMatches(n, candidate))
              && (r.Ok? && PaysAt(n, candidate.header.number) ==>
                    WholeWindow(Governed(n, out, candidate).disk, candidate.header.number, payout))
    ensures r.Ok? ==>
              var result := Execute(ex, old(NodeOf(db, cell, tracker)), candidate).result.value;
              && Committed(old(db.disk), db.disk, r.value, candidate, result)
              && tracker.list == old(tracker.list) + [Retained(candidate.header.number, result.stateRoot)]
  {
    payout := Skipped;
    ghost var n := NodeOf(db, cell, tracker);
    ghost var start := db.calls;
    var view := SeedView(db, candidate);
    if view.None? {
      return Err(Seeding), payout;
    }
    var out := RunExecutor(db, cell, tracker, ex, candidate, view.value);
    if out.result.None? {
      return Err(Executing), payout;
    }
    r, payout := CommitIfHead(db, cell, tracker, ex, candidate, out, n);
  }

  /** A finished commit has its block on disk and its staking rows applied. */
  lemma FinishedCommit(ex: Executor, n: Node, b: Block, payout: Payout)
    requires CanStop(ex, n, b, Finished(payout))
    ensures var result := Execute(ex, n, b).result.value;
            var d := Stop(ex, n, b, Finished(payout)).disk;
            && BlockOnDisk(d, Patch(b, result)) && RowsAfter(n.disk.staking, result.delta, d.staking)
  {
    LateStop(ex, n, b, Finished(payout));
    DeltaRows(n.disk.staking, Execute(ex, n, b).result.value.delta);
    EmptyDeltaIsIdentity(n.disk.staking, Execute(ex, n, b).result.value.delta);
  }

  lemma {:induction false} SameTips(a: Chain, b: Chain, receipts: Receipts, lo: nat, hi: nat)
    requires forall h | lo <= h < hi :: h in a <==> h in b
    requires forall h | lo <= h < hi && h in a :: a[h] == b[h]
    ensures TipsBetween(a, receipts, lo, hi) == TipsBetween(b, receipts, lo, hi)
    decreases hi
  {
    if lo < hi {
      SameTips(a, b, receipts, lo, hi - 1);
    }
  }
}
