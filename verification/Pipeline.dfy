/**
 The block commit as a list of durable and in-memory effects, and the state it leaves when it
 stops anywhere: by an error return, by a crash, or at the end.
*/
module Pipeline {
  import opened Types
  import opened Blocks
  import opened Governance
  import opened Rewards
  import opened RewardDistribution

  // ----- State ---------------------------------------------------------------------------------------

  datatype StakingKey =
    | Delegation(validator: Address, delegator: Address)
    | Unbonding(unlock: nat, delegator: Address, validator: Address)

  type StakingStore = map<StakingKey, nat>

  datatype StakingDelta = StakingDelta(puts: StakingStore, deletes: set<StakingKey>)

  /** What survives a restart. */
  datatype Disk = Disk(
    blocks: map<H256, Block>,
    numbers: map<nat, H256>,
    latest: Option<nat>,
    accounts: Accounts,
    nodes: set<H256>,
    staking: StakingStore,
    gov: Gov,
    proposalCounter: nat,
    receipts: Receipts,
    chainId: Option<seq<byte>>)

  datatype Retained = Retained(block: nat, stateRoot: H256)

  /** A node: its disk, the cached head, the live validator set when staking is wired, the retained roots. */
  datatype Node = Node(disk: Disk, cache: Option<nat>, live: Option<ValidatorSet>, retained: seq<Retained>)

  // ----- The executor, abstract ------------------------------------------------------------------------

  datatype ExecResult = ExecResult(
    gasUsed: nat,
    stateRoot: H256,
    transactionsRoot: H256,
    receiptsRoot: H256,
    logsBloom: seq<byte>,
    accounts: Accounts,
    delta: StakingDelta,
    validators: ValidatorSet,
    nodes: set<H256>)

  /**
   Governance transactions store the proposal registry and the proposal counter while they execute,
   and a full node buffer is flushed while the root is computed, so all of it happens even when no
   result comes out. `executed` has the active validators that each transaction that ran saw.
  */
  datatype Outcome = Outcome(
    proposals: Proposals,
    counter: nat,
    executed: seq<set<Address>>,
    flushed: set<H256>,
    result: Option<ExecResult>)

  /** A deterministic function of the block, the seeded accounts, the cloned set the stored registries, counter and staking rows. */
  type Executor = (Block, Accounts, Option<ValidatorSet>, Gov, nat, StakingStore) -> Outcome

  function Touched(b: Block): set<Address> {
    (set i | 0 <= i < |b.txs| :: b.txs[i].from)
    + (set i | 0 <= i < |b.txs| && b.txs[i].to.Some? :: b.txs[i].to.value)
    + {b.header.coinbase}
  }

  function AccountAt(accounts: Accounts, a: Address): Account {
    if a in accounts then accounts[a] else Account(0, 0, [])
  }

  /** The state view is seeded with the accounts the block refers to, and nothing else. */
  function View(b: Block, accounts: Accounts): Accounts {
    map a | a in Touched(b) :: AccountAt(accounts, a)
  }

  function Execute(ex: Executor, n: Node, b: Block): Outcome {
    ex(b, View(b, n.disk.accounts), n.live, n.disk.gov, n.disk.proposalCounter, n.disk.staking)
  }

  // ----- Single effects --------------------------------------------------------------------------------

  function HeadOr0(cache: Option<nat>): nat {
    match cache case None => 0 case Some(h) => h
  }

  /** The reorg check compares heights only, and the parent of height 0 is height 0. */
  predicate HeadMatches(n: Node, b: Block) {
    HeadOr0(n.cache) == Minus(b.header.number, 1)
  }

  function Patch(b: Block, r: ExecResult): Block {
    b.(header := b.header.(
         gasUsed := r.gasUsed,
         stateRoot := r.stateRoot,
         transactionsRoot := r.transactionsRoot,
         receiptsRoot := r.receiptsRoot,
         logsBloom := r.logsBloom))
  }

  function WithExecution(n: Node, out: Outcome): Node {
    n.(disk := n.disk.(gov := n.disk.gov.(proposals := out.proposals),
                       proposalCounter := out.counter,
                       nodes := n.disk.nodes + out.flushed))
  }

  function WithAccounts(n: Node, changes: Accounts): Node {
    n.(disk := n.disk.(accounts := n.disk.accounts + changes))
  }

  function WithNodes(n: Node, nodes: set<H256>): Node {
    n.(disk := n.disk.(nodes := n.disk.nodes + nodes))
  }

  function StoreBlock(d: Disk, b: Block): Disk {
    d.(blocks := d.blocks[Hash(b.header) := b],
       numbers := d.numbers[b.header.number := Hash(b.header)],
       latest := Some(b.header.number))
  }

  /** The cached head only moves up. */
  function RaiseCache(cache: Option<nat>, number: nat): Option<nat> {
    if cache.None? || cache.value < number then Some(number) else cache
  }

  function WithBlock(n: Node, b: Block): Node {
    n.(disk := StoreBlock(n.disk, b), cache := RaiseCache(n.cache, b.header.number))
  }

  predicate IsEmptyDelta(d: StakingDelta) {
    d.puts == map[] && d.deletes == {}
  }

  /** A delegation put of zero deletes the row; deletes come last in the batch. */
  function ApplyDelta(s: StakingStore, d: StakingDelta): StakingStore {
    map k | k in s.Keys + d.puts.Keys && k !in d.deletes && !(k in d.puts && k.Delegation? && d.puts[k] == 0) ::
      if k in d.puts then d.puts[k] else s[k]
  }

  function WithStaking(n: Node, delta: StakingDelta): Node {
    if IsEmptyDelta(delta) then n else n.(disk := n.disk.(staking := ApplyDelta(n.disk.staking, delta)))
  }

  function WithSwap(n: Node, vs: ValidatorSet): Node {
    if n.live.None? then n else n.(live := Some(vs))
  }

  function ActiveOf(vs: ValidatorSet): set<Address> {
    set a | a in vs.activeSet
  }

  ghost function WithGovernance(n: Node, block: nat): Node {
    n.(disk := n.disk.(gov :=
         match n.live
         case None => Tick(n.disk.gov, block)
         case Some(vs) => EndOfBlock(n.disk.gov, ActiveOf(vs), block)))
  }

  const STAKING_PRECOMPILE_ADDR: Address :=
    [0, 0, 0, 0, 0, 0, 0, 0, 0, 0, 0, 0, 0, 0, 0, 0, 0, 0, 0x08, 0x88]

  /** How the interval reward step ended; `unread` are the heights whose block could not be read. */
  datatype Payout = Skipped | Paid(unread: set<nat>)

  function ChainOf(d: Disk): Chain {
    map h | h in d.numbers && d.numbers[h] in d.blocks :: d.blocks[d.numbers[h]]
  }

  function FeesSeen(d: Disk, unread: set<nat>, height: nat): u128 {
    Sat(WindowTips(ChainOf(d) - unread, d.receipts, height))
  }

  function WithMint(n: Node, mint: u128): Node {
    if mint == 0 then n else
    var escrow := AccountAt(n.disk.accounts, STAKING_PRECOMPILE_ADDR);
    WithAccounts(n, map[STAKING_PRECOMPILE_ADDR := escrow.(balance := Sat(escrow.balance + mint))])
  }

  predicate PaysAt(n: Node, block: nat) {
    block % REWARD_INTERVAL == 0 && n.live.Some?
  }

  /** Escrow mint and validator credits for an interval ending at `h` whose fees summed to `fees`. */
  function Pay(n: Node, h: Header, fees: u128): Node
    requires n.live.Some?
  {
    WithMint(n, EscrowMint(h.number, fees)).(live := Some(Distribute(n.live.value, h.number, h.coinbase, fees)))
  }

  function WithRewards(n: Node, b: Block, payout: Payout): Node {
    if !PaysAt(n, b.header.number) || payout.Skipped? then n
    else Pay(n, b.header, FeesSeen(n.disk, payout.unread, b.header.number))
  }

  function WithRetained(n: Node, b: Block): Node {
    n.(retained := n.retained + [Retained(b.header.number, b.header.stateRoot)])
  }

  // ----- Where a commit can stop -----------------------------------------------------------------------

  /**
   The step a commit was at when it stopped. Error returns name the failed step; a crash can also
   stop at `Minting`, between the mint and the credits, and at `Retaining`, before the last step.
  */
  datatype Stage =
    | Seeding
    | Executing
    | Rechecking
    | PuttingAccounts(done: set<Address>)
    | CommittingNodes
    | PuttingBlock
    | ApplyingDelta
    | LoadingGovernance
    | StoringGovernance
    | Rewarding
    | Minting(unread: set<nat>)
    | Retaining(payout: Payout)
    | Finished(payout: Payout)

  function Order(st: Stage): nat {
    match st
    case Seeding => 0 case Executing => 1 case Rechecking => 2 case PuttingAccounts(_) => 3
    case CommittingNodes => 4 case PuttingBlock => 5 case ApplyingDelta => 6 case LoadingGovernance => 7
    case StoringGovernance => 8 case Rewarding => 9 case Minting(_) => 10 case Retaining(_) => 11 case Finished(_) => 12
  }

  /** Stopping here returned an error to the caller. */
  predicate IsError(st: Stage) {
    Order(st) <= 8
  }

  /** `st` is a place where committing `b` on `n` can stop. */
  predicate CanStop(ex: Executor, n: Node, b: Block, st: Stage) {
    Order(st) >= 2 ==>
      var result := Execute(ex, n, b).result;
      && result.Some?
      && (Order(st) >= 3 ==> HeadMatches(n, b))
      && (st.PuttingAccounts? ==> st.done <= result.value.accounts.Keys)
  }

  /** Accounts, trie nodes and block are on disk. */
  function Stored(n: Node, out: Outcome, b: Block): Node
    requires out.result.Some?
  {
    var r := out.result.value;
    WithBlock(WithNodes(WithAccounts(WithExecution(n, out), r.accounts), r.nodes), Patch(b, r))
  }

  function Swapped(n: Node, out: Outcome, b: Block): Node
    requires out.result.Some?
  {
    WithSwap(WithStaking(Stored(n, out, b), out.result.value.delta), out.result.value.validators)
  }

  ghost function Governed(n: Node, out: Outcome, b: Block): Node
    requires out.result.Some?
  {
    WithGovernance(Swapped(n, out, b), b.header.number)
  }

  ghost function Rewarded(n: Node, out: Outcome, b: Block, payout: Payout): Node
    requires out.result.Some?
  {
    WithRewards(Governed(n, out, b), Patch(b, out.result.value), payout)
  }

  /** The node after a commit of `b`, executed to `out`, stopped at `st`: every earlier effect and no later one. */
  ghost function StopAfter(n: Node, out: Outcome, b: Block, st: Stage): Node
    requires Order(st) >= 2 ==> out.result.Some?
    requires st.PuttingAccounts? ==> st.done <= out.result.value.accounts.Keys
  {
    match st
    case Seeding => n
    case Executing => WithExecution(n, out)
    case Rechecking => WithExecution(n, out)
    case PuttingAccounts(done) =>
      WithAccounts(WithExecution(n, out), map a | a in done :: out.result.value.accounts[a])
    case CommittingNodes => WithAccounts(WithExecution(n, out), out.result.value.accounts)
    case PuttingBlock => WithNodes(WithAccounts(WithExecution(n, out), out.result.value.accounts), out.result.value.nodes)
    case ApplyingDelta => Stored(n, out, b)
    case LoadingGovernance => Swapped(n, out, b)
    case StoringGovernance => Swapped(n, out, b)
    case Rewarding => Governed(n, out, b)
    case Minting(unread) =>
      var g := Governed(n, out, b);
      if PaysAt(g, b.header.number)
      then WithMint(g, EscrowMint(b.header.number, FeesSeen(g.disk, unread, b.header.number))) else g
    case Retaining(payout) => Rewarded(n, out, b, payout)
    case Finished(payout) => WithRetained(Rewarded(n, out, b, payout), Patch(b, out.result.value))
  }

  ghost function Stop(ex: Executor, n: Node, b: Block, st: Stage): Node
    requires CanStop(ex, n, b, st)
  {
    StopAfter(n, Execute(ex, n, b), b, st)
  }
}
