/** Building a candidate on the stored head, and the single-validator step that builds and commits one. */
module Candidates {
  import opened Types
  import opened Blocks
  import opened CandidateSort
  import opened Governance
  import opened RewardDistribution
  import opened Pipeline
  import opened PipelineLaws
  import opened Producer

  datatype Config = Config(coinbase: Address, gasLimit: nat, produceEmptyBlocks: bool)

  /** The next base fee from the parent's base fee, gas used and gas limit; `None` when it has no answer. */
  type FeeRule = (nat, nat, nat) -> Option<nat>

  /** Seconds since the epoch; `None` when the clock stands before it. */
  type Clock = c: Option<nat> | c.Some? ==> c.value <= U64_MAX witness None

  /** "zbx". */
  const EXTRA_DATA: seq<byte> := [0x7a, 0x62, 0x78]

  function Max(a: nat, b: nat): nat {
    if a < b then b else a
  }

  /** The parent's timestamp plus one, in 64 bits. */
  function NextSecond(timestamp: nat): nat {
    (timestamp + 1) % (U64_MAX + 1)
  }

  function CandidateTimestamp(parent: nat, now: Clock): nat {
    Max(if now.Some? then now.value else NextSecond(parent), NextSecond(parent))
  }

  function CandidateHeader(cfg: Config, fee: FeeRule, parent: Block, now: Clock): Header {
    var p := parent.header;
    var next := fee(p.baseFee, p.gasUsed, p.gasLimit);
    Header(
      parentHash := Hash(p),
      coinbase := cfg.coinbase,
      stateRoot := ZERO_HASH,
      transactionsRoot := ZERO_HASH,
      receiptsRoot := ZERO_HASH,
      logsBloom := seq(256, _ => 0),
      number := p.number + 1,
      gasLimit := cfg.gasLimit,
      gasUsed := 0,
      timestamp := CandidateTimestamp(p.timestamp, now),
      baseFee := if next.Some? then next.value else Max(p.baseFee, 1),
      extraData := EXTRA_DATA,
      epoch := p.epoch,
      epochSeed := None,
      committeeSignature := [])
  }

  /** `b` is what building on the head of `n` can give, from the selected transactions and the clock. */
  ghost predicate IsCandidate(cfg: Config, fee: FeeRule, n: Node, selected: seq<Tx>, now: Clock, b: Block) {
    var head := HeadOr0(n.cache);
    && head in ChainOf(n.disk)
    && (selected != [] || cfg.produceEmptyBlocks)
    && SortResult(selected, b.txs)
    && b.header == CandidateHeader(cfg, fee, ChainOf(n.disk)[head], now)
  }

  /**
   What a candidate's header takes from its parent, the configuration, the fee rule and the clock; the
   fields that depend on execution are zero. Time moves on from a parent before the last 64-bit second.
  */
  ghost predicate IsChild(h: Header, p: Header, cfg: Config, fee: FeeRule, now: Clock) {
    && h.parentHash == Hash(p) && h.number == p.number + 1 && h.epoch == p.epoch
    && h.coinbase == cfg.coinbase && h.gasLimit == cfg.gasLimit
    && h.gasUsed == 0 && h.stateRoot == h.transactionsRoot == h.receiptsRoot == ZERO_HASH
    && |h.logsBloom| == 256 && (forall i | 0 <= i < 256 :: h.logsBloom[i] == 0)
    && h.extraData == [0x7a, 0x62, 0x78] && h.epochSeed.None? && h.committeeSignature == []
    && (match fee(p.baseFee, p.gasUsed, p.gasLimit)
        case Some(f) => h.baseFee == f
        case None => h.baseFee == if p.baseFee == 0 then 1 else p.baseFee)
    && (p.timestamp < U64_MAX ==>
          h.timestamp == if now.Some? && p.timestamp < now.value then now.value else p.timestamp + 1)
    && (p.timestamp == U64_MAX ==> h.timestamp == if now.Some? then now.value else 0)
  }

  lemma CandidateIsChild(cfg: Config, fee: FeeRule, n: Node, selected: seq<Tx>, now: Clock, b: Block)
    requires IsCandidate(cfg, fee, n, selected, now, b)
    ensures IsChild(b.header, ChainOf(n.disk)[HeadOr0(n.cache)].header, cfg, fee, now)
    ensures multiset(b.txs) == multiset(selected)
  {
  }

  method BuildCandidate(db: ZbxDb, cfg: Config, fee: FeeRule, selected: seq<Tx>, now: Clock, ghost n: Node)
    returns (r: Result<Option<Block>, ()>)
    requires n.disk == db.disk && n.cache == db.latestHeight
    modifies db`calls
    ensures db.calls == old(db.calls) + 1
    ensures r.Err? <==> db.FaultIn(old(db.calls), db.calls) || HeadOr0(n.cache) !in ChainOf(n.disk)
    ensures r.Ok? ==> (r.value.None? <==> selected == [] && !cfg.produceEmptyBlocks)
    ensures r.Ok? && r.value.Some? ==> IsCandidate(cfg, fee, n, selected, now, r.value.value)
    ensures r.Ok? && r.value.Some? ==>
              var number := match db.latestHeight case None => 0 case Some(h) => h;
              && number in ChainOf(db.disk)
              && IsChild(r.value.value.header, ChainOf(db.disk)[number].header, cfg, fee, now)
              && multiset(r.value.value.txs) == multiset(selected)
  {
    var parentNumber := match db.latestHeight case None => 0 case Some(h) => h;
    var read := db.GetBlockByNumber(parentNumber);
    if read.Err? || read.value.None? {
      return Err(());
    }
    var parent := read.value.value;
    var parentHash := Hash(parent.header);
    if |selected| == 0 && !cfg.produceEmptyBlocks {
      return Ok(None);
    }
    var txs := SortBy(selected);
    var header := AssembleHeader(cfg, fee, parent, parentHash, now);
    CandidateIsChild(cfg, fee, n, selected, now, Block(header, txs));
    r := Ok(Some(Block(header, txs)));
  }

  method AssembleHeader(cfg: Config, fee: FeeRule, parent: Block, parentHash: H256, now: Clock) returns (header: Header)
    requires parentHash == Hash(parent.header)
    ensures header == CandidateHeader(cfg, fee, parent, now)
  {
    var least := NextSecond(parent.header.timestamp);
    var clock := match now case Some(seconds) => seconds case None => least;
    var timestamp := if clock < least then least else clock;
    var next := fee(parent.header.baseFee, parent.header.gasUsed, parent.header.gasLimit);
    var baseFee := match next case Some(f) => f case None => Max(parent.header.baseFee, 1);
    header := Header(
      parentHash, cfg.coinbase, ZERO_HASH, ZERO_HASH, ZERO_HASH, seq(256, _ => 0),
      parent.header.number + 1, cfg.gasLimit, 0, timestamp, baseFee, EXTRA_DATA,
      parent.header.epoch, None, []);
  }

  /** One producer step took `n` to `m`: nothing happened, or a candidate on the head of `n` was committed as far as some stage. */
  ghost predicate Produces(ex: Executor, cfg: Config, fee: FeeRule, selected: seq<Tx>, now: Clock, n: Node, m: Node) {
    m == n || exists b, st ::
      IsCandidate(cfg, fee, n, selected, now, b) && CanStop(ex, n, b, st) && m == Stop(ex, n, b, st)
  }

  lemma StopIsProduced(ex: Executor, cfg: Config, fee: FeeRule, selected: seq<Tx>, now: Clock, n: Node, b: Block, st: Stage)
    requires IsCandidate(cfg, fee, n, selected, now, b) && CanStop(ex, n, b, st)
    ensures Produces(ex, cfg, fee, selected, now, n, Stop(ex, n, b, st))
  {
  }

  /** Some candidate on the head of `n` does not execute or fails the reorg check. */
  ghost predicate MayBeRefused(ex: Executor, cfg: Config, fee: FeeRule, selected: seq<Tx>, now: Clock, n: Node) {
    exists b :: IsCandidate(cfg, fee, n, selected, now, b) && (Execute(ex, n, b).result.None? || !HeadMatches(n, b))
  }

  /** `produce_one`: a candidate that took too long to build is dropped; the rest is the commit. */
  method ProduceOne(db: ZbxDb, tracker: Tracker, ex: Executor, cfg: Config, fee: FeeRule, selected: seq<Tx>, now: Clock, late: bool)
    returns (r: Result<Option<Block>, ()>)
    modifies db, tracker
    ensures Produces(ex, cfg, fee, selected, now, old(NodeOf(db, null, tracker)), NodeOf(db, null, tracker))
    ensures late || (selected == [] && !cfg.produceEmptyBlocks) ==> NodeOf(db, null, tracker) == old(NodeOf(db, null, tracker))
    ensures r.Ok? ==> (r.value.None? <==> late || (selected == [] && !cfg.produceEmptyBlocks))
    ensures r.Ok? && r.value.Some? ==> BlockOnDisk(db.disk, r.value.value)
    ensures old(db.calls) <= db.calls
    ensures var n := old(NodeOf(db, null, tracker));
            !db.FaultIn(old(db.calls), db.calls) ==>
              if HeadOr0(n.cache) !in ChainOf(n.disk) then r.Err?
              else if late || (selected == [] && !cfg.produceEmptyBlocks) then r == Ok(None)
              else r.Err? ==> MayBeRefused(ex, cfg, fee, selected, now, n)
  {
    ghost var n := NodeOf(db, null, tracker);
    var built := BuildCandidate(db, cfg, fee, selected, now, n);
    if built.Err? {
      return Err(());
    }
    if built.value.None? {
      return Ok(None);
    }
    if late {
      return Ok(None);
    }
    var committed, payout := ExecuteAndCommitInner(db, null, tracker, ex, built.value.value);
    StopIsProduced(ex, cfg, fee, selected, now, n, built.value.value,
                   if committed.Err? then committed.error else Finished(payout));
    if committed.Err? {
      return Err(());
    }
    r := Ok(Some(committed.value));
  }
}
