/**
 Interval rewards: every `REWARD_INTERVAL` blocks the node sums the priority fees of the window,
 mints the total into the staking escrow and credits the validators.

 Arithmetic is that of the release build: `saturating_*` saturates at 2^128 - 1, a plain `*` wraps.
*/
module Rewards {
  import opened Types
  import opened Arithmetic
  import opened Blocks

  const REWARD_INTERVAL: nat := 100
  const HALVING_INTERVAL: nat := 63_072_000
  const INITIAL_BLOCK_REWARD: nat := 2_000_000_000_000_000_000
  const MIN_SELF_STAKE: nat := 100_000_000_000_000_000_000_000

  function Min(a: nat, b: nat): nat {
    if a < b then a else b
  }

  function Minus(a: nat, b: nat): nat {
    if a < b then 0 else a - b
  }

  function Sat(x: nat): u128 {
    Min(x, U128_MAX)
  }

  function Wrap(x: nat): u128 {
    x % (U128_MAX + 1)
  }

  // ----- Priority fees of a window -----------------------------------------------------------------

  /** What reading the store yields: a height whose read fails or finds nothing is absent. */
  type Chain = map<nat, Block>
  type Receipts = map<H256, nat>

  function EffectiveGasPrice(tx: Tx, baseFee: nat): nat {
    baseFee + Min(tx.maxPriorityFee, Minus(tx.maxFee, baseFee))
  }

  function GasUsed(receipts: Receipts, tx: Tx): nat {
    if tx.hash in receipts then receipts[tx.hash] else tx.gasLimit
  }

  /** What one transaction pays above the base fee. */
  function Tip(receipts: Receipts, tx: Tx, baseFee: nat): nat {
    Min(tx.maxPriorityFee, Minus(tx.maxFee, baseFee)) * GasUsed(receipts, tx)
  }

  function TipsOf(receipts: Receipts, txs: seq<Tx>, baseFee: nat): nat {
    if txs == [] then 0 else TipsOf(receipts, txs[..|txs| - 1], baseFee) + Tip(receipts, txs[|txs| - 1], baseFee)
  }

  function TipsAt(chain: Chain, receipts: Receipts, h: nat): nat {
    if h in chain then TipsOf(receipts, chain[h].txs, chain[h].header.baseFee) else 0
  }

  /** The true, unbounded sum over the heights `lo <= h < hi`. */
  function TipsBetween(chain: Chain, receipts: Receipts, lo: nat, hi: nat): nat
    decreases hi
  {
    if hi <= lo then 0 else TipsBetween(chain, receipts, lo, hi - 1) + TipsAt(chain, receipts, hi - 1)
  }

  function WindowStart(height: nat): nat {
    Minus(height, REWARD_INTERVAL - 1)
  }

  function WindowTips(chain: Chain, receipts: Receipts, height: nat): nat {
    TipsBetween(chain, receipts, WindowStart(height), height + 1)
  }

  lemma SatAccumulates(a: nat, b: nat)
    ensures Sat(Sat(a) + Sat(b)) == Sat(a + b)
  {
  }

  lemma TipsOneMore(receipts: Receipts, txs: seq<Tx>, i: nat, baseFee: nat)
    requires i < |txs|
    ensures TipsOf(receipts, txs[..i + 1], baseFee) == TipsOf(receipts, txs[..i], baseFee) + Tip(receipts, txs[i], baseFee)
  {
    assert txs[..i + 1][..i] == txs[..i];
  }

  lemma TipIsPriced(receipts: Receipts, tx: Tx, baseFee: nat)
    ensures Minus(EffectiveGasPrice(tx, baseFee), baseFee) * GasUsed(receipts, tx) == Tip(receipts, tx, baseFee)
  {
  }

  /** The inner loop: one block's transactions. */
  method AddBlockFees(fees: u128, receipts: Receipts, b: Block, ghost before: nat) returns (sum: u128)
    requires fees == Sat(before)
    ensures sum == Sat(before + TipsOf(receipts, b.txs, b.header.baseFee))
  {
    var baseFee := b.header.baseFee;
    sum := fees;
    for i := 0 to |b.txs|
      invariant sum == Sat(before + TipsOf(receipts, b.txs[..i], baseFee))
    {
      var tx := b.txs[i];
      TipsOneMore(receipts, b.txs, i, baseFee);
      TipIsPriced(receipts, tx, baseFee);
      var tipPerGas := Minus(EffectiveGasPrice(tx, baseFee), baseFee);
      if tipPerGas == 0 {
        continue;
      }
      SatAccumulates(before + TipsOf(receipts, b.txs[..i], baseFee), Tip(receipts, tx, baseFee));
      sum := Sat(sum + Sat(tipPerGas * GasUsed(receipts, tx)));
    }
    assert b.txs[..|b.txs|] == b.txs;
  }

  /** The scan of `apply_interval_rewards`: exactly the true sum, cut at 2^128 - 1. */
  method AccumulateFees(chain: Chain, receipts: Receipts, height: nat) returns (fees: u128)
    ensures fees == Sat(WindowTips(chain, receipts, height))
    ensures forall sums | RunningFees(chain, receipts, height, sums) ::
              fees == if sums[|sums| - 1] <= U128_MAX then sums[|sums| - 1] else U128_MAX
  {
    forall sums | RunningFees(chain, receipts, height, sums) ensures WindowTips(chain, receipts, height) == sums[|sums| - 1] {
      FeesAre(chain, receipts, height, sums);
    }
    fees := 0;
    var h := WindowStart(height);
    while h <= height
      invariant WindowStart(height) <= h <= height + 1
      invariant fees == Sat(TipsBetween(chain, receipts, WindowStart(height), h))
    {
      if h in chain {
        fees := AddBlockFees(fees, receipts, chain[h], TipsBetween(chain, receipts, WindowStart(height), h));
      }
      h := h + 1;
    }
  }

  /** The price never leaves 64 bits, so the addition in `effective_gas_price` cannot wrap. */
  lemma EffectivePriceFits(tx: Tx, baseFee: nat)
    requires tx.maxPriorityFee <= U64_MAX && tx.maxFee <= U64_MAX && baseFee <= U64_MAX
    ensures EffectiveGasPrice(tx, baseFee) <= U64_MAX
    ensures EffectiveGasPrice(tx, baseFee)
         == if tx.maxFee < baseFee then baseFee
            else if baseFee + tx.maxPriorityFee < tx.maxFee then baseFee + tx.maxPriorityFee
            else tx.maxFee
  {
  }

  // ----- What is summed --------------------------------------------------------------------------------

  /** What a transaction pays above the base fee, for the gas its receipt says or else for its gas limit. */
  predicate Pays(receipts: Receipts, tx: Tx, base: nat, amount: nat) {
    var gas := if tx.hash in receipts then receipts[tx.hash] else tx.gasLimit;
    amount == if tx.maxFee <= base then 0
              else if base + tx.maxPriorityFee <= tx.maxFee then tx.maxPriorityFee * gas
              else (tx.maxFee - base) * gas
  }

  /** Running totals of what a block's transactions pay. */
  ghost predicate RunningTips(receipts: Receipts, b: Block, sums: seq<nat>) {
    && |sums| == |b.txs| + 1 && sums[0] == 0
    && forall i | 0 <= i < |b.txs| :: sums[i] <= sums[i + 1] && Pays(receipts, b.txs[i], b.header.baseFee, sums[i + 1] - sums[i])
  }

  lemma PaysIsTip(receipts: Receipts, tx: Tx, base: nat, amount: nat)
    requires Pays(receipts, tx, base, amount)
    ensures amount == Tip(receipts, tx, base)
  {
    if tx.maxFee <= base {
      assert Min(tx.maxPriorityFee, Minus(tx.maxFee, base)) == 0;
    }
  }

  lemma {:induction false} BlockRuns(receipts: Receipts, b: Block, sums: seq<nat>, i: nat)
    requires RunningTips(receipts, b, sums) && i <= |b.txs|
    ensures TipsOf(receipts, b.txs[..i], b.header.baseFee) == sums[i]
  {
    if i > 0 {
      BlockRuns(receipts, b, sums, i - 1);
      assert sums[i - 1] <= sums[i - 1 + 1];
      PaysIsTip(receipts, b.txs[i - 1], b.header.baseFee, sums[i - 1 + 1] - sums[i - 1]);
      TipsOneMore(receipts, b.txs, i - 1, b.header.baseFee);
    }
  }

  /** What a block adds; a height that was not read adds nothing. */
  ghost predicate Adds(chain: Chain, receipts: Receipts, h: nat, amount: nat) {
    if h in chain then exists tips :: RunningTips(receipts, chain[h], tips) && amount == tips[|tips| - 1] else amount == 0
  }

  /** Running totals over the hundred heights up to `height`, fewer at the start. */
  ghost predicate RunningFees(chain: Chain, receipts: Receipts, height: nat, sums: seq<nat>) {
    var start := if height < 99 then 0 else height - 99;
    && |sums| == height - start + 2 && sums[0] == 0
    && forall i: nat | i < |sums| - 1 :: sums[i] <= sums[i + 1] && Adds(chain, receipts, start + i, sums[i + 1] - sums[i])
  }

  lemma {:induction false} WindowRuns(chain: Chain, receipts: Receipts, height: nat, sums: seq<nat>, i: nat)
    requires RunningFees(chain, receipts, height, sums) && i < |sums|
    ensures TipsBetween(chain, receipts, WindowStart(height), WindowStart(height) + i) == sums[i]
  {
    if i > 0 {
      WindowRuns(chain, receipts, height, sums, i - 1);
      var h := WindowStart(height) + (i - 1);
      assert Adds(chain, receipts, h, sums[i - 1 + 1] - sums[i - 1]);
      if h in chain {
        var tips :| RunningTips(receipts, chain[h], tips) && sums[i] - sums[i - 1] == tips[|tips| - 1];
        BlockRuns(receipts, chain[h], tips, |chain[h].txs|);
        assert chain[h].txs[..|chain[h].txs|] == chain[h].txs;
      }
    }
  }

  /** The accumulated fees, with prices, gas and window spelled out. */
  lemma FeesAre(chain: Chain, receipts: Receipts, height: nat, sums: seq<nat>)
    requires RunningFees(chain, receipts, height, sums)
    ensures WindowTips(chain, receipts, height) == sums[|sums| - 1]
  {
    WindowRuns(chain, receipts, height, sums, |sums| - 1);
  }

  // ----- Laws of the sum -----------------------------------------------------------------------------

  lemma RemovalKeepsLast(txs: seq<Tx>, k: nat)
    requires k < |txs| - 1
    ensures var init, less := txs[..|txs| - 1], txs[..k] + txs[k + 1..];
            less != [] && less[..|less| - 1] == init[..k] + init[k + 1..] && less[|less| - 1] == txs[|txs| - 1]
  {
  }

  /** Moving one transaction out of the list takes out exactly its tip. */
  lemma {:induction false} TipsRemove(receipts: Receipts, txs: seq<Tx>, k: nat, baseFee: nat)
    requires k < |txs|
    ensures TipsOf(receipts, txs, baseFee)
         == TipsOf(receipts, txs[..k] + txs[k + 1..], baseFee) + Tip(receipts, txs[k], baseFee)
    decreases |txs|
  {
    var init := txs[..|txs| - 1];
    if k < |txs| - 1 {
      TipsRemove(receipts, init, k, baseFee);
      RemovalKeepsLast(txs, k);
    } else {
      assert txs[..k] + txs[k + 1..] == init;
    }
  }

  lemma {:induction false} TipsPermute(receipts: Receipts, a: seq<Tx>, b: seq<Tx>, baseFee: nat)
    requires multiset(a) == multiset(b)
    ensures TipsOf(receipts, a, baseFee) == TipsOf(receipts, b, baseFee)
    decreases |a|
  {
    if a == [] {
      assert |b| == |multiset(b)| == 0;
    } else {
      var x := a[|a| - 1];
      RemoveOne(a, |a| - 1);
      assert a[..|a| - 1] + a[|a|..] == a[..|a| - 1];
      assert x in multiset(b);
      var k :| 0 <= k < |b| && b[k] == x;
      RemoveOne(b, k);
      TipsPermute(receipts, a[..|a| - 1], b[..k] + b[k + 1..], baseFee);
      TipsRemove(receipts, b, k, baseFee);
    }
  }

  lemma RemoveOne(s: seq<Tx>, k: nat)
    requires k < |s|
    ensures multiset(s[..k] + s[k + 1..]) == multiset(s) - multiset{s[k]}
  {
    assert s == s[..k] + [s[k]] + s[k + 1..];
  }

  /** `more` reports at least as much gas as `less` for every transaction of the block. */
  ghost predicate GasAtLeast(less: Receipts, more: Receipts, txs: seq<Tx>) {
    forall i | 0 <= i < |txs| :: GasUsed(less, txs[i]) <= GasUsed(more, txs[i])
  }

  lemma {:induction false} TipsMonotone(less: Receipts, more: Receipts, txs: seq<Tx>, baseFee: nat)
    requires GasAtLeast(less, more, txs)
    ensures TipsOf(less, txs, baseFee) <= TipsOf(more, txs, baseFee)
  {
    if txs != [] {
      var init, x := txs[..|txs| - 1], txs[|txs| - 1];
      assert forall i | 0 <= i < |init| :: init[i] == txs[i];
      TipsMonotone(less, more, init, baseFee);
      MulKeepsOrder(GasUsed(less, x), GasUsed(more, x), Min(x.maxPriorityFee, Minus(x.maxFee, baseFee)));
    }
  }

  /** Reordering transactions inside blocks never changes what a window accumulates. */
  lemma {:induction false} WindowOrderIrrelevant(a: Chain, b: Chain, receipts: Receipts, lo: nat, hi: nat)
    requires a.Keys == b.Keys
    requires forall h | h in a :: a[h].header.baseFee == b[h].header.baseFee && multiset(a[h].txs) == multiset(b[h].txs)
    ensures TipsBetween(a, receipts, lo, hi) == TipsBetween(b, receipts, lo, hi)
    decreases hi
  {
    if lo < hi {
      WindowOrderIrrelevant(a, b, receipts, lo, hi - 1);
      if hi - 1 in a {
        TipsPermute(receipts, a[hi - 1].txs, b[hi - 1].txs, a[hi - 1].header.baseFee);
      }
    }
  }

  /**
   Replacing what receipts report by at least as much gas never lowers the accumulated fees. Losing
   any of the receipts is such a replacement when no receipt exceeds its gas limit.
  */
  lemma {:induction false} MoreGasNeverLowers(chain: Chain, less: Receipts, more: Receipts, lo: nat, hi: nat)
    requires forall h | h in chain :: GasAtLeast(less, more, chain[h].txs)
    ensures TipsBetween(chain, less, lo, hi) <= TipsBetween(chain, more, lo, hi)
    ensures Sat(TipsBetween(chain, less, lo, hi)) <= Sat(TipsBetween(chain, more, lo, hi))
    decreases hi
  {
    if lo < hi {
      MoreGasNeverLowers(chain, less, more, lo, hi - 1);
      if hi - 1 in chain {
        TipsMonotone(less, more, chain[hi - 1].txs, chain[hi - 1].header.baseFee);
      }
    }
  }

  /** Losing any receipts can only raise the accumulated fees. */
  lemma MissingReceiptsNeverLower(chain: Chain, receipts: Receipts, lost: set<H256>, lo: nat, hi: nat)
    requires forall h | h in chain :: GasAtLeast(receipts, map[], chain[h].txs)
    ensures TipsBetween(chain, receipts, lo, hi) <= TipsBetween(chain, receipts - lost, lo, hi)
    ensures Sat(TipsBetween(chain, receipts, lo, hi)) <= Sat(TipsBetween(chain, receipts - lost, lo, hi))
  {
    forall h | h in chain ensures GasAtLeast(receipts, receipts - lost, chain[h].txs) {
      assert GasAtLeast(receipts, map[], chain[h].txs);
    }
    MoreGasNeverLowers(chain, receipts, receipts - lost, lo, hi);
  }

  // ----- Windows tile the chain ------------------------------------------------------------------------

  lemma {:induction false} TipsSplit(chain: Chain, receipts: Receipts, lo: nat, mid: nat, hi: nat)
    requires lo <= mid <= hi
    ensures TipsBetween(chain, receipts, lo, hi)
         == TipsBetween(chain, receipts, lo, mid) + TipsBetween(chain, receipts, mid, hi)
    decreases hi
  {
    if mid < hi {
      TipsSplit(chain, receipts, lo, mid, hi - 1);
    }
  }

  /** Fees counted by the boundaries `1 .. |done|`, where boundary `k` counts only if its call succeeded. */
  function Counted(chain: Chain, receipts: Receipts, done: seq<bool>): nat {
    if done == [] then 0 else
    Counted(chain, receipts, done[..|done| - 1])
      + if done[|done| - 1] then WindowTips(chain, receipts, |done| * REWARD_INTERVAL) else 0
  }

  /** Fees in the windows of the boundaries whose call failed. */
  function Missed(chain: Chain, receipts: Receipts, done: seq<bool>): nat {
    if done == [] then 0 else
    Missed(chain, receipts, done[..|done| - 1])
      + if done[|done| - 1] then 0 else WindowTips(chain, receipts, |done| * REWARD_INTERVAL)
  }

  /**
   Every block from 1 to the last boundary is in exactly one window, so what the successful
   boundaries count falls short of the chain's tips by exactly the windows that failed: nothing
   is deferred to a later boundary.
  */
  lemma {:induction false} WindowsTile(chain: Chain, receipts: Receipts, done: seq<bool>)
    ensures Counted(chain, receipts, done) + Missed(chain, receipts, done)
         == TipsBetween(chain, receipts, 1, |done| * REWARD_INTERVAL + 1)
  {
    if done != [] {
      var m := |done|;
      WindowsTile(chain, receipts, done[..m - 1]);
      TipsSplit(chain, receipts, 1, (m - 1) * REWARD_INTERVAL + 1, m * REWARD_INTERVAL + 1);
      assert WindowStart(m * REWARD_INTERVAL) == (m - 1) * REWARD_INTERVAL + 1;
    }
  }
}
