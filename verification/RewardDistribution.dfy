/**
 Splitting an interval's reward among validators: what is credited never exceeds what is minted,
 and the documented proportional share is met exactly when a product fits 128 bits.
*/
module RewardDistribution {
  import opened Types
  import opened Rewards
  import opened Arithmetic

  /** Commission in basis points; registration caps it at 2000. */
  type Bps = b: nat | b <= 2000

  datatype Validator = Validator(
    selfStake: u128,
    delegatedStake: u128,
    commission: Bps,
    pendingRewards: u128,
    delegatorPool: u128,
    poolDenominator: u128)

  type Registry = map<Address, Validator>

  datatype ValidatorSet = ValidatorSet(validators: Registry, activeSet: seq<Address>)

  /** The validator set behind its shared lock. */
  class SharedSet {
    var value: ValidatorSet

    constructor (v: ValidatorSet)
      ensures value == v
    {
      value := v;
    }
  }

  // ----- Subsidy -------------------------------------------------------------------------------------

  function Pow2(n: nat): (p: nat)
    ensures p > 0
  {
    if n == 0 then 1 else 2 * Pow2(n - 1)
  }

  function EraReward(halvings: nat): nat {
    if halvings >= 64 then 0 else
    DivBelow(INITIAL_BLOCK_REWARD, Pow2(halvings));
    INITIAL_BLOCK_REWARD / Pow2(halvings)
  }

  function BlockRewardAt(h: nat): nat {
    EraReward(h / HALVING_INTERVAL)
  }

  function SubsidyBetween(lo: nat, hi: nat): nat
    decreases hi
  {
    if hi <= lo then 0 else SubsidyBetween(lo, hi - 1) + BlockRewardAt(hi - 1)
  }

  /** What the interval pays out: subsidy of its blocks plus the accumulated fees. */
  function IntervalTotal(height: nat, fees: u128): u128 {
    Sat(SubsidyBetween(WindowStart(height), height + 1) + fees)
  }

  /** `interval_escrow_mint`. */
  function EscrowMint(height: nat, fees: u128): u128 {
    if height % REWARD_INTERVAL != 0 then 0 else IntervalTotal(height, fees)
  }

  // ----- Shares --------------------------------------------------------------------------------------

  function TotalStake(v: Validator): u128 {
    Sat(v.selfStake + v.delegatedStake)
  }

  function StakeAt(m: Registry, a: Address): nat {
    if a in m then TotalStake(m[a]) else 0
  }

  function StakeSum(m: Registry, active: seq<Address>): nat {
    if active == [] then 0 else StakeSum(m, active[..|active| - 1]) + StakeAt(m, active[|active| - 1])
  }

  function Share(pot: u128, weight: u128, totalStake: u128): u128
    requires totalStake > 0
  {
    DivBelow(Wrap(pot * weight), totalStake);
    Wrap(pot * weight) / totalStake
  }

  function CommissionOf(v: Validator, reward: u128): u128 {
    var product := reward * v.commission;
    if product <= U128_MAX then product / 10_000 else Wrap((reward / 10_000) * v.commission)
  }

  function SelfShare(v: Validator, share: u128): nat
    requires TotalStake(v) > 0
  {
    var product := share * v.selfStake;
    PartBelowWhole(share, v.selfStake, TotalStake(v));
    if product <= U128_MAX then product / TotalStake(v) else (share / TotalStake(v)) * v.selfStake
  }

  function Credit(v: Validator, share: u128): Validator
    requires share > 0 ==> TotalStake(v) > 0
  {
    if share == 0 then v
    else if v.delegatedStake == 0 then v.(pendingRewards := Sat(v.pendingRewards + share))
    else
      var selfShare := SelfShare(v, share);
      var delegated := Minus(share, selfShare);
      var commission := CommissionOf(v, delegated);
      v.(pendingRewards := Sat(Sat(v.pendingRewards + selfShare) + commission),
         poolDenominator := v.delegatedStake,
         delegatorPool := Sat(v.delegatorPool + Minus(delegated, commission)))
  }

  lemma ShareNeedsStake(pot: u128, weight: u128, totalStake: u128)
    requires totalStake > 0
    ensures Share(pot, weight, totalStake) > 0 ==> weight > 0
  {
  }

  function CreditAt(m: Registry, a: Address, pot: u128, totalStake: u128): Registry
    requires totalStake > 0
  {
    if a !in m then m else
    ShareNeedsStake(pot, TotalStake(m[a]), totalStake);
    m[a := Credit(m[a], Share(pot, TotalStake(m[a]), totalStake))]
  }

  function CreditAll(m: Registry, active: seq<Address>, pot: u128, totalStake: u128): Registry
    requires totalStake > 0
  {
    if active == [] then m else
    CreditAt(CreditAll(m, active[..|active| - 1], pot, totalStake), active[|active| - 1], pot, totalStake)
  }

  function Bonus(m: Registry, proposer: Address, amount: u128): Registry {
    if proposer in m
    then m[proposer := m[proposer].(pendingRewards := Sat(m[proposer].pendingRewards + amount))]
    else m
  }

  /** `distribute_block_reward`. */
  function Distribute(vs: ValidatorSet, height: nat, proposer: Address, fees: u128): ValidatorSet {
    var total := IntervalTotal(height, fees);
    var totalStake := Wrap(StakeSum(vs.validators, vs.activeSet));
    if height % REWARD_INTERVAL != 0 || total == 0 || totalStake == 0 then vs else
    var bonus := total / 10;
    vs.(validators := CreditAll(Bonus(vs.validators, proposer, bonus), vs.activeSet, total - bonus, totalStake))
  }

  /** The loop over the active set. */
  method CreditActive(cell: SharedSet, pot: u128, totalStake: u128)
    requires totalStake > 0
    modifies cell
    ensures cell.value == old(cell.value).(
              validators := CreditAll(old(cell.value.validators), old(cell.value.activeSet), pot, totalStake))
  {
    var active := cell.value.activeSet;
    ghost var start := cell.value.validators;
    for i := 0 to |active|
      invariant cell.value.activeSet == active
      invariant cell.value.validators == CreditAll(start, active[..i], pot, totalStake)
    {
      assert active[..i + 1][..i] == active[..i];
      var m := cell.value.validators;
      var a := active[i];
      if a in m {
        var share := Share(pot, TotalStake(m[a]), totalStake);
        ShareNeedsStake(pot, TotalStake(m[a]), totalStake);
        cell.value := cell.value.(validators := m[a := Credit(m[a], share)]);
      }
    }
    assert active[..|active|] == active;
  }

  method DistributeBlockReward(cell: SharedSet, height: nat, proposer: Address, fees: u128)
    modifies cell
    ensures cell.value == Distribute(old(cell.value), height, proposer, fees)
    ensures PaidOut(old(cell.value), cell.value, proposer, EscrowMint(height, fees))
  {
    DistributePaysOut(cell.value, height, proposer, fees);
    if height % REWARD_INTERVAL != 0 {
      return;
    }
    var total := IntervalTotal(height, fees);
    if total == 0 {
      return;
    }
    var bonus := total / 10;
    var pot := total - bonus;
    var totalStake := Wrap(StakeSum(cell.value.validators, cell.value.activeSet));
    if totalStake == 0 {
      return;
    }
    cell.value := cell.value.(validators := Bonus(cell.value.validators, proposer, bonus));
    CreditActive(cell, pot, totalStake);
  }

  // ----- Every row ------------------------------------------------------------------------------------

  predicate NoneTwice(active: seq<Address>) {
    forall i, j | 0 <= i < j < |active| :: active[i] != active[j]
  }

  /** The running totals of the active stake; an active address that is not registered has none. */
  ghost predicate RunningStake(vs: ValidatorSet, sums: seq<nat>) {
    && |sums| == |vs.activeSet| + 1 && sums[0] == 0
    && forall i | 0 <= i < |vs.activeSet| ::
         var a := vs.activeSet[i];
         sums[i + 1] == sums[i] + if a in vs.validators
                                  then Sat(vs.validators[a].selfStake + vs.validators[a].delegatedStake) else 0
  }

  /** `w` is `v` after `bonus` and after a share of `reward`, split between the validator and its delegators. */
  predicate Paid(v: Validator, w: Validator, bonus: nat, reward: int) {
    var stake := Sat(v.selfStake + v.delegatedStake);
    && 0 <= reward
    && w.selfStake == v.selfStake && w.delegatedStake == v.delegatedStake && w.commission == v.commission
    && if reward == 0 || v.delegatedStake == 0 then
         && w.pendingRewards == Sat(v.pendingRewards + bonus + reward)
         && w.delegatorPool == v.delegatorPool && w.poolDenominator == v.poolDenominator
       else
         && stake > 0
         && var own := if reward * v.selfStake <= U128_MAX then reward * v.selfStake / stake else reward / stake * v.selfStake;
            var gross := reward - own;
            var commission := if gross * v.commission <= U128_MAX then gross * v.commission / 10_000 else gross / 10_000 * v.commission;
            && 0 <= own <= reward && 0 <= commission <= gross
            && w.pendingRewards == Sat(v.pendingRewards + bonus + own + commission)
            && w.delegatorPool == Sat(v.delegatorPool + (gross - commission))
            && w.poolDenominator == v.delegatedStake
  }

  /** One row of a payout of `total` over an active stake of `weight`. */
  predicate RowDistributed(v: Validator, w: Validator, proposes: bool, isActive: bool, total: nat, weight: nat)
    requires weight > 0
  {
    var pot := total - total / 10;
    Paid(v, w, if proposes then total / 10 else 0,
         if isActive then pot * Sat(v.selfStake + v.delegatedStake) % (U128_MAX + 1) / weight else 0)
  }

  /**
   `total` was paid out over an active stake of `stake`, which is cut to 128 bits: a tenth to the
   proposer, and of the rest to each active validator what the product, cut to 128 bits, gives. Nobody
   else's row moves, and none at all when there is nothing to pay or nobody to weigh by.
  */
  ghost predicate Distributed(vs: ValidatorSet, out: ValidatorSet, proposer: Address, total: nat, stake: nat) {
    var weight := stake % (U128_MAX + 1);
    && out.activeSet == vs.activeSet && out.validators.Keys == vs.validators.Keys
    && (total == 0 || weight == 0 ==> out == vs)
    && (total > 0 && weight > 0 ==>
          forall a | a in vs.validators :: RowDistributed(vs.validators[a], out.validators[a], a == proposer, a in vs.activeSet, total, weight))
  }

  /** The same, for the sum of the active stake and an active set that lists nobody twice. */
  ghost predicate PaidOut(vs: ValidatorSet, out: ValidatorSet, proposer: Address, total: nat) {
    NoneTwice(vs.activeSet) ==>
      forall sums | RunningStake(vs, sums) :: Distributed(vs, out, proposer, total, sums[|sums| - 1])
  }

  lemma DistributePaysOut(vs: ValidatorSet, height: nat, proposer: Address, fees: u128)
    ensures PaidOut(vs, Distribute(vs, height, proposer, fees), proposer, EscrowMint(height, fees))
  {
    if NoneTwice(vs.activeSet) {
      forall sums | RunningStake(vs, sums)
        ensures Distributed(vs, Distribute(vs, height, proposer, fees), proposer, EscrowMint(height, fees), sums[|sums| - 1])
      {
        DistributesRows(vs, height, proposer, fees, sums);
      }
    }
  }

  lemma {:induction false} StakeSumRuns(vs: ValidatorSet, sums: seq<nat>, i: nat)
    requires RunningStake(vs, sums) && i <= |vs.activeSet|
    ensures StakeSum(vs.validators, vs.activeSet[..i]) == sums[i]
  {
    if i > 0 {
      StakeSumRuns(vs, sums, i - 1);
      assert vs.activeSet[..i][..i - 1] == vs.activeSet[..i - 1];
    }
  }

  /** A list without repetitions pays each of its rows once, from what the row was. */
  lemma {:induction false} CreditAllAt(m: Registry, active: seq<Address>, pot: u128, totalStake: u128, a: Address)
    requires totalStake > 0 && NoneTwice(active) && a in m
    ensures CreditAll(m, active, pot, totalStake).Keys == m.Keys
    ensures CreditAll(m, active, pot, totalStake)[a] == if a in active then CreditAt(m, a, pot, totalStake)[a] else m[a]
  {
    if active != [] {
      CreditAllAt(m, active[..|active| - 1], pot, totalStake, a);
      assert active == active[..|active| - 1] + [active[|active| - 1]];
    }
  }

  lemma SatTwice(a: nat, b: nat)
    ensures Sat(Sat(a) + b) == Sat(a + b)
  {
  }

  lemma OwnPart(v: Validator, reward: u128)
    requires TotalStake(v) > 0
    ensures SelfShare(v, reward) == if reward * v.selfStake <= U128_MAX then reward * v.selfStake / TotalStake(v)
                                    else reward / TotalStake(v) * v.selfStake
    ensures SelfShare(v, reward) <= reward
  {
    PartBelowWhole(reward, v.selfStake, TotalStake(v));
  }

  lemma CommissionPart(v: Validator, gross: u128)
    ensures CommissionOf(v, gross) == if gross * v.commission <= U128_MAX then gross * v.commission / 10_000
                                      else gross / 10_000 * v.commission
    ensures CommissionOf(v, gross) <= gross
  {
    PartBelowWhole(gross, v.commission, 10_000);
  }

  lemma CreditPays(v: Validator, bonus: u128, share: u128)
    requires share > 0 ==> TotalStake(v) > 0
    ensures Paid(v, Credit(v.(pendingRewards := Sat(v.pendingRewards + bonus)), share), bonus, share)
  {
    var u := v.(pendingRewards := Sat(v.pendingRewards + bonus));
    SatTwice(v.pendingRewards + bonus, share);
    if share > 0 && v.delegatedStake > 0 {
      var own := SelfShare(u, share);
      OwnPart(u, share);
      CommissionPart(u, share - own);
      SatTwice(v.pendingRewards + bonus, own);
      SatTwice(v.pendingRewards + bonus + own, CommissionOf(u, share - own));
    }
  }

  lemma CreditIsRow(v: Validator, proposes: bool, isActive: bool, total: u128, totalStake: u128)
    requires totalStake > 0
    ensures var bonus, share := if proposes then total / 10 else 0,
                                if isActive then Share(total - total / 10, TotalStake(v), totalStake) else 0;
            && (share > 0 ==> TotalStake(v) > 0)
            && RowDistributed(v, Credit(v.(pendingRewards := Sat(v.pendingRewards + bonus)), share), proposes, isActive, total, totalStake)
  {
    var bonus: u128 := if proposes then total / 10 else 0;
    ShareNeedsStake(total - total / 10, TotalStake(v), totalStake);
    CreditPays(v, bonus, if isActive then Share(total - total / 10, TotalStake(v), totalStake) else 0);
  }

  lemma BonusRow(m: Registry, proposer: Address, bonus: u128, a: Address)
    requires a in m
    ensures a in Bonus(m, proposer, bonus)
    ensures Bonus(m, proposer, bonus)[a]
         == m[a].(pendingRewards := Sat(m[a].pendingRewards + if a == proposer then bonus else 0))
  {
  }

  lemma RowIsPaid(m: Registry, active: seq<Address>, proposer: Address, total: u128, totalStake: u128, a: Address)
    requires totalStake > 0 && NoneTwice(active) && a in m
    ensures var out := CreditAll(Bonus(m, proposer, total / 10), active, total - total / 10, totalStake);
            a in out && RowDistributed(m[a], out[a], a == proposer, a in active, total, totalStake)
  {
    BonusRow(m, proposer, total / 10, a);
    CreditAllAt(Bonus(m, proposer, total / 10), active, total - total / 10, totalStake, a);
    CreditIsRow(m[a], a == proposer, a in active, total, totalStake);
  }

  /** Row by row: who is paid how much, whatever overflows or saturates. */
  lemma DistributesRows(vs: ValidatorSet, height: nat, proposer: Address, fees: u128, sums: seq<nat>)
    requires RunningStake(vs, sums) && NoneTwice(vs.activeSet)
    ensures Distributed(vs, Distribute(vs, height, proposer, fees), proposer, EscrowMint(height, fees), sums[|sums| - 1])
  {
    var total := EscrowMint(height, fees);
    StakeSumRuns(vs, sums, |vs.activeSet|);
    assert vs.activeSet[..|vs.activeSet|] == vs.activeSet;
    var weight := Wrap(sums[|sums| - 1]);
    if total > 0 && weight > 0 {
      var out := CreditAll(Bonus(vs.validators, proposer, total / 10), vs.activeSet, total - total / 10, weight);
      forall a | a in vs.validators
        ensures a in out && RowDistributed(vs.validators[a], out[a], a == proposer, a in vs.activeSet, total, weight)
      {
        RowIsPaid(vs.validators, vs.activeSet, proposer, total, weight, a);
      }
      CreditKeepsKeys(Bonus(vs.validators, proposer, total / 10), vs.activeSet, total - total / 10, weight);
    }
  }

  lemma {:induction false} CreditKeepsKeys(m: Registry, active: seq<Address>, pot: u128, totalStake: u128)
    requires totalStake > 0
    ensures CreditAll(m, active, pot, totalStake).Keys == m.Keys
  {
    if active != [] {
      CreditKeepsKeys(m, active[..|active| - 1], pot, totalStake);
    }
  }

  // ----- Conservation --------------------------------------------------------------------------------

  function Claim(v: Validator): nat {
    v.pendingRewards + v.delegatorPool
  }

  /** Everything the validator set owes. */
  ghost function Claims(m: Registry): nat {
    if m == map[] then 0 else
    var a :| a in m;
    Claim(m[a]) + Claims(m - {a})
  }

  lemma {:induction false} ClaimsSplit(m: Registry, a: Address)
    requires a in m
    ensures Claims(m) == Claim(m[a]) + Claims(m - {a})
    decreases |m|
  {
    var b :| b in m && Claims(m) == Claim(m[b]) + Claims(m - {b});
    if a != b {
      ClaimsSplit(m - {b}, a);
      ClaimsSplit(m - {a}, b);
      assert m - {a} - {b} == m - {b} - {a};
    }
  }

  lemma ClaimsUpdate(m: Registry, a: Address, v: Validator)
    requires a in m
    ensures Claims(m[a := v]) + Claim(m[a]) == Claims(m) + Claim(v)
  {
    ClaimsSplit(m, a);
    ClaimsSplit(m[a := v], a);
    assert m[a := v] - {a} == m - {a};
  }

  lemma CreditWithinShare(v: Validator, share: u128)
    requires share > 0 ==> TotalStake(v) > 0
    ensures Claim(Credit(v, share)) <= Claim(v) + share
    ensures TotalStake(Credit(v, share)) == TotalStake(v)
  {
    if share > 0 && v.delegatedStake > 0 {
      PartBelowWhole(share, v.selfStake, TotalStake(v));
      var delegated := Minus(share, SelfShare(v, share));
      CommissionBelow(v, delegated);
    }
  }

  /** Below saturation nothing of a share is lost between the validator and its delegators. */
  lemma CreditIsExact(v: Validator, share: u128)
    requires share > 0 ==> TotalStake(v) > 0
    requires v.pendingRewards + v.delegatorPool + share <= U128_MAX
    ensures Claim(Credit(v, share)) == Claim(v) + share
  {
    if share > 0 && v.delegatedStake > 0 {
      var selfShare := SelfShare(v, share);
      PartBelowWhole(share, v.selfStake, TotalStake(v));
      CommissionBelow(v, Minus(share, selfShare));
    }
  }

  lemma CommissionBelow(v: Validator, reward: u128)
    ensures CommissionOf(v, reward) <= reward
  {
    PartBelowWhole(reward, v.commission, 10_000);
  }

  function ShareSum(m: Registry, active: seq<Address>, pot: u128, totalStake: u128): nat
    requires totalStake > 0
  {
    if active == [] then 0 else
    ShareSum(m, active[..|active| - 1], pot, totalStake)
      + Share(pot, StakeAt(m, active[|active| - 1]), totalStake)
  }

  lemma {:induction false} CreditAllWithinShares(m: Registry, active: seq<Address>, pot: u128, totalStake: u128)
    requires totalStake > 0
    ensures var out := CreditAll(m, active, pot, totalStake);
            && out.Keys == m.Keys && (forall a | a in m :: TotalStake(out[a]) == TotalStake(m[a]))
            && Claims(out) <= Claims(m) + ShareSum(m, active, pot, totalStake)
  {
    if active != [] {
      var init, a := active[..|active| - 1], active[|active| - 1];
      CreditAllWithinShares(m, init, pot, totalStake);
      var mid := CreditAll(m, init, pot, totalStake);
      if a in mid {
        var share := Share(pot, TotalStake(mid[a]), totalStake);
        ShareNeedsStake(pot, TotalStake(mid[a]), totalStake);
        CreditWithinShare(mid[a], share);
        ClaimsUpdate(mid, a, Credit(mid[a], share));
      }
    }
  }

  lemma ShareTimesTotal(pot: u128, weight: u128, totalStake: u128)
    requires totalStake > 0
    ensures Share(pot, weight, totalStake) * totalStake <= pot * weight
  {
    WrapBelow(pot * weight);
    QuotientBounds(Wrap(pot * weight), totalStake);
  }

  lemma WrapBelow(x: nat)
    ensures Wrap(x) <= x
    ensures Wrap(x) == x <==> x <= U128_MAX
  {
  }

  lemma {:induction false} SharesWithinPot(m: Registry, active: seq<Address>, pot: u128, totalStake: u128)
    requires totalStake > 0
    ensures ShareSum(m, active, pot, totalStake) * totalStake <= pot * StakeSum(m, active)
  {
    if active != [] {
      var init, a := active[..|active| - 1], active[|active| - 1];
      SharesWithinPot(m, init, pot, totalStake);
      ShareTimesTotal(pot, StakeAt(m, a), totalStake);
      Distributes(ShareSum(m, init, pot, totalStake), Share(pot, StakeAt(m, a), totalStake), totalStake);
      Distributes(StakeSum(m, init), StakeAt(m, a), pot);
    }
  }

  lemma BonusWithin(m: Registry, proposer: Address, amount: u128)
    ensures Claims(Bonus(m, proposer, amount)) <= Claims(m) + amount
    ensures Bonus(m, proposer, amount).Keys == m.Keys
    ensures forall a | a in m :: TotalStake(Bonus(m, proposer, amount)[a]) == TotalStake(m[a])
  {
    if proposer in m {
      ClaimsUpdate(m, proposer, Bonus(m, proposer, amount)[proposer]);
    }
  }

  lemma {:induction false} StakeSumDepends(m: Registry, n: Registry, active: seq<Address>)
    requires m.Keys == n.Keys && forall a | a in m :: TotalStake(m[a]) == TotalStake(n[a])
    ensures StakeSum(m, active) == StakeSum(n, active)
  {
    if active != [] {
      StakeSumDepends(m, n, active[..|active| - 1]);
    }
  }

  /**
   Whatever the stakes, the commissions and the wrapped products, an interval never credits more
   than it mints into escrow. The only premise is that the active stake itself fits 128 bits.
  */
  lemma CreditsCoveredByMint(vs: ValidatorSet, height: nat, proposer: Address, fees: u128)
    requires StakeSum(vs.validators, vs.activeSet) <= U128_MAX
    ensures Claims(Distribute(vs, height, proposer, fees).validators)
         <= Claims(vs.validators) + EscrowMint(height, fees)
    ensures Distribute(vs, height, proposer, fees).activeSet == vs.activeSet
    ensures StakeSum(Distribute(vs, height, proposer, fees).validators, vs.activeSet)
         == StakeSum(vs.validators, vs.activeSet)
  {
    var total := IntervalTotal(height, fees);
    var stake := StakeSum(vs.validators, vs.activeSet);
    WrapBelow(stake);
    if height % REWARD_INTERVAL == 0 && total > 0 && stake > 0 {
      var bonus := total / 10;
      var pot := total - bonus;
      var start := Bonus(vs.validators, proposer, bonus);
      var out := CreditAll(start, vs.activeSet, pot, stake);
      BonusWithin(vs.validators, proposer, bonus);
      StakeSumDepends(vs.validators, start, vs.activeSet);
      CreditAllWithinShares(start, vs.activeSet, pot, stake);
      StakeSumDepends(start, out, vs.activeSet);
      SharesWithinPot(start, vs.activeSet, pot, stake);
      Cancel(ShareSum(start, vs.activeSet, pot, stake), pot, stake);
    }
  }

  // ----- Nothing much is lost ------------------------------------------------------------------------------

  lemma {:induction false} StakeInSum(m: Registry, active: seq<Address>, a: Address)
    requires a in active
    ensures StakeAt(m, a) <= StakeSum(m, active)
  {
    var init, last := active[..|active| - 1], active[|active| - 1];
    if a != last {
      assert active == init + [last];
      StakeInSum(m, init, a);
    }
  }

  /** Every row can take its whole share. */
  ghost predicate RoomFor(m: Registry, active: seq<Address>, pot: u128) {
    && (forall a | a in m :: m[a].pendingRewards + m[a].delegatorPool + pot <= U128_MAX)
    && forall a | a in active :: pot * StakeAt(m, a) <= U128_MAX
  }

  lemma ShareWithinPot(pot: u128, weight: u128, totalStake: u128)
    requires 0 < totalStake && weight <= totalStake && pot * weight <= U128_MAX
    ensures Share(pot, weight, totalStake) <= pot
    ensures pot * weight < (Share(pot, weight, totalStake) + 1) * totalStake
  {
    WrapBelow(pot * weight);
    PartBelowWhole(pot, weight, totalStake);
    QuotientBounds(pot * weight, totalStake);
  }

  lemma RoomForFewer(m: Registry, active: seq<Address>, pot: u128)
    requires active != [] && RoomFor(m, active, pot)
    ensures RoomFor(m, active[..|active| - 1], pot)
  {
  }

  /** Where everything fits, the rows rise by all the shares of a list without repetitions. */
  lemma {:induction false} CreditAllIsExact(m: Registry, active: seq<Address>, pot: u128, totalStake: u128)
    requires totalStake > 0 && NoneTwice(active) && RoomFor(m, active, pot)
    requires Weighs(m, active, totalStake)
    ensures Claims(CreditAll(m, active, pot, totalStake)) == Claims(m) + ShareSum(m, active, pot, totalStake)
  {
    if active != [] {
      var init, a := active[..|active| - 1], active[|active| - 1];
      RoomForFewer(m, active, pot);
      assert Weighs(m, init, totalStake);
      CreditAllIsExact(m, init, pot, totalStake);
      assert a in active;
      CreditNextIsExact(m, init, a, pot, totalStake);
    }
  }

  lemma CreditNextIsExact(m: Registry, init: seq<Address>, a: Address, pot: u128, totalStake: u128)
    requires totalStake > 0 && NoneTwice(init) && a !in init
    requires StakeAt(m, a) <= totalStake && pot * StakeAt(m, a) <= U128_MAX
    requires a in m ==> m[a].pendingRewards + m[a].delegatorPool + pot <= U128_MAX
    ensures var mid := CreditAll(m, init, pot, totalStake);
            Claims(CreditAt(mid, a, pot, totalStake)) == Claims(mid) + Share(pot, StakeAt(m, a), totalStake)
  {
    CreditKeepsKeys(m, init, pot, totalStake);
    if a in m {
      CreditAllAt(m, init, pot, totalStake, a);
      CreditOneIsExact(CreditAll(m, init, pot, totalStake), a, pot, totalStake);
    } else {
      assert Share(pot, 0, totalStake) == 0;
    }
  }

  ghost predicate Weighs(m: Registry, active: seq<Address>, totalStake: nat) {
    forall a | a in active :: StakeAt(m, a) <= totalStake
  }

  lemma CreditOneIsExact(m: Registry, a: Address, pot: u128, totalStake: u128)
    requires totalStake > 0 && a in m && TotalStake(m[a]) <= totalStake && pot * TotalStake(m[a]) <= U128_MAX
    requires m[a].pendingRewards + m[a].delegatorPool + pot <= U128_MAX
    ensures Claims(CreditAt(m, a, pot, totalStake)) == Claims(m) + Share(pot, TotalStake(m[a]), totalStake)
  {
    var share := Share(pot, TotalStake(m[a]), totalStake);
    ShareWithinPot(pot, TotalStake(m[a]), totalStake);
    ShareNeedsStake(pot, TotalStake(m[a]), totalStake);
    CreditIsExact(m[a], share);
    ClaimsUpdate(m, a, Credit(m[a], share));
  }

  /** Each share is rounded down by less than one unit. */
  lemma {:induction false} SharesReachPot(m: Registry, active: seq<Address>, pot: u128, totalStake: u128)
    requires totalStake > 0 && RoomFor(m, active, pot)
    requires Weighs(m, active, totalStake)
    ensures pot * StakeSum(m, active) <= (ShareSum(m, active, pot, totalStake) + |active|) * totalStake
    ensures active != [] ==> pot * StakeSum(m, active) < (ShareSum(m, active, pot, totalStake) + |active|) * totalStake
  {
    if active != [] {
      var init, a := active[..|active| - 1], active[|active| - 1];
      RoomForFewer(m, active, pot);
      assert Weighs(m, init, totalStake);
      SharesReachPot(m, init, pot, totalStake);
      ShareWithinPot(pot, StakeAt(m, a), totalStake);
      Distributes(StakeSum(m, init), StakeAt(m, a), pot);
      Distributes(ShareSum(m, init, pot, totalStake) + |init|, Share(pot, StakeAt(m, a), totalStake) + 1, totalStake);
    }
  }

  /**
   A registered proposer, rows with room for the mint and products that fit: what is owed rises by the
   mint, short of it by less than one unit per active validator.
  */
  lemma CreditsReachMint(vs: ValidatorSet, height: nat, proposer: Address, fees: u128)
    requires proposer in vs.validators && NoneTwice(vs.activeSet)
    requires 0 < StakeSum(vs.validators, vs.activeSet) <= U128_MAX
    requires RoomFor(vs.validators, vs.activeSet, EscrowMint(height, fees))
    ensures EscrowMint(height, fees) == 0 ==> Distribute(vs, height, proposer, fees) == vs
    ensures EscrowMint(height, fees) > 0 ==>
              Claims(vs.validators) + EscrowMint(height, fees)
              < Claims(Distribute(vs, height, proposer, fees).validators) + |vs.activeSet|
  {
    var total := EscrowMint(height, fees);
    var stake := StakeSum(vs.validators, vs.activeSet);
    WrapBelow(stake);
    if total > 0 {
      var bonus: u128 := total / 10;
      var pot: u128 := total - bonus;
      var start := Bonus(vs.validators, proposer, bonus);
      BonusIsExact(vs.validators, proposer, bonus);
      RoomAfterBonus(vs, proposer, total);
      StakeSumDepends(vs.validators, start, vs.activeSet);
      PotIsPaid(start, vs.activeSet, pot, stake);
    }
  }

  lemma PotIsPaid(m: Registry, active: seq<Address>, pot: u128, totalStake: u128)
    requires totalStake == StakeSum(m, active) > 0 && NoneTwice(active) && RoomFor(m, active, pot)
    ensures Claims(m) + pot < Claims(CreditAll(m, active, pot, totalStake)) + |active|
  {
    forall a | a in active ensures StakeAt(m, a) <= totalStake {
      StakeInSum(m, active, a);
    }
    CreditAllIsExact(m, active, pot, totalStake);
    SharesReachPot(m, active, pot, totalStake);
    CancelStrict(pot, ShareSum(m, active, pot, totalStake) + |active|, totalStake);
  }

  lemma BonusIsExact(m: Registry, proposer: Address, amount: u128)
    requires proposer in m && m[proposer].pendingRewards + amount <= U128_MAX
    ensures Claims(Bonus(m, proposer, amount)) == Claims(m) + amount
    ensures Bonus(m, proposer, amount).Keys == m.Keys
    ensures forall a | a in m :: TotalStake(Bonus(m, proposer, amount)[a]) == TotalStake(m[a])
  {
    ClaimsUpdate(m, proposer, Bonus(m, proposer, amount)[proposer]);
  }

  lemma RoomAfterBonus(vs: ValidatorSet, proposer: Address, total: u128)
    requires proposer in vs.validators && RoomFor(vs.validators, vs.activeSet, total)
    ensures RoomFor(Bonus(vs.validators, proposer, total / 10), vs.activeSet, total - total / 10)
  {
    var start := Bonus(vs.validators, proposer, total / 10);
    forall a | a in vs.activeSet ensures (total - total / 10) * StakeAt(start, a) <= U128_MAX {
      assert StakeAt(start, a) == StakeAt(vs.validators, a);
      MulKeepsOrder(total - total / 10, total, StakeAt(vs.validators, a));
    }
  }

  // ----- What is minted ------------------------------------------------------------------------------------

  /** The reward of a block starts at two coins and is halved, rounding down, every halving interval, for ever. */
  lemma RewardHalves(h: nat)
    ensures h < HALVING_INTERVAL ==> BlockRewardAt(h) == 2_000_000_000_000_000_000
    ensures BlockRewardAt(h + HALVING_INTERVAL) == BlockRewardAt(h) / 2
  {
    DivPlusOne(h, HALVING_INTERVAL);
    EraHalves(h / HALVING_INTERVAL);
    assert h < HALVING_INTERVAL ==> h / HALVING_INTERVAL == 0;
    assert EraReward(0) == INITIAL_BLOCK_REWARD / 1;
  }

  lemma EraHalves(k: nat)
    ensures EraReward(k + 1) == EraReward(k) / 2
  {
    if k < 63 {
      DivTwice(INITIAL_BLOCK_REWARD, Pow2(k), 2);
    } else {
      EraEnds(k);
      EraEnds(k + 1);
    }
  }

  lemma Pow2By4(n: nat)
    ensures Pow2(n + 4) == 16 * Pow2(n)
  {
    assert Pow2(n + 2) == 4 * Pow2(n);
  }

  lemma Pow2By8(n: nat)
    ensures Pow2(n + 8) == 256 * Pow2(n)
  {
    Pow2By4(n);
    Pow2By4(n + 4);
  }

  lemma Pow2By24(n: nat)
    ensures Pow2(n + 24) == 0x100_0000 * Pow2(n)
  {
    Pow2By8(n);
    Pow2By8(n + 8);
    Pow2By8(n + 16);
  }

  /** From the sixty-first halving on nothing is left to pay. */
  lemma EraEnds(k: nat)
    requires k >= 61
    ensures EraReward(k) == 0
  {
    Pow2By24(k - 24);
    Pow2By24(k - 48);
    Pow2By8(k - 56);
    Pow2By4(k - 60);
    assert Pow2(k - 60) == 2 * Pow2(k - 61);
    if k < 64 {
      QuotientBounds(INITIAL_BLOCK_REWARD, Pow2(k));
      CancelStrict(INITIAL_BLOCK_REWARD / Pow2(k), 1, Pow2(k));
    }
  }

  lemma {:induction false} FlatSubsidy(lo: nat, hi: nat, era: nat)
    requires lo <= hi && forall h | lo <= h < hi :: h / HALVING_INTERVAL == era / HALVING_INTERVAL
    ensures SubsidyBetween(lo, hi) == (hi - lo) * BlockRewardAt(era)
    decreases hi
  {
    if lo < hi {
      FlatSubsidy(lo, hi - 1, era);
      assert BlockRewardAt(hi - 1) == BlockRewardAt(era);
      Distributes(hi - 1 - lo, 1, BlockRewardAt(era));
    }
  }

  /**
   A boundary mints the fees and the reward of each block of its window: one at height zero, else a
   hundred. Only a boundary that is itself a halving has a window that straddles one.
  */
  lemma MintIs(height: nat, fees: u128)
    ensures height % 100 != 0 ==> EscrowMint(height, fees) == 0
    ensures height % 100 == 0 ==>
              EscrowMint(height, fees) ==
                Sat(fees + if height == 0 then BlockRewardAt(0)
                           else if height % HALVING_INTERVAL == 0 then 99 * BlockRewardAt(height - 1) + BlockRewardAt(height)
                           else 100 * BlockRewardAt(height))
  {
    if height % 100 == 0 && height > 0 {
      var lo := height - 99;
      FlatSubsidy(lo, height, height - 1);
      assert SubsidyBetween(lo, height + 1) == SubsidyBetween(lo, height) + BlockRewardAt(height);
      if height % HALVING_INTERVAL != 0 {
        assert (height - 1) / HALVING_INTERVAL == height / HALVING_INTERVAL;
        assert BlockRewardAt(height - 1) == BlockRewardAt(height);
      }
    } else if height == 0 {
      assert SubsidyBetween(0, 1) == SubsidyBetween(0, 0) + BlockRewardAt(0);
    }
  }

  // ----- The proportional share ------------------------------------------------------------------------

  /** The documented share is paid if and only if `pot * weight` fits 128 bits. */
  lemma ShareExactIff(pot: u128, weight: u128, totalStake: u128)
    requires totalStake > 0
    ensures Share(pot, weight, totalStake) == pot * weight / totalStake <==> pot * weight <= U128_MAX
  {
    var x := pot * weight;
    WrapBelow(x);
    if x > U128_MAX {
      var r := Wrap(x);
      WrapDrops(x);
      QuotientDrops(r, x, totalStake);
    }
  }

  lemma QuotientDrops(r: nat, x: nat, d: nat)
    requires d > 0 && r + d <= x
    ensures r / d != x / d
  {
    DivMonotone(r + d, x, d);
    DivPlusOne(r, d);
  }

  lemma WrapDrops(x: nat)
    requires x > U128_MAX
    ensures Wrap(x) + U128_MAX + 1 <= x
  {
  }

  lemma {:induction false} FirstEraSubsidy(lo: nat, hi: nat)
    requires lo <= hi <= HALVING_INTERVAL
    ensures SubsidyBetween(lo, hi) == (hi - lo) * INITIAL_BLOCK_REWARD
    decreases hi
  {
    if lo < hi {
      FirstEraSubsidy(lo, hi - 1);
      assert (hi - 1) / HALVING_INTERVAL == 0;
      assert Pow2(0) == 1;
    }
  }

  /**
   Before the first halving no validator that holds the minimum self-stake is ever paid its
   documented share: the product is at least 1.8 * 10^43, far above 2^128.
  */
  lemma EligibleValidatorUnderpaid(v: Validator, height: nat, fees: u128, totalStake: u128)
    requires height % REWARD_INTERVAL == 0 && 0 < height < HALVING_INTERVAL
    requires MIN_SELF_STAKE <= v.selfStake && 0 < totalStake
    ensures var total := IntervalTotal(height, fees);
            var pot := total - total / 10;
            Share(pot, TotalStake(v), totalStake) < pot * TotalStake(v) / totalStake
  {
    var total := IntervalTotal(height, fees);
    var pot := total - total / 10;
    FirstEraSubsidy(WindowStart(height), height + 1);
    assert total >= 100 * INITIAL_BLOCK_REWARD;
    assert pot >= 90 * INITIAL_BLOCK_REWARD;
    assert pot * TotalStake(v) >= 90 * INITIAL_BLOCK_REWARD * MIN_SELF_STAKE > U128_MAX by {
      MulKeepsOrder(MIN_SELF_STAKE, TotalStake(v), pot);
      MulKeepsOrder(90 * INITIAL_BLOCK_REWARD, pot, MIN_SELF_STAKE);
    }
    ShareExactIff(pot, TotalStake(v), totalStake);
    WrapBelow(pot * TotalStake(v));
    DivMonotone(Wrap(pot * TotalStake(v)), pot * TotalStake(v), totalStake);
  }
}
