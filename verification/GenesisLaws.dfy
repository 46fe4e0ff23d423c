/** When a boot is accepted, what repeated boots keep, and what the genesis hash depends on. */
module GenesisLaws {
  import opened Types
  import opened Bytes
  import opened Blocks
  import opened Pipeline
  import PL = PipelineLaws
  import RewardDistribution
  import Sequential
  import ChainLaws
  import opened Genesis

  // ----- The hashed map and the written table -----------------------------------------------------------

  predicate DistinctAddresses(list: AccountList) {
    forall i, j | 0 <= i < j < |list| :: list[i].0 != list[j].0
  }

  lemma ListedOnce(list: AccountList, a: Address, s: Account)
    requires DistinctAddresses(list)
    ensures (a in LastWins(list) && LastWins(list)[a] == s) <==> (a, s) in list
  {
    LastEntryWins(list, a);
    if a in LastWins(list) {
      var i :| 0 <= i < |list| && list[i].0 == a;
      assert list[i] in list;
    }
  }

  /** With distinct addresses the order of the allocation does not matter. */
  lemma AllocOrderIrrelevant(l1: AccountList, l2: AccountList)
    requires DistinctAddresses(l1) && DistinctAddresses(l2) && multiset(l1) == multiset(l2)
    ensures LastWins(l1) == LastWins(l2) && StateRoot(LastWins(l1)) == StateRoot(LastWins(l2))
  {
    var m1, m2 := LastWins(l1), LastWins(l2);
    forall a | a in m1 ensures a in m2 && m2[a] == m1[a] {
      ListedOnce(l1, a, m1[a]);
      assert (a, m1[a]) in multiset(l1);
      ListedOnce(l2, a, m1[a]);
    }
    forall a | a in m2 ensures a in m1 {
      ListedOnce(l2, a, m2[a]);
      assert (a, m2[a]) in multiset(l2);
      ListedOnce(l1, a, m2[a]);
    }
  }

  /** With an address listed twice it does. */
  lemma AllocOrderMattersForDuplicates(a: Address, s: Account, t: Account)
    requires s != t && !IsEmptyAccount(s)
    ensures multiset([(a, s), (a, t)]) == multiset([(a, t), (a, s)])
    ensures StateRoot(LastWins([(a, s), (a, t)])) != StateRoot(LastWins([(a, t), (a, s)]))
  {
    var m1, m2 := LastWins([(a, s), (a, t)]), LastWins([(a, t), (a, s)]);
    assert [(a, s), (a, t)][..1] == [(a, s)] && [(a, t), (a, s)][..1] == [(a, t)];
    assert m1[a] == t && m2[a] == s;
    assert a in NonEmpty(m2) && NonEmpty(m2)[a] == s;
    assert a in NonEmpty(m1) ==> NonEmpty(m1)[a] == t;
  }

  /** On a fresh disk the root in block 0 is the root of the account table the first boot leaves, duplicates included. */
  lemma RootMatchesTable(d: Disk, cfg: GenesisConfig, policy: Policy)
    requires !HasGenesis(d) && d.accounts == map[]
    requires Boot(d, cfg, policy).1.Ok?
    ensures var after := Boot(d, cfg, policy).0;
            HasGenesis(after) && ChainOf(after)[0].header.stateRoot == StateRoot(after.accounts)
  {
    assert d.accounts + LastWins(AccountsOf(cfg.alloc)) == LastWins(AccountsOf(cfg.alloc));
  }

  // ----- Acceptance ---------------------------------------------------------------------------------------

  /** Same chain: same timestamp, same accounts that are not empty, same chain id. Nothing else in a configuration counts. */
  predicate SameGenesis(c1: GenesisConfig, c2: GenesisConfig) {
    && c1.timestamp == c2.timestamp
    && NonEmpty(LastWins(AccountsOf(c1.alloc))) == NonEmpty(LastWins(AccountsOf(c2.alloc)))
    && c1.chainId == c2.chainId
  }

  lemma HashIff(c1: GenesisConfig, c2: GenesisConfig)
    ensures Hash(BlockOf(c1).header) == Hash(BlockOf(c2).header) <==>
            c1.timestamp == c2.timestamp
            && NonEmpty(LastWins(AccountsOf(c1.alloc))) == NonEmpty(LastWins(AccountsOf(c2.alloc)))
  {
    var h1, h2 := BlockOf(c1).header, BlockOf(c2).header;
    assert Hash(h1) == Hash(h2) <==> h1 == h2;
  }

  lemma FirstBoot(d: Disk, cfg: GenesisConfig, policy: Policy)
    requires !HasGenesis(d) && Boot(d, cfg, policy).1.Ok?
    ensures var after := Boot(d, cfg, policy).0;
            HasGenesis(after) && ChainOf(after)[0] == BlockOf(cfg) && StoredId(after.chainId) == Some(cfg.chainId)
  {
    StoredIdRoundTrip(cfg.chainId);
  }

  /** After a first boot with `c`, a strict boot with `later` is accepted exactly when it passes the placeholder check and names the same chain. */
  lemma StrictBootAcceptsIff(d: Disk, c: GenesisConfig, policy: Policy, later: GenesisConfig)
    requires !HasGenesis(d) && Boot(d, c, policy).1.Ok?
    ensures Boot(Boot(d, c, policy).0, later, StrictFailFast).1.Ok? <==> NoPlaceholders(later) && SameGenesis(c, later)
  {
    FirstBoot(d, c, policy);
    HashIff(c, later);
  }

  /** The stored chain id has eight bytes and says something else. */
  predicate OtherChainId(stored: Option<seq<byte>>, chainId: u64) {
    stored.Some? && |stored.value| == 8 && FromBytes(stored.value) != chainId
  }

  /**
   Any boot: with mismatches allowed it is always accepted; a strict one is refused for the first of
   placeholder, stored genesis and stored chain id that is wrong, and then writes nothing.
  */
  lemma BootAnswers(d: Disk, cfg: GenesisConfig, policy: Policy)
    ensures var (after, r) := Boot(d, cfg, policy);
            && (policy == AllowMismatch ==> r.Ok?)
            && (r.Err? ==> after == d)
            && (policy == StrictFailFast ==>
                  && (r == Err(Placeholder) <==> !NoPlaceholders(cfg))
                  && (NoPlaceholders(cfg) && 0 !in ChainOf(d) ==> r.Ok?)
                  && (NoPlaceholders(cfg) && 0 in ChainOf(d) ==>
                        && (r == Err(GenesisMismatch) <==> Hash(ChainOf(d)[0].header) != Hash(BlockOf(cfg).header))
                        && (r == Err(ChainIdMismatch) <==> Hash(ChainOf(d)[0].header) == Hash(BlockOf(cfg).header)
                                                           && OtherChainId(d.chainId, cfg.chainId))
                        && r != Err(Storage)))
  {
  }

  // ----- Repeated boots ------------------------------------------------------------------------------------

  datatype Attempt = Attempt(cfg: GenesisConfig, policy: Policy)

  function Boots(d: Disk, attempts: seq<Attempt>): Disk {
    if attempts == [] then d else
    var last := attempts[|attempts| - 1];
    Boot(Boots(d, attempts[..|attempts| - 1]), last.cfg, last.policy).0
  }

  /** Whether a boot got as far as the chain id check. */
  predicate PassesGenesisCheck(d: Disk, a: Attempt) {
    HasGenesis(d) && (a.policy == AllowMismatch ||
                      (NoPlaceholders(a.cfg) && Hash(ChainOf(d)[0].header) == Hash(BlockOf(a.cfg).header)))
  }

  /**
   No later boot, accepted or not, changes the chain, the accounts or a stored chain id. Only a
   missing chain id is filled in, by the first boot that gets as far as checking it.
  */
  lemma {:induction false} LaterBootsKeepDisk(d: Disk, attempts: seq<Attempt>)
    requires HasGenesis(d)
    ensures Boots(d, attempts) == d.(chainId := Boots(d, attempts).chainId)
    ensures d.chainId.Some? ==> Boots(d, attempts) == d
    ensures d.chainId.None? ==>
              if forall i | 0 <= i < |attempts| :: !PassesGenesisCheck(d, attempts[i]) then Boots(d, attempts).chainId.None?
              else exists i | 0 <= i < |attempts| ::
                     && PassesGenesisCheck(d, attempts[i]) && (forall j | 0 <= j < i :: !PassesGenesisCheck(d, attempts[j]))
                     && Boots(d, attempts).chainId == Some(IdBytes(attempts[i].cfg.chainId))
  {
    if attempts != [] {
      var n := |attempts| - 1;
      var init := attempts[..n];
      LaterBootsKeepDisk(d, init);
      assert forall i | 0 <= i < n :: init[i] == attempts[i];
      var before := Boots(d, init);
      BootOnce(before, d, attempts[n]);
      if d.chainId.None? && (exists i | 0 <= i < n :: PassesGenesisCheck(d, init[i])) {
        var i :| 0 <= i < n && PassesGenesisCheck(d, init[i])
                 && (forall j | 0 <= j < i :: !PassesGenesisCheck(d, init[j]))
                 && before.chainId == Some(IdBytes(init[i].cfg.chainId));
        assert PassesGenesisCheck(d, attempts[i]);
      }
    }
  }

  lemma BootOnce(before: Disk, d: Disk, a: Attempt)
    requires HasGenesis(d) && before == d.(chainId := before.chainId)
    ensures var after := Boot(before, a.cfg, a.policy).0;
            after == before.(chainId := if before.chainId.None? && PassesGenesisCheck(d, a)
                                        then Some(IdBytes(a.cfg.chainId)) else before.chainId)
  {
    assert ChainOf(before) == ChainOf(d);
  }

  // ----- What the genesis does not depend on -----------------------------------------------------------------

  function WithoutCode(alloc: seq<Alloc>): seq<Alloc> {
    seq(|alloc|, (i: nat) requires i < |alloc| => alloc[i].(code := None))
  }

  /**
   Contract code in a configuration never reaches the chain: with all code taken out, and gas limit,
   base fee, extra data and validators replaced, the first boot writes the same disk.
  */
  lemma CodeNeverWritten(d: Disk, cfg: GenesisConfig, other: GenesisConfig)
    requires other.alloc == WithoutCode(cfg.alloc)
    requires other.timestamp == cfg.timestamp && other.chainId == cfg.chainId
    requires !HasGenesis(d)
    ensures Boot(d, cfg, AllowMismatch) == Boot(d, other, AllowMismatch)
    ensures SameGenesis(cfg, other)
  {
    assert AccountsOf(cfg.alloc) == AccountsOf(other.alloc);
  }

  // ----- The state behind the genesis root ----------------------------------------------------------------------

  /** The first boot writes no trie node: block 0 is complete only as far as the disk already was. */
  lemma GenesisStateNotWritten(reach: H256 -> set<H256>, d: Disk, cfg: GenesisConfig, policy: Policy)
    requires !HasGenesis(d) && Boot(d, cfg, policy).1.Ok?
    ensures var after := Boot(d, cfg, policy).0;
            && after.nodes == d.nodes && HasGenesis(after)
            && ChainOf(after)[0].header.stateRoot == StateRoot(LastWins(AccountsOf(cfg.alloc)))
            && (d.nodes == {} ==> (reach(ChainOf(after)[0].header.stateRoot) <= after.nodes <==>
                                   reach(StateRoot(LastWins(AccountsOf(cfg.alloc)))) == {}))
  {
    FirstBoot(d, cfg, policy);
  }

  /**
   From a first boot on an empty disk, with an executor that keeps its trie nodes to itself, no run
   ever has a trie node on disk, and neither block 0 nor any stored block has its state there unless
   its root reaches nothing.
  */
  lemma NoStateEverOnDisk(reach: H256 -> set<H256>, d: Disk, cfg: GenesisConfig, policy: Policy,
                          ex: Executor, n: Node, es: seq<PL.Event>)
    requires !HasGenesis(d) && d.nodes == {} && Boot(d, cfg, policy).1.Ok?
    requires n.disk == Boot(d, cfg, policy).0 && PL.HandsOverNothing(ex) && PL.LegalRun(ex, n, es)
    ensures PL.Run(ex, n, es).disk.nodes == {}
    ensures forall b | b in PL.StoredBy(ex, n, es) + {BlockOf(cfg)} ::
              reach(b.header.stateRoot) <= PL.Run(ex, n, es).disk.nodes <==> reach(b.header.stateRoot) == {}
  {
    GenesisStateNotWritten(reach, d, cfg, policy);
    PL.NothingHandedOver(reach, ex, n, es);
  }

  // ----- Where the runs begin -----------------------------------------------------------------------------------

  /**
   A node opened on a first boot's disk holds the ledger and the chain of the genesis block, so the
   laws about runs start from a real disk.
  */
  lemma BootedNodeHolds(d: Disk, cfg: GenesisConfig, policy: Policy, live: Option<RewardDistribution.ValidatorSet>, retained: seq<Retained>)
    requires d.numbers == map[] && Boot(d, cfg, policy).1.Ok?
    ensures var disk := Boot(d, cfg, policy).0;
            var n := Node(disk, disk.latest, live, retained);
            && Sequential.Holds(n, Sequential.Ledger([BlockOf(cfg)], disk.accounts, live, disk.staking, disk.gov, disk.proposalCounter))
            && ChainLaws.ChainOk(ChainLaws.System(n, {}), [BlockOf(cfg)])
  {
    assert !HasGenesis(d);
    FirstBoot(d, cfg, policy);
    var disk := Boot(d, cfg, policy).0;
    var n := Node(disk, disk.latest, live, retained);
    assert Sequential.HoldsBlock(disk, 0, BlockOf(cfg));
  }
}
