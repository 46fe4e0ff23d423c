/**
 Genesis: the block and accounts derived from a configuration, the first boot that writes them,
 and the checks every later boot makes against what is stored.
*/
module Genesis {
  import opened Types
  import opened Bytes
  import opened Blocks
  import opened Pipeline
  import opened Producer

  const CHAIN_ID: nat := 8989
  const BLOCK_GAS_LIMIT: nat := 30_000_000
  const GENESIS_BASE_FEE: nat := 1_000_000_000
  const ZERO_ADDRESS: Address := seq(20, _ => 0)

  /** "Zebvix Genesis". */
  const GENESIS_EXTRA_DATA: seq<byte> := [90, 101, 98, 118, 105, 120, 32, 71, 101, 110, 101, 115, 105, 115]

  datatype Policy = StrictFailFast | AllowMismatch

  datatype Alloc = Alloc(address: Address, balance: u128, nonce: u64, code: Option<string>)

  datatype GenesisConfig = GenesisConfig(
    chainId: u64,
    timestamp: u64,
    gasLimit: u64,
    baseFee: u64,
    extraData: string,
    alloc: seq<Alloc>,
    validators: seq<Address>)

  // ----- Placeholder addresses -------------------------------------------------------------------------

  predicate AllZero(bytes: seq<byte>) {
    forall i | 0 <= i < |bytes| :: bytes[i] == 0
  }

  predicate IsPlaceholder(a: Address) {
    AllZero(a) || AllZero(a[..18])
  }

  /** A mainnet configuration names no placeholder, neither as a validator nor as an account. */
  predicate NoPlaceholders(cfg: GenesisConfig) {
    cfg.chainId == CHAIN_ID ==>
      && (forall i | 0 <= i < |cfg.validators| :: !IsPlaceholder(cfg.validators[i]))
      && (forall i | 0 <= i < |cfg.alloc| :: !IsPlaceholder(cfg.alloc[i].address))
  }

  /** The address has something other than zero among its first 18 bytes. */
  ghost predicate HasEntropy(a: Address) {
    exists i | 0 <= i < 18 :: a[i] != 0
  }

  lemma PlaceholderIff(a: Address)
    ensures IsPlaceholder(a) <==> !HasEntropy(a)
  {
    if !AllZero(a[..18]) {
      var i :| 0 <= i < 18 && a[..18][i] != 0;
      assert a[i] != 0;
    } else {
      assert forall i | 0 <= i < 18 :: a[i] == a[..18][i];
    }
  }

  method ValidateNoPlaceholders(cfg: GenesisConfig) returns (ok: bool)
    ensures ok == NoPlaceholders(cfg)
    ensures ok == (cfg.chainId == 8989 ==>
                     && (forall i | 0 <= i < |cfg.validators| :: HasEntropy(cfg.validators[i]))
                     && (forall i | 0 <= i < |cfg.alloc| :: HasEntropy(cfg.alloc[i].address)))
  {
    forall a: Address ensures IsPlaceholder(a) <==> !HasEntropy(a) {
      PlaceholderIff(a);
    }
    if cfg.chainId != CHAIN_ID {
      return true;
    }
    for i := 0 to |cfg.validators|
      invariant forall j | 0 <= j < i :: !IsPlaceholder(cfg.validators[j])
    {
      if IsPlaceholder(cfg.validators[i]) {
        return false;
      }
    }
    for i := 0 to |cfg.alloc|
      invariant forall j | 0 <= j < i :: !IsPlaceholder(cfg.alloc[j].address)
    {
      if IsPlaceholder(cfg.alloc[i].address) {
        return false;
      }
    }
    ok := true;
  }

  // ----- Genesis block and accounts ---------------------------------------------------------------------

  type AccountList = seq<(Address, Account)>

  /** A later entry for the same address wins. */
  function LastWins(list: AccountList): Accounts {
    if list == [] then map[] else
    var last := list[|list| - 1];
    LastWins(list[..|list| - 1])[last.0 := last.1]
  }

  predicate IsEmptyAccount(a: Account) {
    a.nonce == 0 && a.balance == 0 && a.rest == []
  }

  function NonEmpty(accounts: Accounts): Accounts {
    map a | a in accounts && !IsEmptyAccount(accounts[a]) :: accounts[a]
  }

  /** The state trie leaves out empty accounts. */
  function StateRoot(accounts: Accounts): H256 {
    OfState(NonEmpty(accounts))
  }

  /** Balance and nonce only: the allocation's code and storage are not carried over. */
  function AccountOf(a: Alloc): (Address, Account) {
    (a.address, Account(a.nonce, a.balance, []))
  }

  function AccountsOf(alloc: seq<Alloc>): (list: AccountList)
    ensures |list| == |alloc|
  {
    seq(|alloc|, (i: nat) requires i < |alloc| => AccountOf(alloc[i]))
  }

  /** No later entry of the allocation is for the same address. */
  predicate IsLast(alloc: seq<Alloc>, i: nat)
    requires i < |alloc|
  {
    forall j | i < j < |alloc| :: alloc[j].address != alloc[i].address
  }

  predicate Listed(alloc: seq<Alloc>, a: Address) {
    exists i | 0 <= i < |alloc| :: alloc[i].address == a
  }

  /** The account is a plain one with the entry's balance and nonce. */
  predicate Holds(account: Account, entry: Alloc) {
    account.balance == entry.balance && account.nonce == entry.nonce && account.rest == []
  }

  /** Every listed address has its last entry, every other address what it had. */
  ghost predicate Allocated(before: Accounts, after: Accounts, alloc: seq<Alloc>) {
    && (forall i: nat | i < |alloc| && IsLast(alloc, i) ::
          alloc[i].address in after && Holds(after[alloc[i].address], alloc[i]))
    && forall a | !Listed(alloc, a) :: (a in after <==> a in before) && (a in after ==> after[a] == before[a])
  }

  /** The root commits to the last entries that are not empty, and to nothing else. */
  ghost predicate CommitsTo(root: H256, alloc: seq<Alloc>) {
    && root.OfState? && (forall a | a in root.state :: Listed(alloc, a))
    && forall i: nat | i < |alloc| && IsLast(alloc, i) ::
         && (alloc[i].address in root.state <==> alloc[i].balance != 0 || alloc[i].nonce != 0)
         && (alloc[i].address in root.state ==> Holds(root.state[alloc[i].address], alloc[i]))
  }

  /** Each address holds the value of its last entry. */
  lemma {:induction false} LastEntryWins(list: AccountList, a: Address)
    ensures a in LastWins(list) <==> exists i | 0 <= i < |list| :: list[i].0 == a
    ensures forall i | 0 <= i < |list| && list[i].0 == a && (forall j | i < j < |list| :: list[j].0 != a) ::
              a in LastWins(list) && LastWins(list)[a] == list[i].1
  {
    if list != [] {
      var init := list[..|list| - 1];
      LastEntryWins(init, a);
      assert forall i | 0 <= i < |init| :: init[i] == list[i];
      if a in LastWins(init) && a != list[|list| - 1].0 {
        var i :| 0 <= i < |init| && init[i].0 == a;
        assert list[i].0 == a;
      }
    }
  }

  lemma LastIsWritten(alloc: seq<Alloc>, i: nat)
    requires i < |alloc| && IsLast(alloc, i)
    ensures var m := LastWins(AccountsOf(alloc));
            alloc[i].address in m && Holds(m[alloc[i].address], alloc[i])
  {
    var list := AccountsOf(alloc);
    LastEntryWins(list, alloc[i].address);
    assert list[i] == AccountOf(alloc[i]);
    forall j | i < j < |list| ensures list[j].0 != alloc[i].address {
      assert list[j] == AccountOf(alloc[j]);
    }
  }

  lemma OnlyListedIsWritten(alloc: seq<Alloc>, a: Address)
    ensures a in LastWins(AccountsOf(alloc)) <==> Listed(alloc, a)
  {
    var list := AccountsOf(alloc);
    LastEntryWins(list, a);
    assert forall i | 0 <= i < |alloc| :: list[i] == AccountOf(alloc[i]);
    if Listed(alloc, a) {
      var i :| 0 <= i < |alloc| && alloc[i].address == a;
      assert list[i].0 == a;
    }
  }

  /** What a configuration's allocation means for the account table and for the root. */
  lemma AllocationRows(before: Accounts, alloc: seq<Alloc>)
    ensures Allocated(before, before + LastWins(AccountsOf(alloc)), alloc)
    ensures CommitsTo(StateRoot(LastWins(AccountsOf(alloc))), alloc)
  {
    forall a: Address ensures a in LastWins(AccountsOf(alloc)) <==> Listed(alloc, a) {
      OnlyListedIsWritten(alloc, a);
    }
    forall i: nat | i < |alloc| && IsLast(alloc, i)
      ensures var m := LastWins(AccountsOf(alloc)); alloc[i].address in m && Holds(m[alloc[i].address], alloc[i])
    {
      LastIsWritten(alloc, i);
    }
  }

  ghost predicate IsZeroHash(h: H256) {
    h.Raw? && |h.bytes| == 32 && forall i | 0 <= i < 32 :: h.bytes[i] == 0
  }

  /** The header of block 0: only the timestamp and the state root come from the configuration. */
  ghost predicate IsGenesisHeader(h: Header, cfg: GenesisConfig) {
    && h.number == h.gasUsed == h.epoch == 0 && h.timestamp == cfg.timestamp
    && h.gasLimit == 30_000_000 && h.baseFee == 1_000_000_000 && h.extraData == GENESIS_EXTRA_DATA
    && IsZeroHash(h.parentHash) && IsZeroHash(h.transactionsRoot) && IsZeroHash(h.receiptsRoot)
    && (forall i | 0 <= i < 20 :: h.coinbase[i] == 0)
    && |h.logsBloom| == 256 && (forall i | 0 <= i < 256 :: h.logsBloom[i] == 0)
    && h.epochSeed.None? && h.committeeSignature == []
    && CommitsTo(h.stateRoot, cfg.alloc)
  }

  function GenesisBlock(stateRoot: H256, timestamp: nat): Block {
    Block(Header(ZERO_HASH, ZERO_ADDRESS, stateRoot, ZERO_HASH, ZERO_HASH, seq(256, _ => 0), 0, BLOCK_GAS_LIMIT, 0,
                 timestamp, GENESIS_BASE_FEE, GENESIS_EXTRA_DATA, 0, None, []), [])
  }

  function BlockOf(cfg: GenesisConfig): Block {
    GenesisBlock(StateRoot(LastWins(AccountsOf(cfg.alloc))), cfg.timestamp)
  }

  method ComputeGenesisStateRoot(accounts: AccountList) returns (root: H256)
    ensures root == StateRoot(LastWins(accounts))
  {
    var m: Accounts := map[];
    for i := 0 to |accounts|
      invariant m == LastWins(accounts[..i])
    {
      assert accounts[..i + 1][..i] == accounts[..i];
      m := m[accounts[i].0 := accounts[i].1];
    }
    assert accounts[..|accounts|] == accounts;
    root := StateRoot(m);
  }

  method BuildGenesisBlock(cfg: GenesisConfig) returns (block: Block, accounts: AccountList)
    ensures accounts == AccountsOf(cfg.alloc) && block == BlockOf(cfg)
    ensures |accounts| == |cfg.alloc|
    ensures forall i | 0 <= i < |accounts| :: accounts[i].0 == cfg.alloc[i].address && Holds(accounts[i].1, cfg.alloc[i])
    ensures IsGenesisHeader(block.header, cfg) && block.txs == []
  {
    accounts := [];
    for i := 0 to |cfg.alloc|
      invariant accounts == AccountsOf(cfg.alloc)[..i]
      invariant forall j | 0 <= j < i :: accounts[j].0 == cfg.alloc[j].address && Holds(accounts[j].1, cfg.alloc[j])
    {
      var a := cfg.alloc[i];
      accounts := accounts + [(a.address, Account(a.nonce, a.balance, []))];
    }
    var root := ComputeGenesisStateRoot(accounts);
    AllocationRows(map[], cfg.alloc);
    block := GenesisBlock(root, cfg.timestamp);
  }

  // ----- Chain id metadata -------------------------------------------------------------------------------

  function IdBytes(chainId: u64): seq<byte> {
    ToBytes(chainId, 8)
  }

  /** What a stored value says the chain id is; a value that is not 8 bytes says nothing. */
  function StoredId(stored: Option<seq<byte>>): Option<nat> {
    if stored.Some? && |stored.value| == 8 then Some(FromBytes(stored.value)) else None
  }

  lemma StoredIdRoundTrip(chainId: u64)
    ensures StoredId(Some(IdBytes(chainId))) == Some(chainId)
  {
    assert Pow256(8) == U64_MAX + 1;
    BytesRoundTrip(chainId, 8);
  }

  // ----- Boot ---------------------------------------------------------------------------------------------

  datatype BootError = Placeholder | GenesisMismatch | ChainIdMismatch | Storage

  type BootResult = Result<(bool, H256), BootError>

  predicate HasGenesis(d: Disk) {
    0 in ChainOf(d)
  }

  function WithChainId(d: Disk, chainId: u64): Disk {
    d.(chainId := Some(IdBytes(chainId)))
  }

  function WriteGenesis(d: Disk, cfg: GenesisConfig): Disk {
    var stored := StoreBlock(d, BlockOf(cfg));
    WithChainId(stored.(accounts := stored.accounts + LastWins(AccountsOf(cfg.alloc))), cfg.chainId)
  }

  /** One boot on a working disk. */
  function Boot(d: Disk, cfg: GenesisConfig, policy: Policy): (Disk, BootResult) {
    var strict := policy == StrictFailFast;
    if strict && !NoPlaceholders(cfg) then (d, Err(Placeholder))
    else if !HasGenesis(d) then (WriteGenesis(d, cfg), Ok((true, Hash(BlockOf(cfg).header))))
    else
      var existing := Hash(ChainOf(d)[0].header);
      if strict && existing != Hash(BlockOf(cfg).header) then (d, Err(GenesisMismatch))
      else if strict && StoredId(d.chainId).Some? && StoredId(d.chainId).value != cfg.chainId then (d, Err(ChainIdMismatch))
      else (if d.chainId.None? then WithChainId(d, cfg.chainId) else d, Ok((false, existing)))
  }

  method PutMetadata(db: ZbxDb, chainId: u64) returns (ok: bool)
    modifies db`disk, db`calls
    ensures db.calls == old(db.calls) + 1 && (ok <==> !db.FaultIn(old(db.calls), db.calls))
    ensures db.disk == if ok then WithChainId(old(db.disk), chainId) else old(db.disk)
  {
    ok := db.Call();
    if ok {
      db.disk := db.disk.(chainId := Some(ToBytes(chainId, 8)));
    }
  }

  method GetChainId(db: ZbxDb) returns (r: Result<Option<seq<byte>>, ()>)
    modifies db`calls
    ensures db.calls == old(db.calls) + 1 && (r.Ok? <==> !db.FaultIn(old(db.calls), db.calls))
    ensures r.Ok? ==> r.value == db.disk.chainId
  {
    var ok := db.Call();
    r := if ok then Ok(db.disk.chainId) else Err(());
  }

  /** The write loop: afterwards the table holds the last entry of every listed address. */
  method PutGenesisAccounts(db: ZbxDb, accounts: AccountList) returns (ok: bool)
    modifies db`disk, db`calls
    ensures old(db.calls) <= db.calls && (ok <==> !db.FaultIn(old(db.calls), db.calls))
    ensures ok ==> db.disk == old(db.disk).(accounts := old(db.disk.accounts) + LastWins(accounts))
  {
    assert LastWins(accounts[..0]) == map[];
    assert db.disk.accounts + map[] == db.disk.accounts;
    for i := 0 to |accounts|
      invariant old(db.calls) <= db.calls && !db.FaultIn(old(db.calls), db.calls)
      invariant db.disk == old(db.disk).(accounts := old(db.disk.accounts) + LastWins(accounts[..i]))
    {
      assert accounts[..i + 1][..i] == accounts[..i];
      ok := db.PutAccount(accounts[i].0, accounts[i].1);
      if !ok {
        return;
      }
    }
    assert accounts[..|accounts|] == accounts;
    ok := true;
  }

  /** An accepted boot has a genesis block, reports its hash and whether it was written just now. */
  ghost predicate Reports(before: Disk, after: Disk, created: bool, hash: H256) {
    && created == (0 !in ChainOf(before))
    && 0 in ChainOf(after) && hash == Hash(ChainOf(after)[0].header)
    && (!created ==> ChainOf(after)[0] == ChainOf(before)[0] && after.accounts == before.accounts)
  }

  /** The first boot writes the allocation, block 0 on top of it, and the chain id. */
  ghost predicate Created(before: Disk, after: Disk, cfg: GenesisConfig) {
    && Allocated(before.accounts, after.accounts, cfg.alloc)
    && 0 in ChainOf(after) && IsGenesisHeader(ChainOf(after)[0].header, cfg) && ChainOf(after)[0].txs == []
    && after.latest == Some(0)
    && after.chainId.Some? && |after.chainId.value| == 8 && FromBytes(after.chainId.value) == cfg.chainId
    && after.nodes == before.nodes && after.staking == before.staking && after.gov == before.gov
  }

  lemma BootMeans(d: Disk, cfg: GenesisConfig, policy: Policy)
    requires Boot(d, cfg, policy).1.Ok?
    ensures var after, value := Boot(d, cfg, policy).0, Boot(d, cfg, policy).1.value;
            Reports(d, after, value.0, value.1) && (value.0 ==> Created(d, after, cfg))
  {
    AllocationRows(d.accounts, cfg.alloc);
    AllocationRows(map[], cfg.alloc);
    StoredIdRoundTrip(cfg.chainId);
    var after := Boot(d, cfg, policy).0;
    if HasGenesis(d) {
      assert ChainOf(after) == ChainOf(d);
    } else {
      assert ChainOf(after)[0] == BlockOf(cfg);
    }
  }

  /** The checks on an existing chain, after the placeholder check. */
  method CheckExisting(db: ZbxDb, cfg: GenesisConfig, policy: Policy, existing: Block, computed: Block) returns (r: BootResult)
    requires HasGenesis(db.disk) && existing == ChainOf(db.disk)[0] && computed == BlockOf(cfg)
    requires policy == StrictFailFast ==> NoPlaceholders(cfg)
    modifies db`disk, db`calls
    ensures old(db.calls) <= db.calls && (r == Err(Storage) <==> db.FaultIn(old(db.calls), db.calls))
    ensures r == Err(Storage) ==> db.disk == old(db.disk)
    ensures r != Err(Storage) ==> (db.disk, r) == Boot(old(db.disk), cfg, policy)
  {
    var existingHash := Hash(existing.header);
    var computedHash := Hash(computed.header);
    if existingHash != computedHash && policy != AllowMismatch {
      return Err(GenesisMismatch);
    }
    var read := GetChainId(db);
    if read.Err? {
      return Err(Storage);
    }
    if read.value.Some? {
      var stored := read.value.value;
      if |stored| == 8 && FromBytes(stored) != cfg.chainId && policy != AllowMismatch {
        return Err(ChainIdMismatch);
      }
    } else {
      var backfilled := PutMetadata(db, cfg.chainId);
      if !backfilled {
        return Err(Storage);
      }
    }
    r := Ok((false, existingHash));
  }

  /** Block, accounts, chain id. */
  method WriteFresh(db: ZbxDb, cfg: GenesisConfig, block: Block, accounts: AccountList) returns (ok: bool)
    requires accounts == AccountsOf(cfg.alloc) && block == BlockOf(cfg)
    modifies db
    ensures old(db.calls) <= db.calls && (ok <==> !db.FaultIn(old(db.calls), db.calls))
    ensures ok ==> db.disk == WriteGenesis(old(db.disk), cfg)
  {
    ok := db.PutBlock(block);
    if !ok {
      return;
    }
    ok := PutGenesisAccounts(db, accounts);
    if !ok {
      return;
    }
    ok := PutMetadata(db, cfg.chainId);
  }

  /**
   `bootstrap_into`: it fails for storage exactly when a storage call failed, which on an existing chain
   changes nothing; otherwise it is one boot.
  */
  method BootstrapInto(db: ZbxDb, cfg: GenesisConfig, policy: Policy) returns (r: BootResult)
    modifies db
    ensures old(db.calls) <= db.calls && (r == Err(Storage) <==> db.FaultIn(old(db.calls), db.calls))
    ensures r != Err(Storage) ==> (db.disk, r) == Boot(old(db.disk), cfg, policy)
    ensures r == Err(Storage) && HasGenesis(old(db.disk)) ==> db.disk == old(db.disk)
    ensures r.Ok? ==> Reports(old(db.disk), db.disk, r.value.0, r.value.1)
    ensures r.Ok? && r.value.0 ==> Created(old(db.disk), db.disk, cfg)
  {
    var valid := ValidateNoPlaceholders(cfg);
    if policy == StrictFailFast && !valid {
      return Err(Placeholder);
    }
    var read := db.GetBlockByNumber(0);
    if read.Err? {
      return Err(Storage);
    }
    ghost var d := db.disk;
    var block, accounts := BuildGenesisBlock(cfg);
    if read.value.Some? {
      r := CheckExisting(db, cfg, policy, read.value.value, block);
    } else {
      var written := WriteFresh(db, cfg, block, accounts);
      r := if written then Ok((true, Hash(block.header))) else Err(Storage);
    }
    if r.Ok? {
      BootMeans(d, cfg, policy);
    }
  }
}
