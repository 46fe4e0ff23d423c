/**
 The boot check that the vault registry has code in genesis, and what it leaves of the configurations
 that pass the placeholder check.
*/
module VaultGate {
  import opened Types
  import opened Pipeline
  import opened Genesis

  const VAULT_ADDRESS: Address := [0, 0, 0, 0, 0, 0, 0, 0, 0, 0, 0, 0, 0, 0, 0, 0, 0, 0, 0x54, 0x55]

  // ----- Text ------------------------------------------------------------------------------------------

  function HexDigit(n: nat): char
    requires n < 16
  {
    "0123456789abcdef"[n]
  }

  /** Two lower-case digits a byte. */
  function Hex(bytes: seq<byte>): (s: string)
    ensures |s| == 2 * |bytes|
  {
    if bytes == [] then "" else
    [HexDigit(bytes[0] as nat / 16), HexDigit(bytes[0] as nat % 16)] + Hex(bytes[1..])
  }

  /** `trim_start_matches("0x")` takes the prefix off as often as it is there. */
  function Strip0x(s: string): string {
    if "0x" <= s then Strip0x(s[2..]) else s
  }

  function LowerChar(c: char): char {
    if 'A' <= c <= 'Z' then (c as int + 32) as char else c
  }

  function Lower(s: string): (t: string)
    ensures |t| == |s| && forall i | 0 <= i < |s| :: t[i] == LowerChar(s[i])
  {
    if s == "" then "" else [LowerChar(s[0])] + Lower(s[1..])
  }

  /** Unicode white space. */
  predicate IsSpace(c: char) {
    var n := c as int;
    || 0x9 <= n <= 0xD || n == 0x20 || n == 0x85 || n == 0xA0 || n == 0x1680 || 0x2000 <= n <= 0x200A
    || n == 0x2028 || n == 0x2029 || n == 0x202F || n == 0x205F || n == 0x3000
  }

  function TrimStart(s: string): string {
    if s != "" && IsSpace(s[0]) then TrimStart(s[1..]) else s
  }

  function TrimEnd(s: string): string {
    if s != "" && IsSpace(s[|s| - 1]) then TrimEnd(s[..|s| - 1]) else s
  }

  function Normalized(address: string): string {
    Lower(Strip0x(address))
  }

  predicate IsHexDigit(c: char) {
    '0' <= c <= '9' || 'a' <= c <= 'f'
  }

  lemma HexDigitInjective(m: nat, n: nat)
    requires m < 16 && n < 16 && HexDigit(m) == HexDigit(n)
    ensures m == n
  {
  }

  lemma {:induction false} HexInjective(a: seq<byte>, b: seq<byte>)
    requires Hex(a) == Hex(b)
    ensures a == b
  {
    if a != [] && b != [] {
      assert Hex(a)[0] == Hex(b)[0] && Hex(a)[1] == Hex(b)[1];
      HexDigitInjective(a[0] as nat / 16, b[0] as nat / 16);
      HexDigitInjective(a[0] as nat % 16, b[0] as nat % 16);
      assert Hex(a)[2..] == Hex(a[1..]) && Hex(b)[2..] == Hex(b[1..]);
      HexInjective(a[1..], b[1..]);
      assert a == [a[0]] + a[1..] && b == [b[0]] + b[1..];
    }
  }

  lemma {:induction false} HexIsHexDigits(bytes: seq<byte>)
    ensures forall i | 0 <= i < |Hex(bytes)| :: IsHexDigit(Hex(bytes)[i])
  {
    if bytes != [] {
      HexIsHexDigits(bytes[1..]);
    }
  }

  /** Encoding and normalising an address keeps addresses apart: the digits hold no second prefix and no capital. */
  lemma NormalizedHex(bytes: seq<byte>)
    ensures Normalized("0x" + Hex(bytes)) == Hex(bytes)
  {
    var h := Hex(bytes);
    HexIsHexDigits(bytes);
    assert ("0x" + h)[2..] == h;
    assert "0x" <= h ==> h[1] == 'x' && !IsHexDigit('x');
    assert Strip0x("0x" + h) == h;
    assert forall i | 0 <= i < |h| :: LowerChar(h[i]) == h[i];
  }

  predicate AllSpace(s: string) {
    forall i | 0 <= i < |s| :: IsSpace(s[i])
  }

  /** "0x", any number of times. */
  predicate Prefixes(s: string) {
    |s| % 2 == 0 && forall i | 0 <= i < |s| :: s[i] == if i % 2 == 0 then '0' else 'x'
  }

  lemma OneMorePrefix(p: string)
    requires Prefixes(p)
    ensures Prefixes("0x" + p)
  {
    forall i | 0 <= i < |"0x" + p| ensures ("0x" + p)[i] == if i % 2 == 0 then '0' else 'x' {
      assert i >= 2 ==> ("0x" + p)[i] == p[i - 2];
    }
  }

  /** What is left does not start with the prefix, and what was taken off is nothing but prefixes. */
  lemma {:induction false} StripIs(s: string)
    ensures var r := Strip0x(s);
            !("0x" <= r) && |r| <= |s| && s[|s| - |r|..] == r && Prefixes(s[..|s| - |r|])
    decreases |s|
  {
    if "0x" <= s {
      StripIs(s[2..]);
      var k := |s[2..]| - |Strip0x(s)|;
      assert s[..k + 2] == s[..2] + s[2..][..k];
      OneMorePrefix(s[2..][..k]);
    }
  }

  lemma {:induction false} TrimStartIs(s: string)
    ensures var r := TrimStart(s);
            |r| <= |s| && s[|s| - |r|..] == r && AllSpace(s[..|s| - |r|]) && (r != "" ==> !IsSpace(r[0]))
  {
    if s != "" && IsSpace(s[0]) {
      TrimStartIs(s[1..]);
      var k := |s[1..]| - |TrimStart(s)|;
      assert s[..k + 1] == [s[0]] + s[1..][..k];
    }
  }

  lemma {:induction false} TrimEndIs(s: string)
    ensures var r := TrimEnd(s);
            |r| <= |s| && s[..|r|] == r && AllSpace(s[|r|..]) && (r != "" ==> !IsSpace(r[|r| - 1]))
  {
    if s != "" && IsSpace(s[|s| - 1]) {
      TrimEndIs(s[..|s| - 1]);
      var k := |TrimEnd(s)|;
      assert s[k..] == s[..|s| - 1][k..] + [s[|s| - 1]];
    }
  }

  /** Text that is space, prefixes, space, in this order. */
  ghost predicate Blank(text: string) {
    exists i, j :: 0 <= i <= j <= |text| && AllSpace(text[..i]) && Prefixes(text[i..j]) && AllSpace(text[j..])
  }

  // ----- The check -------------------------------------------------------------------------------------

  datatype ChainConfig = ChainConfig(vaultAddress: Option<string>, requireVaultGenesis: bool)

  datatype Warning = OverrideIgnored | NotDeployed

  type AllocText = seq<(string, Option<string>)>

  predicate HasCode(code: Option<string>) {
    code.Some? && Strip0x(TrimEnd(TrimStart(code.value))) != ""
  }

  /** There is code unless the text is blank. */
  lemma CodeIff(code: Option<string>)
    ensures HasCode(code) <==> code.Some? && !Blank(code.value)
  {
    if code.Some? {
      if Blank(code.value) {
        BlankIsStripped(code.value);
      } else if !HasCode(code) {
        StrippedIsBlank(code.value);
      }
    }
  }

  lemma StrippedIsBlank(text: string)
    requires Strip0x(TrimEnd(TrimStart(text))) == ""
    ensures Blank(text)
  {
    var front := TrimStart(text);
    var core := TrimEnd(front);
    TrimStartIs(text);
    TrimEndIs(front);
    StripIs(core);
    assert core[..|core|] == core;
    Parts(text, |text| - |front|, front, core);
  }

  lemma Parts(text: string, i: nat, front: string, core: string)
    requires i <= |text| && text[i..] == front && |core| <= |front| && front[..|core|] == core
    requires AllSpace(text[..i]) && Prefixes(core) && AllSpace(front[|core|..])
    ensures Blank(text)
  {
    var j := i + |core|;
    assert text[i..j] == core && text[j..] == front[|core|..];
  }

  lemma BlankIsStripped(text: string)
    requires Blank(text)
    ensures Strip0x(TrimEnd(TrimStart(text))) == ""
  {
    var i, j :| 0 <= i <= j <= |text| && AllSpace(text[..i]) && Prefixes(text[i..j]) && AllSpace(text[j..]);
    assert text == text[..i] + (text[i..j] + text[j..]);
    SpaceBefore(text[..i], text[i..j] + text[j..]);
    CoreIsStripped(text[i..j], text[j..]);
  }

  lemma CoreIsStripped(p: string, space: string)
    requires Prefixes(p) && AllSpace(space)
    ensures Strip0x(TrimEnd(TrimStart(p + space))) == ""
  {
    if p == "" {
      assert p + space == space + "";
      SpaceBefore(space, "");
    } else {
      assert (p + space)[0] == p[0] == '0' && !IsSpace('0');
      assert p[|p| - 1] == 'x' && !IsSpace('x');
      SpaceBehind(p, space);
      PrefixesGo(p);
    }
  }

  lemma {:induction false} SpaceBefore(space: string, s: string)
    requires AllSpace(space)
    ensures TrimStart(space + s) == TrimStart(s)
  {
    if space == "" {
      assert space + s == s;
    } else {
      assert (space + s)[1..] == space[1..] + s && (space + s)[0] == space[0];
      SpaceBefore(space[1..], s);
    }
  }

  lemma {:induction false} SpaceBehind(s: string, space: string)
    requires AllSpace(space)
    ensures TrimEnd(s + space) == TrimEnd(s)
  {
    if space == "" {
      assert s + space == s;
    } else {
      var k := |space| - 1;
      assert (s + space)[..|s + space| - 1] == s + space[..k] && (s + space)[|s + space| - 1] == space[k];
      SpaceBehind(s, space[..k]);
    }
  }

  lemma {:induction false} PrefixesGo(p: string)
    requires Prefixes(p)
    ensures Strip0x(p) == ""
    decreases |p|
  {
    if p != "" {
      assert p[0] == '0' && p[1] == 'x' && p[..2] == "0x";
      assert forall i | 0 <= i < |p| - 2 :: p[2..][i] == p[i + 2];
      PrefixesGo(p[2..]);
    }
  }

  /** The first allocation at the wanted address decides; later ones are not looked at. */
  ghost predicate DeployedAt(allocs: AllocText, want: string) {
    exists i | 0 <= i < |allocs| ::
      && Normalized(allocs[i].0) == want && HasCode(allocs[i].1)
      && forall j | 0 <= j < i :: Normalized(allocs[j].0) != want
  }

  /** The scan for the wanted address, which stops at the first hit. */
  method FindCode(allocs: AllocText, want: string) returns (foundCode: bool)
    ensures foundCode <==> DeployedAt(allocs, want)
  {
    foundCode := false;
    for i := 0 to |allocs|
      invariant !foundCode
      invariant forall j | 0 <= j < i :: Normalized(allocs[j].0) != want
    {
      var (address, code) := allocs[i];
      if Normalized(address) == want {
        if code.Some? {
          var text := Strip0x(TrimEnd(TrimStart(code.value)));
          if |text| != 0 {
            foundCode := true;
          }
        }
        assert foundCode <==> HasCode(allocs[i].1);
        break;
      }
    }
  }

  /** `assert_vault_genesis_or_warn`, for the registry at `vault`. */
  method AssertVaultGenesisOrWarn(chain: ChainConfig, isMainnet: bool, allocs: AllocText, vault: Address)
    returns (r: Result<bool, ()>, warnings: seq<Warning>)
    ensures r == if DeployedAt(allocs, Hex(vault)) then Ok(true)
                 else if isMainnet || chain.requireVaultGenesis then Err(()) else Ok(false)
    ensures NotDeployed in warnings <==> r == Ok(false)
    ensures OverrideIgnored in warnings <==> chain.vaultAddress.Some? && Normalized(chain.vaultAddress.value) != Hex(vault)
  {
    warnings := [];
    NormalizedHex(vault);
    var want := Normalized("0x" + Hex(vault));
    if chain.vaultAddress.Some? {
      var configured := Normalized(chain.vaultAddress.value);
      if configured != want {
        warnings := warnings + [OverrideIgnored];
      }
    }
    var foundCode := FindCode(allocs, want);
    if foundCode {
      return Ok(true), warnings;
    }
    if isMainnet || chain.requireVaultGenesis {
      return Err(()), warnings;
    }
    warnings := warnings + [NotDeployed];
    r := Ok(false);
  }

  // ----- The two gates -----------------------------------------------------------------------------------

  /** What boot hands to the check. */
  function AllocTextOf(alloc: seq<Alloc>): (t: AllocText)
    ensures |t| == |alloc|
  {
    seq(|alloc|, (i: nat) requires i < |alloc| => ("0x" + Hex(alloc[i].address), alloc[i].code))
  }

  /** The first allocation at `v` has code. */
  ghost predicate CodeAt(alloc: seq<Alloc>, v: Address) {
    exists i | 0 <= i < |alloc| ::
      alloc[i].address == v && HasCode(alloc[i].code)
      && forall j | 0 <= j < i :: alloc[j].address != v
  }

  ghost predicate VaultHasCode(alloc: seq<Alloc>) {
    CodeAt(alloc, VAULT_ADDRESS)
  }

  lemma SameAddressIff(a: Address, v: Address)
    ensures Normalized("0x" + Hex(a)) == Hex(v) <==> a == v
  {
    NormalizedHex(a);
    if Hex(a) == Hex(v) {
      HexInjective(a, v);
    }
  }

  /** The text comparison finds exactly the allocation at the address's bytes. */
  lemma DeployedIff(alloc: seq<Alloc>, v: Address)
    ensures DeployedAt(AllocTextOf(alloc), Hex(v)) <==> CodeAt(alloc, v)
  {
    var texts := AllocTextOf(alloc);
    forall i | 0 <= i < |alloc|
      ensures (Normalized(texts[i].0) == Hex(v) <==> alloc[i].address == v) && texts[i].1 == alloc[i].code
    {
      SameAddressIff(alloc[i].address, v);
    }
    SameHits(alloc, texts, v, Hex(v));
  }

  lemma SameHits(alloc: seq<Alloc>, texts: AllocText, v: Address, want: string)
    requires |texts| == |alloc|
    requires forall i | 0 <= i < |alloc| ::
      (Normalized(texts[i].0) == want <==> alloc[i].address == v) && texts[i].1 == alloc[i].code
    ensures DeployedAt(texts, want) <==> CodeAt(alloc, v)
  {
    if CodeAt(alloc, v) {
      var i :| 0 <= i < |alloc| && alloc[i].address == v && HasCode(alloc[i].code)
               && forall j | 0 <= j < i :: alloc[j].address != v;
      assert Normalized(texts[i].0) == want && HasCode(texts[i].1);
    }
    if DeployedAt(texts, want) {
      var i :| 0 <= i < |texts| && Normalized(texts[i].0) == want && HasCode(texts[i].1)
               && forall j | 0 <= j < i :: Normalized(texts[j].0) != want;
      assert alloc[i].address == v && HasCode(alloc[i].code);
    }
  }

  lemma VaultIsPlaceholder()
    ensures IsPlaceholder(VAULT_ADDRESS)
  {
    assert AllZero(VAULT_ADDRESS[..18]);
  }

  /**
   The mainnet vault check refuses every mainnet configuration that the placeholder check lets
   through. A genesis passes both exactly when it has vault code and some other chain id.
  */
  lemma GatesExcludeEachOther(cfg: GenesisConfig)
    ensures NoPlaceholders(cfg) && DeployedAt(AllocTextOf(cfg.alloc), Hex(VAULT_ADDRESS)) <==>
            cfg.chainId != CHAIN_ID && VaultHasCode(cfg.alloc)
  {
    DeployedIff(cfg.alloc, VAULT_ADDRESS);
    VaultIsPlaceholder();
  }

  /** So on mainnet's chain id no disk is ever strictly booted from a configuration that has its vault. */
  lemma StrictMainnetNeverBoots(d: Disk, cfg: GenesisConfig)
    requires cfg.chainId == CHAIN_ID && DeployedAt(AllocTextOf(cfg.alloc), Hex(VAULT_ADDRESS))
    ensures Boot(d, cfg, StrictFailFast) == (d, Err(Placeholder))
  {
    GatesExcludeEachOther(cfg);
  }

  /** What a mainnet node with its own genesis file does before it opens its database: load, then check the vault. */
  method CheckMainnetGenesis(chain: ChainConfig, cfg: GenesisConfig) returns (r: Result<(), ()>)
    ensures r.Ok? <==> cfg.chainId != CHAIN_ID && VaultHasCode(cfg.alloc)
  {
    var valid := ValidateNoPlaceholders(cfg);
    if !valid {
      return Err(());
    }
    var texts: AllocText := [];
    for i := 0 to |cfg.alloc|
      invariant texts == AllocTextOf(cfg.alloc)[..i]
    {
      texts := texts + [("0x" + Hex(cfg.alloc[i].address), cfg.alloc[i].code)];
    }
    assert texts == AllocTextOf(cfg.alloc);
    GatesExcludeEachOther(cfg);
    var vault, warnings := AssertVaultGenesisOrWarn(chain, true, texts, VAULT_ADDRESS);
    if vault.Err? {
      return Err(());
    }
    r := Ok(());
  }
}
