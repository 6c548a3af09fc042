/** The contents of a vault as a value: what each operation of `src/vault.rs` makes of them, and what
    every operation keeps. The class `Vault.Vault` changes the same contents in place. */
module VaultValue {
  import opened Prelude
  import opened Configuration

  const MAX_MASTERS: int := 32
  const MAX_ACCOUNTS: int := 128
  const MAX_RECIPIENTS: int := 256
  const INDEX_LIMIT: int := 0x8000_0000   // hardened indices are below 2^31

  // A stored recovery phrase (its entropy) and the next derivation index to hand out.
  datatype Master = Master(entropy: Bytes, next: u32)

  datatype Kind = Derived(master: nat, index: u32) | Imported(keypair: Bytes)

  datatype Account = Account(name: string, pubkey: Key32, kind: Kind)

  datatype Contents = Contents(
    settings: Settings,
    masters: seq<Master>,
    accounts: seq<Account>,
    recipients: seq<Key32>)

  datatype PhraseUse = ImportedKey | Shared | UnusedAfterDeletion

  datatype VaultError =
    | BadName | NameTaken | AccountLimit | MasterLimit
    | UnknownWallet | NoPhrase | BadReference | NotDerivable | BadKeypair | PhraseStillUsed

  // ---------------------------------------------------------------- well-formedness

  predicate EntropyLength(n: nat) { n in {16, 20, 24, 28, 32} }

  // Mnemonic::from_entropy followed by derive_signer
  function DeriveAddress(w: World, entropy: Bytes, index: nat): Option<Key32> {
    if EntropyLength(|entropy|) && index < INDEX_LIMIT then w.derive(entropy, index) else None
  }

  // Keypair::try_from
  function KeypairAddress(w: World, keypair: Bytes): Option<Key32> {
    if |keypair| == 64 then w.address(keypair) else None
  }

  predicate MasterOk(m: Master) { EntropyLength(|m.entropy|) && 1 <= m.next <= INDEX_LIMIT }

  predicate AccountOk(w: World, masters: seq<Master>, a: Account) {
    && ValidName(a.name)
    && match a.kind
       case Derived(m, i) => m < |masters| && i < INDEX_LIMIT && i < masters[m].next
       case Imported(k) => KeypairAddress(w, k) == Some(a.pubkey)
  }

  predicate DistinctNames(accounts: seq<Account>) {
    forall i, j :: 0 <= i < j < |accounts| ==> accounts[i].name != accounts[j].name
  }

  /** What `decode` enforces. */
  predicate Shape(w: World, c: Contents) {
    && |c.masters| <= MAX_MASTERS
    && (forall i :: 0 <= i < |c.masters| ==> MasterOk(c.masters[i]))
    && |c.accounts| <= MAX_ACCOUNTS
    && (forall i :: 0 <= i < |c.accounts| ==> AccountOk(w, c.masters, c.accounts[i]))
    && DistinctNames(c.accounts)
    && |c.recipients| <= MAX_RECIPIENTS
  }

  predicate References(c: Contents) {
    forall i :: 0 <= i < |c.accounts| && c.accounts[i].kind.Derived? ==> c.accounts[i].kind.master < |c.masters|
  }

  // The address the stored secret of an account really has
  function SignerAddress(w: World, masters: seq<Master>, a: Account): Option<Key32> {
    match a.kind
    case Derived(m, i) => if m < |masters| then DeriveAddress(w, masters[m].entropy, i) else None
    case Imported(k) => KeypairAddress(w, k)
  }

  // `signer` succeeds for every account
  predicate Keyed(w: World, c: Contents) {
    forall i :: 0 <= i < |c.accounts| ==> SignerAddress(w, c.masters, c.accounts[i]) == Some(c.accounts[i].pubkey)
  }

  predicate Inv(w: World, c: Contents) { Shape(w, c) && Keyed(w, c) }

  // ---------------------------------------------------------------- operations

  function Find(accounts: seq<Account>, name: string): (r: Option<nat>)
    ensures r.Some? ==> r.value < |accounts| && accounts[r.value].name == name
    ensures r.Some? ==> forall k :: 0 <= k < r.value ==> accounts[k].name != name
    ensures r.None? ==> forall k :: 0 <= k < |accounts| ==> accounts[k].name != name
  {
    if accounts == [] then None
    else if accounts[0].name == name then Some(0)
    else match Find(accounts[1..], name)
      case None => assert forall k :: 1 <= k < |accounts| ==> accounts[k] == accounts[1..][k - 1]; None
      case Some(i) => assert forall k :: 1 <= k <= i ==> accounts[k] == accounts[1..][k - 1]; Some(i + 1)
  }

  function NameError(c: Contents, name: string): Option<VaultError> {
    if !ValidName(name) then Some(BadName)
    else if Find(c.accounts, name).Some? then Some(NameTaken)
    else if |c.accounts| >= MAX_ACCOUNTS then Some(AccountLimit)
    else None
  }

  function AddMaster(w: World, c: Contents, name: string, entropy: Bytes): Result<Contents, VaultError> {
    var bad := NameError(c, name);
    if bad.Some? then Err(bad.value)
    else if |c.masters| >= MAX_MASTERS then Err(MasterLimit)
    else match DeriveAddress(w, entropy, 0)
      case None => Err(NotDerivable)
      case Some(pubkey) =>
        Ok(c.(masters := c.masters + [Master(entropy, 1)],
              accounts := c.accounts + [Account(name, pubkey, Derived(|c.masters|, 0))]))
  }

  /** The largest counter stored with any copy of a phrase; 0 when there is no copy. */
  function HighWater(masters: seq<Master>, entropy: Bytes): (n: u32)
    ensures forall k :: 0 <= k < |masters| && masters[k].entropy == entropy ==> masters[k].next <= n
    ensures n != 0 ==> exists k :: 0 <= k < |masters| && masters[k].entropy == entropy && masters[k].next == n
  {
    if masters == [] then 0
    else
      var front := masters[..|masters| - 1];
      var n := HighWater(front, entropy);
      var last := masters[|masters| - 1];
      assert forall k :: 0 <= k < |front| ==> front[k] == masters[k];
      if last.entropy == entropy && last.next > n then last.next else n
  }

  function Advance(masters: seq<Master>, entropy: Bytes, next: u32): (r: seq<Master>) {
    seq(|masters|, i requires 0 <= i < |masters| =>
      if masters[i].entropy == entropy then masters[i].(next := next) else masters[i])
  }

  function AddDerived(w: World, c: Contents, name: string, source: string): Result<Contents, VaultError> {
    var bad := NameError(c, name);
    if bad.Some? then Err(bad.value)
    else match Find(c.accounts, source)
      case None => Err(UnknownWallet)
      case Some(p) =>
        match c.accounts[p].kind
        case Imported(_) => Err(NoPhrase)
        case Derived(master, _) =>
          if master >= |c.masters| then Err(BadReference)
          else
            var entropy := c.masters[master].entropy;
            var next := HighWater(c.masters, entropy);
            match DeriveAddress(w, entropy, next)
            case None => Err(NotDerivable)
            case Some(pubkey) =>
              Ok(c.(masters := Advance(c.masters, entropy, next + 1),
                    accounts := c.accounts + [Account(name, pubkey, Derived(master, next))]))
  }

  function AddImported(w: World, c: Contents, name: string, keypair: Bytes): Result<Contents, VaultError> {
    var bad := NameError(c, name);
    if bad.Some? then Err(bad.value)
    else match KeypairAddress(w, keypair)
      case None => Err(BadKeypair)
      case Some(pubkey) => Ok(c.(accounts := c.accounts + [Account(name, pubkey, Imported(keypair))]))
  }

  predicate UsesPhrase(c: Contents, a: Account, entropy: Bytes) {
    a.kind.Derived? && a.kind.master < |c.masters| && c.masters[a.kind.master].entropy == entropy
  }

  function RecoveryPhraseUse(c: Contents, name: string): Result<PhraseUse, VaultError>
    requires References(c)
  {
    match Find(c.accounts, name)
    case None => Err(UnknownWallet)
    case Some(p) =>
      match c.accounts[p].kind
      case Imported(_) => Ok(ImportedKey)
      case Derived(m, _) =>
        if exists k :: 0 <= k < |c.accounts| && c.accounts[k].name != name
                       && UsesPhrase(c, c.accounts[k], c.masters[m].entropy)
        then Ok(Shared) else Ok(UnusedAfterDeletion)
  }

  /** The masters that hold another phrase, in order. */
  function Without(masters: seq<Master>, entropy: Bytes): (r: seq<Master>)
    ensures |r| <= |masters|
    ensures forall k :: 0 <= k < |r| ==> r[k].entropy != entropy && r[k] in masters
  {
    if masters == [] then []
    else (if masters[0].entropy == entropy then [] else [masters[0]]) + Without(masters[1..], entropy)
  }

  function Rebase(masters: seq<Master>, entropy: Bytes, a: Account): Account {
    match a.kind
    case Derived(m, i) =>
      if m <= |masters| then a.(kind := Derived(|Without(masters[..m], entropy)|, i)) else a
    case Imported(_) => a
  }

  // The contents without the wallet at `p`, and with `erase` without its phrase.
  function DeleteAt(c: Contents, p: nat, erase: bool): Contents
    requires p < |c.accounts| && References(c)
  {
    var rest := c.accounts[..p] + c.accounts[p + 1..];
    if erase && c.accounts[p].kind.Derived? then
      var entropy := c.masters[c.accounts[p].kind.master].entropy;
      c.(masters := Without(c.masters, entropy),
         accounts := seq(|rest|, i requires 0 <= i < |rest| => Rebase(c.masters, entropy, rest[i])))
    else c.(accounts := rest)
  }

  function RemoveAccount(c: Contents, name: string, erase: bool): Result<Contents, VaultError>
    requires References(c)
  {
    match RecoveryPhraseUse(c, name)
    case Err(e) => Err(e)
    case Ok(usage) =>
      if erase && usage != UnusedAfterDeletion then Err(PhraseStillUsed)
      else Ok(DeleteAt(c, Find(c.accounts, name).value, erase))
  }

  function Remember(c: Contents, key: Key32): Contents {
    if key !in c.recipients && |c.recipients| < MAX_RECIPIENTS
    then c.(recipients := c.recipients + [key]) else c
  }

  // ---------------------------------------------------------------- edits and histories

  datatype Edit =
    | EditMaster(name: string, entropy: Bytes)
    | EditDerived(name: string, source: string)
    | EditImported(name: string, keypair: Bytes)
    | EditRemove(name: string, erase: bool)
    | EditRemember(key: Key32)
    | EditSettings(settings: Settings)

  /** The contents after an edit; an edit that fails leaves them as they were. */
  function Apply(w: World, c: Contents, e: Edit): Contents
    requires References(c)
  {
    match e
    case EditMaster(n, s) => (match AddMaster(w, c, n, s) case Ok(d) => d case Err(_) => c)
    case EditDerived(n, s) => (match AddDerived(w, c, n, s) case Ok(d) => d case Err(_) => c)
    case EditImported(n, k) => (match AddImported(w, c, n, k) case Ok(d) => d case Err(_) => c)
    case EditRemove(n, x) => (match RemoveAccount(c, n, x) case Ok(d) => d case Err(_) => c)
    case EditRemember(k) => Remember(c, k)
    case EditSettings(s) => c.(settings := s)
  }

  const EMPTY: Contents := Contents(DEFAULT_SETTINGS, [], [], [])

  // Each edit is its operation, and a failing one changes nothing.
  lemma EditsAreOperations(w: World, c: Contents, d: Contents, name: string, from: string, secret: Bytes, erase: bool, s: Settings)
    requires References(c)
    ensures AddMaster(w, c, name, secret) == Ok(d) ==> Apply(w, c, EditMaster(name, secret)) == d
    ensures AddDerived(w, c, name, from) == Ok(d) ==> Apply(w, c, EditDerived(name, from)) == d
    ensures AddImported(w, c, name, secret) == Ok(d) ==> Apply(w, c, EditImported(name, secret)) == d
    ensures RemoveAccount(c, name, erase) == Ok(d) ==> Apply(w, c, EditRemove(name, erase)) == d
    ensures Apply(w, c, EditSettings(s)) == Contents(s, c.masters, c.accounts, c.recipients)
  {
  }

  /** Edits never break the invariant: names stay distinct and valid, references and counters stay in
      range, and every account's secret still has the stored address. */
  lemma EditKeepsInvariant(w: World, c: Contents, e: Edit)
    requires Inv(w, c)
    ensures Inv(w, Apply(w, c, e))
  {
    match e
    case EditMaster(n, s) => if AddMaster(w, c, n, s).Ok? { MasterKeepsInvariant(w, c, n, s); }
    case EditDerived(n, s) => if AddDerived(w, c, n, s).Ok? { DerivedKeepsInvariant(w, c, n, s); }
    case EditImported(n, k) =>
    case EditRemove(n, x) => if RemoveAccount(c, n, x).Ok? { RemoveKeepsInvariant(w, c, n, x); }
    case EditRemember(k) =>
    case EditSettings(s) =>
  }

  lemma MasterKeepsInvariant(w: World, c: Contents, name: string, entropy: Bytes)
    requires Inv(w, c) && AddMaster(w, c, name, entropy).Ok?
    ensures Inv(w, AddMaster(w, c, name, entropy).value)
  {
    var d := AddMaster(w, c, name, entropy).value;
    assert forall i :: 0 <= i < |c.accounts| ==> AccountOk(w, c.masters, c.accounts[i]);
  }

  lemma DerivedKeepsInvariant(w: World, c: Contents, name: string, source: string)
    requires Inv(w, c) && AddDerived(w, c, name, source).Ok?
    ensures Inv(w, AddDerived(w, c, name, source).value)
  {
    var d := AddDerived(w, c, name, source).value;
    forall i | 0 <= i < |d.accounts|
      ensures AccountOk(w, d.masters, d.accounts[i])
      ensures SignerAddress(w, d.masters, d.accounts[i]) == Some(d.accounts[i].pubkey)
    {
      if i < |c.accounts| {
        assert AccountOk(w, c.masters, c.accounts[i]);
      }
    }
  }

  /** `d` is `c` and one more wallet, at the end: earlier wallets, phrases, recipients and settings stay,
      no counter falls, and the new wallet's secret has its address. */
  ghost predicate AddedExactly(w: World, c: Contents, name: string, d: Contents) {
    && |d.accounts| == |c.accounts| + 1 && d.accounts[..|c.accounts|] == c.accounts
    && d.settings == c.settings && d.recipients == c.recipients
    && |c.masters| <= |d.masters|
    && (forall k :: 0 <= k < |c.masters| ==>
          d.masters[k].entropy == c.masters[k].entropy && c.masters[k].next <= d.masters[k].next)
    && var a := d.accounts[|c.accounts|];
    && a.name == name && (forall k :: 0 <= k < |c.accounts| ==> c.accounts[k].name != name)
    && SignerAddress(w, d.masters, a) == Some(a.pubkey)
  }

  lemma MasterIsAdded(w: World, c: Contents, name: string, entropy: Bytes)
    requires Inv(w, c) && AddMaster(w, c, name, entropy).Ok?
    ensures var d := AddMaster(w, c, name, entropy).value;
      && AddedExactly(w, c, name, d)
      && |d.masters| == |c.masters| + 1 && d.masters[|c.masters|] == Master(entropy, 1)
      && UsesPhrase(d, d.accounts[|c.accounts|], entropy) && d.accounts[|c.accounts|].kind.index == 0
  {
  }

  /** A derived wallet shares its source's phrase; its index is above every index in use for that phrase,
      and every copy of the phrase now counts past it, while other phrases keep their counters. */
  lemma DerivedIsAdded(w: World, c: Contents, name: string, source: string)
    requires Inv(w, c) && AddDerived(w, c, name, source).Ok?
    ensures var d := AddDerived(w, c, name, source).value; var a := d.accounts[|c.accounts|];
      && AddedExactly(w, c, name, d)
      && |d.masters| == |c.masters| && a.kind.Derived? && a.kind.master < |d.masters|
      && var entropy := d.masters[a.kind.master].entropy;
      && (exists p :: 0 <= p < |c.accounts| && c.accounts[p].name == source && UsesPhrase(c, c.accounts[p], entropy))
      && (forall k :: 0 <= k < |c.accounts| && UsesPhrase(c, c.accounts[k], entropy) ==> c.accounts[k].kind.index < a.kind.index)
      && (forall k :: 0 <= k < |d.masters| ==>
            d.masters[k].next == if d.masters[k].entropy == entropy then a.kind.index + 1 else c.masters[k].next)
  {
    hide HighWater;
    var p := Find(c.accounts, source).value;
    assert UsesPhrase(c, c.accounts[p], c.masters[c.accounts[p].kind.master].entropy);
    assert forall k :: 0 <= k < |c.accounts| ==> AccountOk(w, c.masters, c.accounts[k]);
  }

  lemma ImportedIsAdded(w: World, c: Contents, name: string, keypair: Bytes)
    requires Inv(w, c) && AddImported(w, c, name, keypair).Ok?
    ensures var d := AddImported(w, c, name, keypair).value;
      AddedExactly(w, c, name, d) && d.masters == c.masters && d.accounts[|c.accounts|].kind == Imported(keypair)
  {
  }

  // ---------------------------------------------------------------- when adding succeeds

  // The name is new and valid, and there is room for another wallet.
  predicate NameIsFree(c: Contents, name: string) {
    && ValidName(name) && |c.accounts| < MAX_ACCOUNTS
    && forall k :: 0 <= k < |c.accounts| ==> c.accounts[k].name != name
  }

  lemma NameErrorIff(c: Contents, name: string)
    ensures NameError(c, name) ==
      if !ValidName(name) then Some(BadName)
      else if exists k :: 0 <= k < |c.accounts| && c.accounts[k].name == name then Some(NameTaken)
      else if |c.accounts| >= MAX_ACCOUNTS then Some(AccountLimit)
      else None
    ensures NameError(c, name) == None <==> NameIsFree(c, name)
  {
  }

  /** A phrase is added exactly when the name is free, there is room for another phrase, and its entropy has
      a legal length and derives an address at index 0. */
  lemma MasterIsAddedIff(w: World, c: Contents, name: string, entropy: Bytes)
    ensures AddMaster(w, c, name, entropy).Ok? <==>
      && NameIsFree(c, name) && |c.masters| < MAX_MASTERS
      && |entropy| in {16, 20, 24, 28, 32} && w.derive(entropy, 0).Some?
  {
    NameErrorIff(c, name);
  }

  /** A wallet is derived exactly when the name is free, the source exists and comes from a phrase, and the
      phrase derives an address at `next`, the largest counter of its copies, which must be below 2^31. */
  lemma DerivedIsAddedIff(w: World, c: Contents, name: string, source: string, p: nat)
    requires Inv(w, c) && p < |c.accounts| && c.accounts[p].name == source
    ensures AddDerived(w, c, name, source).Ok? <==>
      && NameIsFree(c, name) && c.accounts[p].kind.Derived?
      && exists next: nat ::
           && IsCounter(c, c.accounts[p], next)
           && next < 0x8000_0000 && w.derive(c.masters[c.accounts[p].kind.master].entropy, next).Some?
  {
    hide HighWater, Keyed;
    NameErrorIff(c, name);
    OnlyOneByName(c.accounts, p);
    assert AccountOk(w, c.masters, c.accounts[p]);
    if c.accounts[p].kind.Derived? {
      var m := c.accounts[p].kind.master;
      assert MasterOk(c.masters[m]);
      var n := HighWater(c.masters, c.masters[m].entropy);
      assert IsCounter(c, c.accounts[p], n);
      forall next: nat | IsCounter(c, c.accounts[p], next) ensures next == n {
      }
    }
  }

  // The largest counter stored with any copy of the account's phrase
  ghost predicate IsCounter(c: Contents, a: Account, next: nat) {
    && a.kind.Derived? && a.kind.master < |c.masters|
    && var entropy := c.masters[a.kind.master].entropy;
    && (exists k :: 0 <= k < |c.masters| && c.masters[k].entropy == entropy && c.masters[k].next == next)
    && (forall k :: 0 <= k < |c.masters| && c.masters[k].entropy == entropy ==> c.masters[k].next <= next)
  }

  lemma UnknownSource(w: World, c: Contents, name: string, source: string)
    requires forall k :: 0 <= k < |c.accounts| ==> c.accounts[k].name != source
    ensures AddDerived(w, c, name, source).Err?
  {
  }

  lemma ImportedIsAddedIff(w: World, c: Contents, name: string, keypair: Bytes)
    ensures AddImported(w, c, name, keypair).Ok? <==> NameIsFree(c, name) && |keypair| == 64 && w.address(keypair).Some?
  {
    NameErrorIff(c, name);
  }

  /** A recipient is added at the end exactly when it is new and there is room; otherwise nothing changes. */
  lemma RememberIff(c: Contents, key: Key32)
    ensures Remember(c, key) ==
      if (forall k :: 0 <= k < |c.recipients| ==> c.recipients[k] != key) && |c.recipients| < 256
      then Contents(c.settings, c.masters, c.accounts, c.recipients + [key]) else c
  {
  }

  // ---------------------------------------------------------------- removal

  lemma {:induction false} WithoutAppend(a: seq<Master>, b: seq<Master>, entropy: Bytes)
    ensures Without(a + b, entropy) == Without(a, entropy) + Without(b, entropy)
  {
    if a == [] {
      assert a + b == b;
    } else {
      assert (a + b)[1..] == a[1..] + b;
      WithoutAppend(a[1..], b, entropy);
    }
  }

  // A kept master moves down by the number of erased masters before it.
  lemma WithoutAt(masters: seq<Master>, entropy: Bytes, k: nat)
    requires k < |masters| && masters[k].entropy != entropy
    ensures |Without(masters[..k], entropy)| < |Without(masters, entropy)|
    ensures Without(masters, entropy)[|Without(masters[..k], entropy)|] == masters[k]
  {
    assert masters == masters[..k] + masters[k..];
    WithoutAppend(masters[..k], masters[k..], entropy);
  }

  lemma {:induction false} WithoutKeepsOthers(masters: seq<Master>, entropy: Bytes, m: Master)
    requires m.entropy != entropy
    ensures multiset(Without(masters, entropy))[m] == multiset(masters)[m]
  {
    if masters != [] {
      WithoutKeepsOthers(masters[1..], entropy, m);
      assert masters == [masters[0]] + masters[1..];
      assert Without(masters, entropy)
        == (if masters[0].entropy == entropy then [] else [masters[0]]) + Without(masters[1..], entropy);
    }
  }

  /** `after` is `before` with every copy of the phrase gone and every other master still there. */
  ghost predicate ErasedExactly(before: seq<Master>, after: seq<Master>, entropy: Bytes) {
    && (forall m :: m in after ==> m.entropy != entropy)
    && (forall m: Master :: m.entropy != entropy ==> multiset(after)[m] == multiset(before)[m])
  }

  ghost predicate SameWallet(c: Contents, a: Account, d: Contents, b: Account) {
    && a.name == b.name && a.pubkey == b.pubkey
    && match a.kind
       case Imported(_) => a.kind == b.kind
       case Derived(m, i) =>
         && b.kind.Derived? && b.kind.index == i
         && m < |c.masters| && b.kind.master < |d.masters|
         && c.masters[m].entropy == d.masters[b.kind.master].entropy
         && c.masters[m].next == d.masters[b.kind.master].next
  }

  lemma RebaseKeepsWallet(c: Contents, entropy: Bytes, a: Account, d: Contents)
    requires a.kind.Derived? ==> a.kind.master < |c.masters|
    requires !UsesPhrase(c, a, entropy)
    requires d.masters == Without(c.masters, entropy)
    ensures SameWallet(c, a, d, Rebase(c.masters, entropy, a))
  {
    if a.kind.Derived? {
      WithoutAt(c.masters, entropy, a.kind.master);
    }
  }

  /** `d` is `c` without the wallet at `p`: survivors keep order, name, address, phrase and index. With
      `erase` every copy of that wallet's phrase goes and no other; without it the masters stay. */
  ghost predicate RemovedExactly(c: Contents, p: nat, erase: bool, d: Contents)
    requires p < |c.accounts|
  {
    && |d.accounts| == |c.accounts| - 1
    && (forall k :: 0 <= k < |d.accounts| ==>
          SameWallet(c, c.accounts[if k < p then k else k + 1], d, d.accounts[k]))
    && d.settings == c.settings && d.recipients == c.recipients
    && (if !erase then d.masters == c.masters
        else
          var kind := c.accounts[p].kind;
          && kind.Derived? && kind.master < |c.masters|
          && ErasedExactly(c.masters, d.masters, c.masters[kind.master].entropy))
  }

  // No other wallet comes from the recovery phrase of the one at `p`.
  predicate Alone(c: Contents, p: nat)
    requires References(c) && p < |c.accounts|
  {
    && c.accounts[p].kind.Derived?
    && forall k :: 0 <= k < |c.accounts| && k != p && c.accounts[k].kind.Derived? ==>
         c.masters[c.accounts[k].kind.master].entropy != c.masters[c.accounts[p].kind.master].entropy
  }

  lemma OnlyOneByName(accounts: seq<Account>, p: nat)
    requires DistinctNames(accounts) && p < |accounts|
    ensures Find(accounts, accounts[p].name) == Some(p)
  {
  }

  /** What is said of a wallet's phrase: no phrase, used elsewhere, or not used elsewhere. */
  lemma PhraseUseIff(c: Contents, p: nat)
    requires References(c) && DistinctNames(c.accounts) && p < |c.accounts|
    ensures var use := RecoveryPhraseUse(c, c.accounts[p].name);
      && (use == Ok(ImportedKey) <==> c.accounts[p].kind.Imported?)
      && (use == Ok(UnusedAfterDeletion) <==> Alone(c, p))
      && (use == Ok(Shared) <==> c.accounts[p].kind.Derived? && !Alone(c, p))
  {
    OnlyOneByName(c.accounts, p);
    if c.accounts[p].kind.Derived? {
      var entropy := c.masters[c.accounts[p].kind.master].entropy;
      forall k | 0 <= k < |c.accounts| && k != p
        ensures c.accounts[k].name != c.accounts[p].name
      {
      }
      if !Alone(c, p) {
        var k :| 0 <= k < |c.accounts| && k != p && c.accounts[k].kind.Derived?
          && c.masters[c.accounts[k].kind.master].entropy == entropy;
        assert c.accounts[k].name != c.accounts[p].name && UsesPhrase(c, c.accounts[k], entropy);
      }
    }
  }

  /** Deletion succeeds exactly when the wallet exists and, with `erase`, is derived from a phrase that no
      other wallet comes from; it then removes that wallet only. (On an error the contents stay as they were:
      `Vault.RemoveAccount`.) */
  lemma RemoveIsExact(c: Contents, name: string, erase: bool)
    requires References(c) && DistinctNames(c.accounts)
    ensures RemoveAccount(c, name, erase).Ok? <==>
              exists p :: 0 <= p < |c.accounts| && c.accounts[p].name == name && (erase ==> Alone(c, p))
    ensures var r := RemoveAccount(c, name, erase);
      r.Err? ==> r.error == if Find(c.accounts, name).Some? then PhraseStillUsed else UnknownWallet
    ensures RemoveAccount(c, name, erase).Ok? ==>
              RemovedExactly(c, Find(c.accounts, name).value, erase, RemoveAccount(c, name, erase).value)
  {
    hide RecoveryPhraseUse, Alone, RemovedExactly, DeleteAt;
    NoSuchWallet(c, name);
    if Find(c.accounts, name).Some? {
      var p := Find(c.accounts, name).value;
      PhraseUseIff(c, p);
      forall k | 0 <= k < |c.accounts| && k != p
        ensures c.accounts[k].name != name
      {
      }
      if erase && Alone(c, p) { AloneUsesPhrase(c, p); }
      if erase ==> Alone(c, p) { DeleteIsExact(c, p, erase); }
    }
  }

  lemma NoSuchWallet(c: Contents, name: string)
    requires References(c)
    ensures Find(c.accounts, name).None? <==> RecoveryPhraseUse(c, name) == Err(UnknownWallet)
    ensures Find(c.accounts, name).Some? <==> RecoveryPhraseUse(c, name).Ok?
  {
  }

  lemma AloneUsesPhrase(c: Contents, p: nat)
    requires References(c) && p < |c.accounts| && Alone(c, p)
    ensures c.accounts[p].kind.Derived?
    ensures forall k :: 0 <= k < |c.accounts| && k != p ==>
              !UsesPhrase(c, c.accounts[k], c.masters[c.accounts[p].kind.master].entropy)
  {
  }

  lemma DeleteIsExact(c: Contents, p: nat, erase: bool)
    requires References(c) && p < |c.accounts|
    requires erase ==> c.accounts[p].kind.Derived?
    requires erase ==> forall k :: 0 <= k < |c.accounts| && k != p ==>
               !UsesPhrase(c, c.accounts[k], c.masters[c.accounts[p].kind.master].entropy)
    ensures RemovedExactly(c, p, erase, DeleteAt(c, p, erase))
  {
    var d := DeleteAt(c, p, erase);
    var rest := c.accounts[..p] + c.accounts[p + 1..];
    forall k | 0 <= k < |rest|
      ensures SameWallet(c, c.accounts[if k < p then k else k + 1], d, d.accounts[k])
    {
      var j := if k < p then k else k + 1;
      assert rest[k] == c.accounts[j];
      if erase {
        RebaseKeepsWallet(c, c.masters[c.accounts[p].kind.master].entropy, rest[k], d);
      }
    }
    if erase {
      var entropy := c.masters[c.accounts[p].kind.master].entropy;
      forall m: Master | m.entropy != entropy
        ensures multiset(d.masters)[m] == multiset(c.masters)[m]
      {
        WithoutKeepsOthers(c.masters, entropy, m);
      }
    }
  }

  lemma ShapeHasReferences(w: World, c: Contents)
    requires Shape(w, c)
    ensures References(c)
  {
    assert forall i :: 0 <= i < |c.accounts| ==> AccountOk(w, c.masters, c.accounts[i]);
  }

  lemma RemoveKeepsInvariant(w: World, c: Contents, name: string, erase: bool)
    requires Inv(w, c) && RemoveAccount(c, name, erase).Ok?
    ensures Inv(w, RemoveAccount(c, name, erase).value)
  {
    ShapeHasReferences(w, c);
    RemoveIsExact(c, name, erase);
    var d, p := RemoveAccount(c, name, erase).value, Find(c.accounts, name).value;
    forall k | 0 <= k < |d.accounts|
      ensures AccountOk(w, d.masters, d.accounts[k])
      ensures SignerAddress(w, d.masters, d.accounts[k]) == Some(d.accounts[k].pubkey)
    {
      var j := if k < p then k else k + 1;
      assert SameWallet(c, c.accounts[j], d, d.accounts[k]);
      assert AccountOk(w, c.masters, c.accounts[j]);
    }
    forall i | 0 <= i < |d.masters|
      ensures MasterOk(d.masters[i])
    {
      assert d.masters[i] in c.masters;
    }
  }
}
