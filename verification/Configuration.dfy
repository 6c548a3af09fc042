/** The persisted settings, their validity rules, and the library code the vault relies on. */
module Configuration {
  import opened Prelude
  import opened Utf8

  datatype Mode = Cli | Ui

  datatype RpcSettings = RpcSettings(
    url: Option<string>,
    cluster: string,
    pin: Option<string>,   // expected_genesis_hash
    timeout: u64,
    showBalances: bool)

  datatype SecuritySettings = SecuritySettings(
    confirm: bool,
    showDetails: bool,
    simulate: bool,
    showSimulation: bool,
    optimizeCompute: bool,
    margin: byte,
    cacheUnlocked: bool)

  datatype HistorySettings = HistorySettings(
    fetchOnStart: bool,
    interval: Option<u64>,
    wallets: seq<string>,
    limit: u64)

  datatype Settings = Settings(
    mode: Mode,
    rpc: RpcSettings,
    security: SecuritySettings,
    history: HistorySettings,
    aliases: map<string, seq<string>>)

  // A configuration is the persisted settings plus the launch-only vault locator.
  datatype Config = Config(locator: string, settings: Settings)

  const DEFAULT_SETTINGS: Settings := Settings(
    Cli,
    RpcSettings(None, "mainnet", None, 15, false),
    SecuritySettings(true, true, true, true, true, 10, false),
    HistorySettings(false, None, [], 10),
    map[])

  datatype Url = Url(scheme: string, host: Option<string>, username: string, password: bool)

  /** Library code the program calls and this model does not open. Key derivation from the vault
      password is `kdf`, for the one password of the vault; `derive` maps recovery-phrase entropy
      and a hardened index to an address; `address` checks a 64-byte keypair. */
  datatype World = World(
    derive: (Bytes, nat) -> Option<Key32>,
    address: Bytes -> Option<Key32>,
    toJson: Settings -> Bytes,
    fromJson: Bytes -> Option<Settings>,
    hashOk: string -> bool,
    parseUrl: string -> Option<Url>,
    kdf: Bytes -> Bytes,
    encrypt: (Bytes, Bytes, Bytes, Bytes) -> Bytes,          // key, nonce, header, plain
    decrypt: (Bytes, Bytes, Bytes, Bytes) -> Option<Bytes>)  // key, nonce, header, cipher
  {
    /** All that is used of the JSON library and of the authenticated cipher. */
    ghost predicate Lawful() {
      && (forall s: Settings :: toJson(s) != [] && fromJson(toJson(s)) == Some(s))
      && (forall k: Bytes, n: Bytes, h: Bytes, p: Bytes ::
            && |encrypt(k, n, h, p)| == |p| + 16
            && decrypt(k, n, h, encrypt(k, n, h, p)) == Some(p))
    }
  }

  predicate AsciiAlphanumeric(c: char) {
    'a' <= c <= 'z' || 'A' <= c <= 'Z' || '0' <= c <= '9'
  }

  predicate ValidName(name: string) {
    && 1 <= |name| <= 32
    && forall i :: 0 <= i < |name| ==> AsciiAlphanumeric(name[i]) || name[i] == '_' || name[i] == '-'
  }

  const COMMANDS: set<string> := {
    "config", "help", "init", "new", "import", "export", "list", "delete", "history",
    "transfer", "token-transfer", "close-ata", "lock", "ui"
  }

  const MAX_SETTINGS_BYTES: int := 65536

  function KnownGenesis(cluster: string): Option<string> {
    if cluster == "mainnet" then Some("5eykt4UsFv8P8NJdTREpY1vzqKqZKvdpKuc147dw2N9d")
    else if cluster == "devnet" then Some("EtWTRABZaYq6iMfeYKouRu166VU2xqa1wcaWoxPkrZBG")
    else if cluster == "testnet" then Some("4uhcVJyU9pJkvQyS88uRDiswHXSCkY3zQawwpjk2NsNY")
    else None
  }

  // rpc::expected_genesis succeeds, apart from a custom cluster that still lacks its hash
  predicate PinAgrees(rpc: RpcSettings) {
    if rpc.cluster == "custom" then true
    else KnownGenesis(rpc.cluster).Some? && (rpc.pin == None || rpc.pin == KnownGenesis(rpc.cluster))
  }

  predicate UrlOk(w: World, url: Option<string>) {
    url.Some? ==>
      match w.parseUrl(url.value)
      case None => false
      case Some(u) =>
        && (u.scheme == "https"
            || (u.scheme == "http" && u.host.Some?
                && u.host.value in {"127.0.0.1", "localhost", "[::1]", "::1"}))
        && u.username == "" && !u.password
  }

  predicate AliasOk(name: string, words: seq<string>) {
    && ValidName(name)
    && name !in {"shell", "exit", "quit"}
    && name !in COMMANDS
    && 1 <= |words| <= 16
    && forall i :: 0 <= i < |words| ==> |EncodeAll(words[i])| <= 256
  }

  predicate AliasesOk(aliases: map<string, seq<string>>) {
    && |aliases| <= 64
    && forall name :: name in aliases ==> AliasOk(name, aliases[name])
  }

  /** Every rule of `validate` except that a custom cluster must have a genesis hash. */
  predicate DraftOk(w: World, s: Settings) {
    && PinAgrees(s.rpc)
    && (s.rpc.pin.Some? ==> w.hashOk(s.rpc.pin.value))
    && 1 <= s.rpc.timeout <= 120
    && 1 <= s.history.limit <= 100
    && s.security.margin <= 100
    && |s.history.wallets| <= 16
    && (s.history.interval.Some? ==> s.history.interval.value >= 10)
    && AliasesOk(s.aliases)
    && UrlOk(w, s.rpc.url)
  }

  predicate ValidSettings(w: World, s: Settings) {
    && DraftOk(w, s)
    && (s.rpc.cluster == "custom" ==> s.rpc.pin.Some?)
  }

  predicate FitsOnDisk(w: World, s: Settings) { |w.toJson(s)| <= MAX_SETTINGS_BYTES }

  // The text is an endpoint the program may use: encrypted, or on this machine, and without credentials.
  ghost predicate Endpoint(w: World, text: string) {
    exists u: Url :: w.parseUrl(text) == Some(u) && u.username == "" && !u.password
      && (u.scheme == "https" || (u.scheme == "http"
            && (u.host == Some("127.0.0.1") || u.host == Some("localhost") || u.host == Some("[::1]") || u.host == Some("::1"))))
  }

  lemma EndpointIff(w: World, url: Option<string>)
    ensures UrlOk(w, url) <==> url == None || Endpoint(w, url.value)
  {
    if url.Some? && w.parseUrl(url.value).Some? {
      var u := w.parseUrl(url.value).value;
      assert UrlOk(w, url) ==> u.username == "" && !u.password;
    }
  }

  /** `valid_name`: between 1 and 32 ASCII letters, digits, underscores and hyphens. */
  lemma ValidNameIff(name: string)
    ensures ValidName(name) <==> 0 < |name| < 33 && forall c :: c in name ==>
      'a' <= c <= 'z' || 'A' <= c <= 'Z' || '0' <= c <= '9' || c == '_' || c == '-'
  {
    assert forall i :: 0 <= i < |name| ==> name[i] in name;
  }

  // An alias has a valid name that is no command, and 1 to 16 words of at most 256 bytes.
  lemma AliasIff(name: string, words: seq<string>)
    ensures AliasOk(name, words) <==>
      && ValidName(name)
      && name !in {"shell", "exit", "quit", "config", "help", "init", "new", "import", "export", "list", "delete", "history",
                   "transfer", "token-transfer", "close-ata", "lock", "ui"}
      && 1 <= |words| <= 16 && forall i :: 0 <= i < |words| ==> |EncodeAll(words[i])| < 257
  {
    hide ValidName, EncodeAll;
  }

  // The genesis hash that may be set beside a cluster: only the cluster's own, and any for a custom one.
  lemma PinIff(rpc: RpcSettings)
    ensures PinAgrees(rpc) <==>
      || rpc.cluster == "custom"
      || (rpc.cluster == "mainnet" && (rpc.pin == None || rpc.pin.value == "5eykt4UsFv8P8NJdTREpY1vzqKqZKvdpKuc147dw2N9d"))
      || (rpc.cluster == "devnet" && (rpc.pin == None || rpc.pin.value == "EtWTRABZaYq6iMfeYKouRu166VU2xqa1wcaWoxPkrZBG"))
      || (rpc.cluster == "testnet" && (rpc.pin == None || rpc.pin.value == "4uhcVJyU9pJkvQyS88uRDiswHXSCkY3zQawwpjk2NsNY"))
  {
    assert "mainnet"[0] != "testnet"[0] && "mainnet"[0] != "devnet"[0] && "testnet"[0] != "devnet"[0];
  }
}
