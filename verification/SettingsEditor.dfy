/** The nested settings menus, over any sequence of answers. The menus are methods with loops that update
    a draft; their specification is one flat machine whose state is the prompt being shown. */
module SettingsEditor {
  import opened Prelude
  import opened Configuration
  import opened Text

  datatype Field =
    | RpcUrl | Cluster | Pin | Timeout | Balances
    | Confirm | Details | SimulateFirst | ShowSimulation | Compute | Margin | Cache
    | Fetch | Interval | Limit

  function Fields(group: nat): seq<Field> {
    if group == 0 then [RpcUrl, Cluster, Pin, Timeout, Balances]
    else if group == 1 then [Confirm, Details, SimulateFirst, ShowSimulation, Compute, Margin, Cache]
    else [Fetch, Interval, Limit]
  }

  predicate ReadOnly(f: Field, s: Settings) { f == Pin && s.rpc.cluster != "custom" }

  function Number(input: string, low: u64, high: u64): Option<u64> {
    var n := ParseU64(input);
    if n.Some? && low <= n.value <= high then n else None
  }

  function Boolean(input: string): Option<bool> {
    if input in {"on", "true"} then Some(true) else if input in {"off", "false"} then Some(false) else None
  }

  /** `Field::set`: the settings with one field set from the user's text, or None for an error. */
  function SetField(w: World, f: Field, s: Settings, input: string): Option<Settings> {
    if ReadOnly(f, s) then None
    else match f
      case RpcUrl =>
        var url := if input == "clear" then None else Some(input);
        if ValidSettings(w, DEFAULT_SETTINGS.(rpc := DEFAULT_SETTINGS.rpc.(url := url)))
        then Some(s.(rpc := s.rpc.(url := url))) else None
      case Cluster =>
        if input !in {"mainnet", "devnet", "testnet", "custom"} then None
        else if s.rpc.cluster == input then Some(s)
        else Some(s.(rpc := s.rpc.(cluster := input, pin := None)))
      case Pin =>
        if input == "clear" then Some(s.(rpc := s.rpc.(pin := None)))
        else if w.hashOk(input) then Some(s.(rpc := s.rpc.(pin := Some(input)))) else None
      case Timeout => var n :- Number(input, 1, 120); Some(s.(rpc := s.rpc.(timeout := n)))
      case Balances => var b :- Boolean(input); Some(s.(rpc := s.rpc.(showBalances := b)))
      case Confirm => var b :- Boolean(input); Some(s.(security := s.security.(confirm := b)))
      case Details => var b :- Boolean(input); Some(s.(security := s.security.(showDetails := b)))
      case SimulateFirst => var b :- Boolean(input); Some(s.(security := s.security.(simulate := b)))
      case ShowSimulation => var b :- Boolean(input); Some(s.(security := s.security.(showSimulation := b)))
      case Compute => var b :- Boolean(input); Some(s.(security := s.security.(optimizeCompute := b)))
      case Margin => var n :- Number(input, 0, 100); Some(s.(security := s.security.(margin := n)))
      case Cache => var b :- Boolean(input); Some(s.(security := s.security.(cacheUnlocked := b)))
      case Fetch => var b :- Boolean(input); Some(s.(history := s.history.(fetchOnStart := b)))
      case Interval =>
        if input == "clear" then Some(s.(history := s.history.(interval := None)))
        else var n :- Number(input, 10, U64_LIMIT - 1); Some(s.(history := s.history.(interval := Some(n))))
      case Limit => var n :- Number(input, 1, 100); Some(s.(history := s.history.(limit := n)))
  }

  // ---------------------------------------------------------------- setting one field

  datatype Value = Text(text: Option<string>) | Count(count: Option<u64>) | Flag(on: bool)

  function Get(f: Field, s: Settings): Value {
    match f
    case RpcUrl => Text(s.rpc.url)
    case Cluster => Text(Some(s.rpc.cluster))
    case Pin => Text(s.rpc.pin)
    case Timeout => Count(Some(s.rpc.timeout))
    case Balances => Flag(s.rpc.showBalances)
    case Confirm => Flag(s.security.confirm)
    case Details => Flag(s.security.showDetails)
    case SimulateFirst => Flag(s.security.simulate)
    case ShowSimulation => Flag(s.security.showSimulation)
    case Compute => Flag(s.security.optimizeCompute)
    case Margin => Count(Some(s.security.margin))
    case Cache => Flag(s.security.cacheUnlocked)
    case Fetch => Flag(s.history.fetchOnStart)
    case Interval => Count(s.history.interval)
    case Limit => Count(Some(s.history.limit))
  }

  // What the user's text means, in the same kind as the field's present value
  function Meant(kind: Value, input: string): Option<Value> {
    match kind
    case Text(_) => Some(Text(if input == "clear" then None else Some(input)))
    case Count(_) =>
      if input == "clear" then Some(Count(None))
      else var n :- ParseU64(input); Some(Count(Some(n)))
    case Flag(_) => var b :- Boolean(input); Some(Flag(b))
  }

  lemma ClearIsNoNumber()
    ensures ParseU64("clear").None?
  {
    assert !Digit("clear"[0]);
  }

  // `s` with a value stored in a field, where the field can hold it
  function Put(f: Field, s: Settings, v: Value): Option<Settings> {
    match v
    case Text(text) =>
      if f == RpcUrl then Some(s.(rpc := s.rpc.(url := text)))
      else if f == Pin then Some(s.(rpc := s.rpc.(pin := text)))
      else if f == Cluster && text.Some? then
        Some(s.(rpc := s.rpc.(cluster := text.value, pin := if s.rpc.cluster == text.value then s.rpc.pin else None)))
      else None
    case Count(count) =>
      if f == Interval then Some(s.(history := s.history.(interval := count)))
      else if count.None? then None
      else if f == Timeout then Some(s.(rpc := s.rpc.(timeout := count.value)))
      else if f == Margin && count.value < 256 then Some(s.(security := s.security.(margin := count.value)))
      else if f == Limit then Some(s.(history := s.history.(limit := count.value)))
      else None
    case Flag(on) =>
      match f
      case Balances => Some(s.(rpc := s.rpc.(showBalances := on)))
      case Confirm => Some(s.(security := s.security.(confirm := on)))
      case Details => Some(s.(security := s.security.(showDetails := on)))
      case SimulateFirst => Some(s.(security := s.security.(simulate := on)))
      case ShowSimulation => Some(s.(security := s.security.(showSimulation := on)))
      case Compute => Some(s.(security := s.security.(optimizeCompute := on)))
      case Cache => Some(s.(security := s.security.(cacheUnlocked := on)))
      case Fetch => Some(s.(history := s.history.(fetchOnStart := on)))
      case _ => None
  }

  /** What the user's text asks of a field: None where it means nothing, the field is read-only, or the
      settings would break a rule. */
  function Asked(w: World, f: Field, s: Settings, input: string): Option<Settings> {
    var v := Meant(Get(f, s), input);
    if ReadOnly(f, s) || v.None? then None
    else
      var t := Put(f, s, v.value);
      if t.Some? && DraftOk(w, t.value) then t else None
  }

  // What the rules say of one section, the others being in order
  lemma SectionRules(w: World, s: Settings, rpc: RpcSettings, security: SecuritySettings, history: HistorySettings)
    requires DraftOk(w, s)
    ensures DraftOk(w, s.(rpc := rpc)) <==>
      PinAgrees(rpc) && (rpc.pin.Some? ==> w.hashOk(rpc.pin.value)) && 1 <= rpc.timeout <= 120 && UrlOk(w, rpc.url)
    ensures DraftOk(w, s.(security := security)) <==> security.margin <= 100
    ensures DraftOk(w, s.(history := history)) <==>
      && 1 <= history.limit <= 100 && |history.wallets| <= 16
      && (history.interval.Some? ==> history.interval.value >= 10)
  {
    hide AliasesOk, UrlOk, PinAgrees;
  }

  lemma UrlDoesWhatIsAsked(w: World, s: Settings, input: string)
    requires DraftOk(w, s)
    ensures SetField(w, RpcUrl, s, input) == Asked(w, RpcUrl, s, input)
  {
    hide DraftOk, UrlOk, PinAgrees, ValidSettings;
    var url := if input == "clear" then None else Some(input);
    UrlAlone(w, url);
    SectionRules(w, s, s.rpc, s.security, s.history);
    SectionRules(w, s, s.rpc.(url := url), s.security, s.history);
    assert s.(rpc := s.rpc) == s;
    PinAgreesAnyUrl(s.rpc, url);
  }

  lemma PinAgreesAnyUrl(rpc: RpcSettings, url: Option<string>)
    ensures PinAgrees(rpc.(url := url)) == PinAgrees(rpc)
  {
  }

  // A cluster without a pin is in order exactly when it is one of the four; "clear" names none.
  lemma NewCluster(rpc: RpcSettings, name: string)
    ensures PinAgrees(rpc.(cluster := name, pin := None)) <==> name in {"mainnet", "devnet", "testnet", "custom"}
    ensures PinAgrees(rpc) ==> rpc.cluster in {"mainnet", "devnet", "testnet", "custom"}
    ensures "clear" !in {"mainnet", "devnet", "testnet", "custom"}
  {
  }

  lemma ClusterDoesWhatIsAsked(w: World, s: Settings, input: string)
    requires DraftOk(w, s)
    ensures SetField(w, Cluster, s, input) == Asked(w, Cluster, s, input)
  {
    hide DraftOk, UrlOk, ParseU64, ValidSettings, PinAgrees;
    SectionRules(w, s, s.rpc, s.security, s.history);
    assert s.(rpc := s.rpc) == s;
    NewCluster(s.rpc, input);
    var v := Meant(Get(Cluster, s), input);
    if v.Some? && Put(Cluster, s, v.value).Some? {
      SectionRules(w, s, Put(Cluster, s, v.value).value.rpc, s.security, s.history);
    }
  }

  lemma RpcDoesWhatIsAsked(w: World, f: Field, s: Settings, input: string)
    requires DraftOk(w, s) && f in {Pin, Timeout, Balances}
    ensures SetField(w, f, s, input) == Asked(w, f, s, input)
  {
    hide DraftOk, UrlOk, ParseU64, ValidSettings;
    ClearIsNoNumber();
    SectionRules(w, s, s.rpc, s.security, s.history);
    var v := Meant(Get(f, s), input);
    if v.Some? && Put(f, s, v.value).Some? {
      SectionRules(w, s, Put(f, s, v.value).value.rpc, s.security, s.history);
    }
  }

  lemma SecurityDoesWhatIsAsked(w: World, f: Field, s: Settings, input: string)
    requires DraftOk(w, s) && f in {Confirm, Details, SimulateFirst, ShowSimulation, Compute, Margin, Cache}
    ensures SetField(w, f, s, input) == Asked(w, f, s, input)
  {
    hide DraftOk, ParseU64, ValidSettings;
    ClearIsNoNumber();
    SectionRules(w, s, s.rpc, s.security, s.history);
    var v := Meant(Get(f, s), input);
    if v.Some? && Put(f, s, v.value).Some? {
      SectionRules(w, s, s.rpc, Put(f, s, v.value).value.security, s.history);
    }
  }

  lemma HistoryDoesWhatIsAsked(w: World, f: Field, s: Settings, input: string)
    requires DraftOk(w, s) && f in {Fetch, Interval, Limit}
    ensures SetField(w, f, s, input) == Asked(w, f, s, input)
  {
    hide DraftOk, ParseU64, ValidSettings;
    ClearIsNoNumber();
    SectionRules(w, s, s.rpc, s.security, s.history);
    var v := Meant(Get(f, s), input);
    if v.Some? && Put(f, s, v.value).Some? {
      SectionRules(w, s, s.rpc, s.security, Put(f, s, v.value).value.history);
    }
  }

  /** In a good draft a field accepts exactly the texts that ask for a good draft, and stores them. */
  lemma SettingDoesWhatIsAsked(w: World, f: Field, s: Settings, input: string)
    requires DraftOk(w, s)
    ensures SetField(w, f, s, input) == Asked(w, f, s, input)
  {
    hide DraftOk, SetField, Asked;
    match f
    case RpcUrl => UrlDoesWhatIsAsked(w, s, input);
    case Cluster => ClusterDoesWhatIsAsked(w, s, input);
    case Pin | Timeout | Balances => RpcDoesWhatIsAsked(w, f, s, input);
    case Fetch | Interval | Limit => HistoryDoesWhatIsAsked(w, f, s, input);
    case _ => SecurityDoesWhatIsAsked(w, f, s, input);
  }

  lemma UrlAlone(w: World, url: Option<string>)
    ensures ValidSettings(w, DEFAULT_SETTINGS.(rpc := DEFAULT_SETTINGS.rpc.(url := url))) <==> UrlOk(w, url)
  {
    hide UrlOk;
  }

  /** It touches no other field, except that a change of cluster unsets the genesis hash. */
  lemma SettingTouchesOneField(w: World, f: Field, s: Settings, input: string, g: Field)
    requires SetField(w, f, s, input).Some?
    ensures var t := SetField(w, f, s, input).value;
      && (g != f && !(f == Cluster && g == Pin) ==> Get(g, t) == Get(g, s))
      && (f == Cluster ==> Get(Pin, t) == (if s.rpc.cluster == input then Get(Pin, s) else Text(None)))
  {
    hide ValidSettings, ParseU64, Boolean, Number;
    match f {
      case RpcUrl => case Cluster => case Pin => case Timeout => case Balances => case Confirm => case Details =>
      case SimulateFirst => case ShowSimulation => case Compute => case Margin => case Cache => case Fetch =>
      case Interval => case Limit =>
    }
  }

  // Wallets, aliases and mode have no field.
  lemma SettingTouchesNothingElse(w: World, f: Field, s: Settings, input: string)
    requires SetField(w, f, s, input).Some?
    ensures var t := SetField(w, f, s, input).value;
      t.history.wallets == s.history.wallets && t.aliases == s.aliases && t.mode == s.mode
  {
    hide ValidSettings, ParseU64, Boolean, Number;
  }

  lemma SetFieldKeepsDraftOk(w: World, f: Field, s: Settings, input: string)
    requires DraftOk(w, s) && SetField(w, f, s, input).Some?
    ensures DraftOk(w, SetField(w, f, s, input).value)
  {
    hide DraftOk, SetField;
    SettingDoesWhatIsAsked(w, f, s, input);
  }

  // ---------------------------------------------------------------- the prompts as one machine

  /** One answer at a prompt. A failed write before the prompt has the effect of a failed read. */
  datatype Answer = Line(text: string) | Eof | IoFailed

  datatype Outcome = Saved(settings: Settings) | NoDraft | EditFailed

  datatype Prompt =
    | Menu
    | SaveConfirm
    | Group(group: nat)
    | FieldValue(group: nat, field: Field)
    | WalletAction
    | WalletName(adding: bool)
    | AliasAction
    | AliasName(setting: bool)
    | AliasWords(name: string)
    | Ended(outcome: Outcome)

  datatype State = State(prompt: Prompt, draft: Settings)

  predicate Cancels(a: Answer) { a.Eof? || (a.Line? && Trim(a.text) == "exit") }

  function Step(w: World, original: Settings, s: State, a: Answer): State {
    if s.prompt.Ended? then s
    else if a.IoFailed? then s.(prompt := Ended(EditFailed))
    else if Cancels(a) then s.(prompt := Ended(NoDraft))
    else Answered(w, original, s, a.text)
  }

  function Answered(w: World, original: Settings, s: State, line: string): State {
    var t := Trim(line);
    match s.prompt
    case Menu => AtMenu(w, original, s, t)
    case SaveConfirm => if t == "SAVE" then s.(prompt := Ended(Saved(s.draft))) else s.(prompt := Menu)
    case Group(g) => AtGroup(s, g, t)
    case FieldValue(g, f) => AtValue(w, s, g, f, t)
    case WalletAction =>
      if t in {"back", ""} then s.(prompt := Group(2))
      else if t == "clear" then TakeWallets(w, s, [])
      else if t in {"add", "remove"} then s.(prompt := WalletName(t == "add"))
      else s.(prompt := Group(2))
    case WalletName(adding) => AtWalletName(w, s, adding, t)
    case AliasAction => if t in {"set", "remove"} then s.(prompt := AliasName(t == "set")) else s.(prompt := Menu)
    case AliasName(setting) =>
      if !ValidName(t) then s.(prompt := Menu)
      else if setting then s.(prompt := AliasWords(t))
      else TakeAliases(w, s, s.draft.aliases - {t})
    case AliasWords(name) =>
      var words := SplitWhitespace(line);
      TakeAliases(w, s, s.draft.aliases[name := if |words| <= 17 then words else words[..17]])
    case Ended(_) => s
  }

  function AtMenu(w: World, original: Settings, s: State, t: string): State {
    if t == "1" then s.(prompt := Group(0))
    else if t == "2" then s.(prompt := Group(1))
    else if t == "3" then s.(prompt := Group(2))
    else if t == "4" then s.(prompt := AliasAction)
    else if t in {"s", "save"} then
      if s.draft == original then s.(prompt := Ended(NoDraft))
      else if ValidSettings(w, s.draft) && FitsOnDisk(w, s.draft) then s.(prompt := SaveConfirm)
      else s
    else if t in {"c", "cancel"} then s.(prompt := Ended(NoDraft))
    else s
  }

  function FieldAt(g: nat, t: string): Option<Field> {
    var n := ParseU64(t);
    if n.Some? && 1 <= n.value <= |Fields(g)| then Some(Fields(g)[n.value - 1]) else None
  }

  function AtGroup(s: State, g: nat, t: string): State {
    if t in {"b", "back", ""} then s.(prompt := Menu)
    else if g == 2 && t == "4" then s.(prompt := WalletAction)
    else if FieldAt(g, t).None? || ReadOnly(FieldAt(g, t).value, s.draft) then s
    else s.(prompt := FieldValue(g, FieldAt(g, t).value))
  }

  function AtValue(w: World, s: State, g: nat, f: Field, t: string): State {
    var next := SetField(w, f, s.draft, t);
    State(Group(g), if t != "" && next.Some? && FitsOnDisk(w, next.value) then next.value else s.draft)
  }

  // A list of wallets that makes the settings too big is an error that ends the edit.
  function TakeWallets(w: World, s: State, wallets: seq<string>): State {
    var next := s.draft.(history := s.draft.history.(wallets := wallets));
    if FitsOnDisk(w, next) then State(Group(2), next) else s.(prompt := Ended(EditFailed))
  }

  function AtWalletName(w: World, s: State, adding: bool, t: string): State {
    var wallets := s.draft.history.wallets;
    if !ValidName(t) then s.(prompt := Group(2))
    else if !adding then TakeWallets(w, s, Drop(wallets, t))
    else if t in wallets then TakeWallets(w, s, wallets)
    else if |wallets| >= 16 then s.(prompt := Group(2))
    else TakeWallets(w, s, wallets + [t])
  }

  function Drop(names: seq<string>, name: string): (r: seq<string>)
    ensures |r| <= |names| && name !in r
    ensures forall n :: n in names && n != name ==> n in r
    ensures forall n :: n in r ==> n in names
  {
    if names == [] then []
    else if names[0] == name then Drop(names[1..], name)
    else [names[0]] + Drop(names[1..], name)
  }

  /** Removing a name keeps the others in their order. */
  lemma {:induction false} DropKeepsOrder(a: seq<string>, b: seq<string>, name: string)
    ensures Drop(a + b, name) == Drop(a, name) + Drop(b, name)
    ensures name !in a ==> Drop(a, name) == a
  {
    if a == [] {
      assert a + b == b;
    } else {
      assert (a + b)[1..] == a[1..] + b;
      DropKeepsOrder(a[1..], b, name);
    }
  }

  function TakeAliases(w: World, s: State, aliases: map<string, seq<string>>): State {
    var next := s.draft.(aliases := aliases);
    State(Menu, if ValidSettings(w, DEFAULT_SETTINGS.(aliases := aliases)) && FitsOnDisk(w, next) then next else s.draft)
  }

  // Where a sequence of answers leads
  function After(w: World, original: Settings, s: State, answers: seq<Answer>): State
    decreases |answers|
  {
    if answers == [] then s else After(w, original, Step(w, original, s, answers[0]), answers[1..])
  }

  // What the whole edit comes to; the end of the script is the end of the input.
  function Verdict(w: World, original: Settings, s: State, answers: seq<Answer>): Outcome
    decreases |answers|
  {
    if s.prompt.Ended? then s.prompt.outcome
    else if answers == [] then NoDraft
    else Verdict(w, original, Step(w, original, s, answers[0]), answers[1..])
  }

  lemma {:induction false} VerdictIsWhereItLeads(w: World, original: Settings, s: State, answers: seq<Answer>)
    ensures var end := After(w, original, s, answers);
      Verdict(w, original, s, answers) == if end.prompt.Ended? then end.prompt.outcome else NoDraft
    decreases |answers|
  {
    hide Answered, Cancels;
    if answers != [] {
      VerdictIsWhereItLeads(w, original, Step(w, original, s, answers[0]), answers[1..]);
      if s.prompt.Ended? { EndedStays(w, original, s, answers); }
    }
  }

  lemma {:induction false} EndedStays(w: World, original: Settings, s: State, answers: seq<Answer>)
    requires s.prompt.Ended?
    ensures After(w, original, s, answers) == s
    decreases |answers|
  {
    hide Answered, Cancels;
    if answers != [] { EndedStays(w, original, s, answers[1..]); }
  }

  // ---------------------------------------------------------------- what every draft satisfies

  /** The draft always obeys every rule but "a custom cluster has a genesis hash", and fits its limit;
      what is offered for saving, and what is saved, is entirely valid and differs from the original. */
  predicate Good(w: World, original: Settings, s: State) {
    && DraftOk(w, s.draft) && FitsOnDisk(w, s.draft)
    && (s.prompt.SaveConfirm? ==> ValidSettings(w, s.draft) && s.draft != original)
    && (s.prompt.Ended? && s.prompt.outcome.Saved? ==>
          s.prompt.outcome.settings == s.draft && ValidSettings(w, s.draft) && s.draft != original)
  }

  lemma AliasesAreChecked(w: World, s: Settings, aliases: map<string, seq<string>>)
    requires DraftOk(w, s) && ValidSettings(w, DEFAULT_SETTINGS.(aliases := aliases))
    ensures DraftOk(w, s.(aliases := aliases))
  {
    hide AliasesOk, UrlOk;
  }

  lemma WalletsAreBounded(w: World, s: Settings, wallets: seq<string>)
    requires DraftOk(w, s) && |wallets| <= 16
    ensures DraftOk(w, s.(history := s.history.(wallets := wallets)))
  {
    hide AliasesOk, UrlOk;
  }

  lemma AnswerKeepsGood(w: World, original: Settings, s: State, line: string)
    requires Good(w, original, s)
    ensures Good(w, original, Answered(w, original, s, line))
  {
    hide DraftOk, SetField, Trim, ValidName, SplitWhitespace, FitsOnDisk, Drop;
    var t := Trim(line);
    match s.prompt {
      case FieldValue(g, f) => if SetField(w, f, s.draft, t).Some? { SetFieldKeepsDraftOk(w, f, s.draft, t); }
      case WalletAction => WalletsAreBounded(w, s.draft, []);
      case WalletName(adding) =>
        var wallets := s.draft.history.wallets;
        AtMostSixteen(w, s.draft);
        WalletsAreBounded(w, s.draft, Drop(wallets, t));
        WalletsAreBounded(w, s.draft, wallets);
        if |wallets| < 16 { WalletsAreBounded(w, s.draft, wallets + [t]); }
      case AliasName(setting) =>
        var aliases := s.draft.aliases - {t};
        if ValidSettings(w, DEFAULT_SETTINGS.(aliases := aliases)) { AliasesAreChecked(w, s.draft, aliases); }
      case AliasWords(name) =>
        var words := SplitWhitespace(line);
        var aliases := s.draft.aliases[name := if |words| <= 17 then words else words[..17]];
        if ValidSettings(w, DEFAULT_SETTINGS.(aliases := aliases)) { AliasesAreChecked(w, s.draft, aliases); }
      case Menu => case SaveConfirm => case Group(_) => case AliasAction => case Ended(_) =>
    }
  }

  lemma AtMostSixteen(w: World, s: Settings)
    requires DraftOk(w, s)
    ensures |s.history.wallets| <= 16
  {
  }

  /** From valid settings of legal size, every draft along every sequence of answers is good. */
  lemma {:induction false} EveryDraftIsGood(w: World, original: Settings, s: State, answers: seq<Answer>)
    requires Good(w, original, s)
    ensures Good(w, original, After(w, original, s, answers))
    decreases |answers|
  {
    hide Good, Answered, Cancels;
    if answers != [] {
      StepKeepsGood(w, original, s, answers[0]);
      EveryDraftIsGood(w, original, Step(w, original, s, answers[0]), answers[1..]);
    }
  }

  lemma StepKeepsGood(w: World, original: Settings, s: State, a: Answer)
    requires Good(w, original, s)
    ensures Good(w, original, Step(w, original, s, a))
  {
    hide DraftOk, Answered, FitsOnDisk, ValidSettings;
    if a.Line? { AnswerKeepsGood(w, original, s, a.text); }
  }

  const CUSTOM_DRAFT: Settings := DEFAULT_SETTINGS.(rpc := DEFAULT_SETTINGS.rpc.(cluster := "custom"))

  lemma ChoosingCustom(w: World)
    ensures Step(w, DEFAULT_SETTINGS, State(Menu, DEFAULT_SETTINGS), Line("1")) == State(Group(0), DEFAULT_SETTINGS)
    ensures Step(w, DEFAULT_SETTINGS, State(Group(0), DEFAULT_SETTINGS), Line("2")) == State(FieldValue(0, Cluster), DEFAULT_SETTINGS)
    ensures FitsOnDisk(w, CUSTOM_DRAFT) ==>
      Step(w, DEFAULT_SETTINGS, State(FieldValue(0, Cluster), DEFAULT_SETTINGS), Line("custom")) == State(Group(0), CUSTOM_DRAFT)
  {
    hide ParseU64, Trim, ValidSettings, FitsOnDisk;
    PlainWords();
  }

  /** A draft need not be valid: after choosing the custom cluster it lacks its genesis hash, and saving
      it is refused until that, or the cluster, is set. */
  lemma CustomClusterAwaitsItsHash(w: World, line: string)
    requires FitsOnDisk(w, CUSTOM_DRAFT)
    ensures After(w, DEFAULT_SETTINGS, State(Menu, DEFAULT_SETTINGS), [Line("1"), Line("2"), Line("custom")]) == State(Group(0), CUSTOM_DRAFT)
    ensures !ValidSettings(w, CUSTOM_DRAFT)
    ensures Trim(line) in {"s", "save"} ==> Step(w, DEFAULT_SETTINGS, State(Menu, CUSTOM_DRAFT), Line(line)) == State(Menu, CUSTOM_DRAFT)
  {
    hide Trim, FitsOnDisk, DraftOk;
    ChoosingCustom(w);
    ThreeAnswers(w, DEFAULT_SETTINGS, State(Menu, DEFAULT_SETTINGS), Line("1"), Line("2"), Line("custom"));
  }

  lemma ThreeAnswers(w: World, original: Settings, s: State, a: Answer, b: Answer, c: Answer)
    ensures After(w, original, s, [a, b, c]) == Step(w, original, Step(w, original, Step(w, original, s, a), b), c)
  {
    hide Step;
    assert [a, b, c][1..] == [b, c] && [b, c][1..] == [c] && [c][1..] == [];
    assert After(w, original, Step(w, original, s, a), [b, c]) == After(w, original, Step(w, original, Step(w, original, s, a), b), [c]);
  }

  lemma PlainWords()
    ensures Trim("1") == "1" && Trim("2") == "2" && Trim("custom") == "custom" && ParseU64("2") == Some(2)
  {
    assert "custom"[0] == 'c' && "custom"[5] == 'm';
    assert "2"[..0] == "" && NumberOf("") == 0;
  }

  /** The edit yields a draft only if it is entirely valid, of legal size and different from the original,
      whatever the original was. */
  lemma OnlyValidDraftsAreSaved(w: World, original: Settings, answers: seq<Answer>)
    ensures var r := Verdict(w, original, State(Menu, original), answers);
      r.Saved? ==> r.settings != original && ValidSettings(w, r.settings) && FitsOnDisk(w, r.settings)
  {
    hide Answered, Step;
    VerdictIsWhereItLeads(w, original, State(Menu, original), answers);
    OfferedStays(w, original, State(Menu, original), answers);
  }

  // The part of `Good` that needs nothing of the original
  predicate Offered(w: World, original: Settings, s: State) {
    && (s.prompt.SaveConfirm? ==> ValidSettings(w, s.draft) && FitsOnDisk(w, s.draft) && s.draft != original)
    && (s.prompt.Ended? && s.prompt.outcome.Saved? ==>
          && s.prompt.outcome.settings != original && ValidSettings(w, s.prompt.outcome.settings)
          && FitsOnDisk(w, s.prompt.outcome.settings))
  }

  lemma {:induction false} OfferedStays(w: World, original: Settings, s: State, answers: seq<Answer>)
    requires Offered(w, original, s)
    ensures Offered(w, original, After(w, original, s, answers))
    decreases |answers|
  {
    hide SetField, Trim, ValidName, SplitWhitespace, FieldAt, ReadOnly, Drop, ValidSettings, FitsOnDisk;
    if answers != [] {
      OfferedStays(w, original, Step(w, original, s, answers[0]), answers[1..]);
    }
  }

  // An answer that ends the edit, whatever the prompt
  predicate Stops(a: Answer) { a.IoFailed? || Cancels(a) }

  /** A draft is only saved at the answer SAVE, and no earlier answer, at any prompt, was `exit`, the end
      of the input or a failure. */
  lemma {:induction false} NothingIsSavedAfterExit(w: World, original: Settings, s: State, answers: seq<Answer>) returns (k: nat)
    requires !s.prompt.Ended? && Verdict(w, original, s, answers).Saved?
    ensures k < |answers| && answers[k].Line? && Trim(answers[k].text) == "SAVE"
    ensures forall i :: 0 <= i <= k ==> !Stops(answers[i])
    ensures Verdict(w, original, s, answers) == Saved(After(w, original, s, answers[..k]).draft)
    ensures After(w, original, s, answers[..k]).prompt == SaveConfirm
    decreases |answers|
  {
    hide Answered;
    var next := Step(w, original, s, answers[0]);
    if next.prompt.Ended? {
      SavingIsConfirmed(w, original, s, answers[0]);
      k := 0;
    } else {
      k := NothingIsSavedAfterExit(w, original, next, answers[1..]);
      assert answers[..k + 1][1..] == answers[1..][..k];
      k := k + 1;
    }
  }

  lemma SavingIsConfirmed(w: World, original: Settings, s: State, a: Answer)
    requires !s.prompt.Ended? && Step(w, original, s, a).prompt.Ended? && Step(w, original, s, a).prompt.outcome.Saved?
    ensures s.prompt.SaveConfirm? && !Stops(a) && Trim(a.text) == "SAVE"
    ensures Step(w, original, s, a).prompt.outcome == Saved(s.draft)
  {
    hide Trim, SetField, ValidSettings, FitsOnDisk, SplitWhitespace, FieldAt, ReadOnly, Drop;
  }

  // ---------------------------------------------------------------- the menus

  datatype Input = Given(line: string) | Gone | Broken

  // How a nested menu returns: to carry on, with the whole edit cancelled, or with an error
  datatype Nested = Back | Cancelled | Failed

  class Editor {
    const w: World
    const original: Settings
    var answers: seq<Answer>
    var draft: Settings

    constructor (w: World, original: Settings, answers: seq<Answer>)
      ensures this.w == w && this.original == original && this.answers == answers && draft == original
    {
      this.w, this.original, this.answers, draft := w, original, answers, original;
    }

    // What the edit will come to if it continues at this prompt
    ghost function Ahead(prompt: Prompt): Outcome
      reads this
    {
      Verdict(w, original, State(prompt, draft), answers)
    }

    ghost predicate Comes(outcome: Outcome, r: Nested, prompt: Prompt)
      reads this
    {
      outcome == match r case Back => Ahead(prompt) case Cancelled => NoDraft case Failed => EditFailed
    }

    /** `read_input` */
    method ReadInput(ghost prompt: Prompt) returns (r: Input)
      requires !prompt.Ended?
      modifies this`answers
      ensures |answers| <= |old(answers)|
      ensures r.Given? ==> |answers| < |old(answers)| && Trim(r.line) != "exit"
      ensures r.Given? ==>
        var next := Answered(w, original, State(prompt, draft), r.line);
        next.prompt.Ended? ==> old(Ahead(prompt)) == next.prompt.outcome
      ensures old(Ahead(prompt)) ==
        match r
        case Given(line) => Verdict(w, original, Answered(w, original, State(prompt, draft), line), answers)
        case Gone => NoDraft
        case Broken => EditFailed
    {
      hide Answered;
      if answers == [] { return Gone; }
      var a := answers[0];
      ghost var next := Step(w, original, State(prompt, draft), a);
      assert Ahead(prompt) == Verdict(w, original, next, answers[1..]);
      answers := answers[1..];
      match a
      case Eof => r := Gone;
      case IoFailed => r := Broken;
      case Line(text) => r := if Trim(text) == "exit" then Gone else Given(text);
    }

    /** `edit_group` */
    method EditGroup(group: nat) returns (r: Nested)
      requires group <= 2
      modifies this
      ensures |answers| <= |old(answers)|
      ensures Comes(old(Ahead(Group(group))), r, Menu)
    {
      hide Trim, SetField, ValidSettings, FitsOnDisk, FieldAt, ReadOnly, Verdict;
      while true
        invariant |answers| <= |old(answers)|
        invariant Ahead(Group(group)) == old(Ahead(Group(group)))
        decreases |answers|
      {
        var input := ReadInput(Group(group));
        if input.Gone? { return Cancelled; }
        if input.Broken? { return Failed; }
        var choice := Trim(input.line);
        if choice in {"b", "back", ""} { return Back; }
        if group == 2 && choice == "4" {
          var nested := EditWallets();
          if nested != Back { return nested; }
          continue;
        }
        var field := FieldAt(group, choice);
        if field.None? { continue; }
        if ReadOnly(field.value, draft) { continue; }
        var value := ReadInput(FieldValue(group, field.value));
        if value.Gone? { return Cancelled; }
        if value.Broken? { return Failed; }
        var text := Trim(value.line);
        if text == "" { continue; }
        var next := SetField(w, field.value, draft, text);
        if next.Some? && FitsOnDisk(w, next.value) { draft := next.value; }
      }
    }

    /** `edit_wallets` */
    method EditWallets() returns (r: Nested)
      modifies this
      ensures |answers| <= |old(answers)|
      ensures Comes(old(Ahead(WalletAction)), r, Group(2))
    {
      hide Trim, ValidSettings, FitsOnDisk, ValidName, Verdict;
      var input := ReadInput(WalletAction);
      if input.Gone? { return Cancelled; }
      if input.Broken? { return Failed; }
      var action := Trim(input.line);
      if action in {"back", ""} { return Back; }
      var wallets := draft.history.wallets;
      if action == "clear" {
        wallets := [];
      } else if action in {"add", "remove"} {
        input := ReadInput(WalletName(action == "add"));
        if input.Gone? { return Cancelled; }
        if input.Broken? { return Failed; }
        var name := Trim(input.line);
        if !ValidName(name) { return Back; }
        if action == "remove" {
          wallets := Drop(wallets, name);
        } else if name !in wallets {
          if |wallets| >= 16 { return Back; }
          wallets := wallets + [name];
        }
      } else {
        return Back;
      }
      var next := draft.(history := draft.history.(wallets := wallets));
      if !FitsOnDisk(w, next) { return Failed; }
      draft := next;
      return Back;
    }

    /** `edit_aliases` */
    method EditAliases() returns (r: Nested)
      modifies this
      ensures |answers| <= |old(answers)|
      ensures Comes(old(Ahead(AliasAction)), r, Menu)
    {
      hide Trim, ValidSettings, FitsOnDisk, ValidName, SplitWhitespace, Verdict;
      var input := ReadInput(AliasAction);
      if input.Gone? { return Cancelled; }
      if input.Broken? { return Failed; }
      var action := Trim(input.line);
      if action in {"back", ""} { return Back; }
      if action !in {"set", "remove"} { return Back; }
      input := ReadInput(AliasName(action == "set"));
      if input.Gone? { return Cancelled; }
      if input.Broken? { return Failed; }
      var name := Trim(input.line);
      if !ValidName(name) { return Back; }
      var aliases := draft.aliases;
      if action == "remove" {
        aliases := aliases - {name};
      } else {
        input := ReadInput(AliasWords(name));
        if input.Gone? { return Cancelled; }
        if input.Broken? { return Failed; }
        var words := SplitWhitespace(input.line);
        aliases := aliases[name := if |words| <= 17 then words else words[..17]];
      }
      var next := draft.(aliases := aliases);
      if ValidSettings(w, DEFAULT_SETTINGS.(aliases := aliases)) && FitsOnDisk(w, next) { draft := next; }
      return Back;
    }

    /** `edit` */
    method Edit() returns (r: Outcome)
      modifies this
      ensures r == old(Ahead(Menu))
    {
      hide Trim, ValidSettings, FitsOnDisk, Verdict;
      while true
        invariant Ahead(Menu) == old(Ahead(Menu))
        decreases |answers|
      {
        var input := ReadInput(Menu);
        if input.Gone? { return NoDraft; }
        if input.Broken? { return EditFailed; }
        var choice := Trim(input.line);
        var nested := Back;
        if choice in {"1", "2", "3"} {
          nested := EditGroup(if choice == "1" then 0 else if choice == "2" then 1 else 2);
        } else if choice == "4" {
          nested := EditAliases();
        } else if choice in {"s", "save"} {
          if draft == original { return NoDraft; }
          if !ValidSettings(w, draft) || !FitsOnDisk(w, draft) { continue; }
          var answer := ReadInput(SaveConfirm);
          if answer.Gone? { return NoDraft; }
          if answer.Broken? { return EditFailed; }
          if Trim(answer.line) == "SAVE" { return Saved(draft); }
        } else if choice in {"c", "cancel"} {
          return NoDraft;
        }
        if nested == Cancelled { return NoDraft; }
        if nested == Failed { return EditFailed; }
      }
    }
  }
}
