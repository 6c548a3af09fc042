/** What the user's lines do in the settings menus, from the main menu on: which lines open what, and what
    becomes of the draft, in terms of the lines and the fields of the draft. */
module SettingsLines {
  import opened Prelude
  import opened Configuration
  import opened Text
  import opened SettingsEditor

  // The answer is this word, with nothing but white space around it.
  predicate Types(a: Answer, word: string) { a.Line? && Typed(a.text, word) }

  function Numeral(k: nat): string {
    if k == 1 then "1" else if k == 2 then "2" else if k == 3 then "3" else if k == 4 then "4"
    else if k == 5 then "5" else if k == 6 then "6" else "7"
  }

  lemma NumeralsAreNumbers(k: nat)
    requires 1 <= k <= 7
    ensures ParseU64(Numeral(k)) == Some(k) && Solid(Numeral(k)) && Numeral(k) !in {"exit", "", "b", "back", "s", "save", "c", "cancel"}
  {
    assert Numeral(k)[..0] == "" && NumberOf("") == 0;
  }

  lemma TypedStep(w: World, o: Settings, s: State, a: Answer, word: string)
    requires Types(a, word) && Solid(word) && !s.prompt.Ended?
    ensures Trim(a.text) == word
    ensures Step(w, o, s, a) == if word == "exit" then s.(prompt := SettingsEditor.Ended(NoDraft)) else Answered(w, o, s, a.text)
  {
    hide Trim, Typed, Answered;
    TrimIff(a.text, word);
  }

  lemma {:induction false} AfterAppend(w: World, o: Settings, s: State, a: seq<Answer>, b: seq<Answer>)
    ensures After(w, o, s, a + b) == After(w, o, After(w, o, s, a), b)
    decreases |a|
  {
    hide Step;
    if a == [] {
      assert a + b == b;
    } else {
      assert (a + b)[1..] == a[1..] + b;
      AfterAppend(w, o, Step(w, o, s, a[0]), a[1..], b);
    }
  }

  lemma Two(w: World, o: Settings, s: State, a: seq<Answer>)
    requires |a| == 2
    ensures After(w, o, s, a) == Step(w, o, Step(w, o, s, a[0]), a[1])
  {
    hide Step;
    var rest := a[1..];
    assert rest[1..] == [] && rest[0] == a[1];
    assert After(w, o, Step(w, o, s, a[0]), rest) == After(w, o, Step(w, o, Step(w, o, s, a[0]), rest[0]), rest[1..]);
  }

  lemma Three(w: World, o: Settings, s: State, a: seq<Answer>)
    requires |a| == 3
    ensures After(w, o, s, a) == Step(w, o, Step(w, o, Step(w, o, s, a[0]), a[1]), a[2])
  {
    hide Step;
    assert a == [a[0], a[1], a[2]];
    ThreeAnswers(w, o, s, a[0], a[1], a[2]);
  }

  lemma Four(w: World, o: Settings, s: State, a: seq<Answer>)
    requires |a| == 4
    ensures After(w, o, s, a) == Step(w, o, Step(w, o, Step(w, o, Step(w, o, s, a[0]), a[1]), a[2]), a[3])
  {
    hide Step;
    assert a == a[..3] + a[3..] && a[3..] == [a[3]] && [a[3]][1..] == [];
    AfterAppend(w, o, s, a[..3], a[3..]);
    Three(w, o, s, a[..3]);
    assert After(w, o, After(w, o, s, a[..3]), [a[3]]) == After(w, o, Step(w, o, After(w, o, s, a[..3]), a[3]), []);
  }

  // ---------------------------------------------------------------- history wallets

  lemma WalletPrompt(w: World, o: Settings, d: Settings, a: seq<Answer>)
    requires |a| == 2 && Types(a[0], "3") && Types(a[1], "4")
    ensures After(w, o, State(Menu, d), a) == State(WalletAction, d)
  {
    hide Typed, Trim;
    Two(w, o, State(Menu, d), a);
    TypedStep(w, o, State(Menu, d), a[0], "3");
    TypedStep(w, o, State(SettingsEditor.Group(2), d), a[1], "4");
  }

  function WithWallets(d: Settings, wallets: seq<string>): Settings { d.(history := d.history.(wallets := wallets)) }

  // The menu goes on with the changed draft, unless it no longer fits, which ends the edit with an error.
  function IfFits(w: World, d: Settings, next: Settings): State {
    if FitsOnDisk(w, next) then State(SettingsEditor.Group(2), next) else State(SettingsEditor.Ended(EditFailed), d)
  }

  lemma WalletNamePrompt(w: World, o: Settings, d: Settings, a: seq<Answer>, adding: bool)
    requires |a| == 3 && Types(a[0], "3") && Types(a[1], "4") && Types(a[2], if adding then "add" else "remove")
    ensures After(w, o, State(Menu, d), a) == State(WalletName(adding), d)
  {
    hide Typed, Trim;
    var word := if adding then "add" else "remove";
    assert a == a[..2] + a[2..] && a[2..] == [a[2]] && [a[2]][1..] == [];
    AfterAppend(w, o, State(Menu, d), a[..2], a[2..]);
    WalletPrompt(w, o, d, a[..2]);
    TypedStep(w, o, State(WalletAction, d), a[2], word);
    assert After(w, o, State(WalletAction, d), [a[2]]) == After(w, o, Step(w, o, State(WalletAction, d), a[2]), []);
  }

  lemma NameAnswered(w: World, o: Settings, d: Settings, a: seq<Answer>, adding: bool, name: string)
    requires |a| == 4 && Types(a[0], "3") && Types(a[1], "4") && Types(a[2], if adding then "add" else "remove")
    requires Types(a[3], name) && Solid(name) && name != "exit"
    ensures After(w, o, State(Menu, d), a) == AtWalletName(w, State(WalletName(adding), d), adding, name)
  {
    hide Typed, Trim, AtWalletName;
    assert a == a[..3] + a[3..] && a[3..] == [a[3]] && [a[3]][1..] == [];
    AfterAppend(w, o, State(Menu, d), a[..3], a[3..]);
    WalletNamePrompt(w, o, d, a[..3], adding);
    TypedStep(w, o, State(WalletName(adding), d), a[3], name);
    assert After(w, o, State(WalletName(adding), d), [a[3]]) == After(w, o, Step(w, o, State(WalletName(adding), d), a[3]), []);
  }

  lemma ValidIsSolid(name: string)
    requires ValidName(name)
    ensures Solid(name) && name != ""
  {
  }

  /** `3`, `4`, `add` and a valid name put the name at the end of the history wallets, if it is new and there
      are fewer than 16; otherwise the draft stays. (`exit` is the one valid name that cannot be typed.) */
  lemma AddingAWallet(w: World, o: Settings, d: Settings, a: seq<Answer>, name: string)
    requires |a| == 4 && Types(a[0], "3") && Types(a[1], "4") && Types(a[2], "add") && Types(a[3], name)
    requires ValidName(name) && name != "exit"
    ensures var wallets := d.history.wallets;
      After(w, o, State(Menu, d), a)
        == if name in wallets then IfFits(w, d, d)
           else if |wallets| >= 16 then State(SettingsEditor.Group(2), d)
           else IfFits(w, d, WithWallets(d, wallets + [name]))
  {
    hide Typed, Trim, After;
    ValidIsSolid(name);
    NameAnswered(w, o, d, a, true, name);
  }

  // `after` is `before` without the name, the others in their order.
  predicate RemovesName(before: seq<string>, name: string, after: seq<string>)
    decreases |before|
  {
    if before == [] then after == []
    else if before[0] == name then RemovesName(before[1..], name, after)
    else after != [] && after[0] == before[0] && RemovesName(before[1..], name, after[1..])
  }

  lemma {:induction false} DropRemoves(before: seq<string>, name: string)
    ensures RemovesName(before, name, Drop(before, name))
  {
    if before != [] {
      DropRemoves(before[1..], name);
      if before[0] != name { assert Drop(before, name)[1..] == Drop(before[1..], name); }
    }
  }

  /** `3`, `4`, `remove` and a valid name leave exactly the other names, in order. */
  lemma RemovingAWallet(w: World, o: Settings, d: Settings, a: seq<Answer>, name: string) returns (rest: seq<string>)
    requires |a| == 4 && Types(a[0], "3") && Types(a[1], "4") && Types(a[2], "remove") && Types(a[3], name)
    requires ValidName(name) && name != "exit"
    ensures RemovesName(d.history.wallets, name, rest)
    ensures After(w, o, State(Menu, d), a) == IfFits(w, d, WithWallets(d, rest))
  {
    hide Typed, Trim, After, Drop;
    ValidIsSolid(name);
    NameAnswered(w, o, d, a, false, name);
    rest := Drop(d.history.wallets, name);
    DropRemoves(d.history.wallets, name);
  }

  /** A name that is not valid changes nothing. */
  lemma InvalidWalletName(w: World, o: Settings, d: Settings, a: seq<Answer>, adding: bool, name: string)
    requires |a| == 4 && Types(a[0], "3") && Types(a[1], "4") && Types(a[2], if adding then "add" else "remove") && Types(a[3], name)
    requires Solid(name) && !ValidName(name)
    ensures After(w, o, State(Menu, d), a) == State(SettingsEditor.Group(2), d)
  {
    hide Typed, Trim, After, ValidName;
    ExitIsAName();
    NameAnswered(w, o, d, a, adding, name);
  }

  lemma ExitIsAName()
    ensures ValidName("exit")
  {
  }

  /** `3`, `4` and `clear` leave no history wallet. */
  lemma ClearingWallets(w: World, o: Settings, d: Settings, a: seq<Answer>)
    requires |a| == 3 && Types(a[0], "3") && Types(a[1], "4") && Types(a[2], "clear")
    ensures After(w, o, State(Menu, d), a) == IfFits(w, d, WithWallets(d, []))
  {
    hide Typed, Trim;
    Three(w, o, State(Menu, d), a);
    TypedStep(w, o, State(Menu, d), a[0], "3");
    TypedStep(w, o, State(SettingsEditor.Group(2), d), a[1], "4");
    TypedStep(w, o, State(WalletAction, d), a[2], "clear");
  }

  // ---------------------------------------------------------------- aliases

  lemma AliasesAlone(w: World, aliases: map<string, seq<string>>)
    ensures ValidSettings(w, DEFAULT_SETTINGS.(aliases := aliases)) <==> AliasesOk(aliases)
  {
    hide AliasesOk;
  }

  lemma AliasNamePrompt(w: World, o: Settings, d: Settings, a: seq<Answer>, setting: bool)
    requires |a| == 2 && Types(a[0], "4") && Types(a[1], if setting then "set" else "remove")
    ensures After(w, o, State(Menu, d), a) == State(AliasName(setting), d)
  {
    hide Typed, Trim;
    Two(w, o, State(Menu, d), a);
    TypedStep(w, o, State(Menu, d), a[0], "4");
    TypedStep(w, o, State(AliasAction, d), a[1], if setting then "set" else "remove");
  }

  /** `4`, `set`, a valid name and a line of words give the alias those words, at most the first 17 of them,
      if the aliases then obey their rules (so 17 are too many) and the draft fits; otherwise it stays. */
  lemma SettingAnAlias(w: World, o: Settings, d: Settings, a: seq<Answer>, name: string, words: seq<string>)
    requires |a| == 4 && Types(a[0], "4") && Types(a[1], "set") && Types(a[2], name) && ValidName(name) && name != "exit"
    requires a[3].Line? && Spaced(a[3].text, words) && !Typed(a[3].text, "exit")
    ensures var next := d.(aliases := d.aliases[name := if |words| <= 17 then words else words[..17]]);
      After(w, o, State(Menu, d), a) == State(Menu, if AliasesOk(next.aliases) && FitsOnDisk(w, next) then next else d)
  {
    hide Typed, Trim, Spaced, SplitWhitespace, ValidSettings, AliasesOk;
    ValidIsSolid(name);
    assert a == a[..2] + a[2..];
    AfterAppend(w, o, State(Menu, d), a[..2], a[2..]);
    AliasNamePrompt(w, o, d, a[..2], true);
    Two(w, o, State(AliasName(true), d), a[2..]);
    TypedStep(w, o, State(AliasName(true), d), a[2], name);
    TrimIff(a[3].text, "exit");
    SplitIff(a[3].text, words);
    AliasesAlone(w, d.aliases[name := if |words| <= 17 then words else words[..17]]);
  }

  /** `4`, `remove` and a valid name leave exactly the other aliases, as they were. */
  lemma RemovingAnAlias(w: World, o: Settings, d: Settings, a: seq<Answer>, name: string) returns (rest: map<string, seq<string>>)
    requires |a| == 3 && Types(a[0], "4") && Types(a[1], "remove") && Types(a[2], name) && ValidName(name) && name != "exit"
    ensures forall k :: k in rest <==> k in d.aliases && k != name
    ensures forall k :: k in rest ==> rest[k] == d.aliases[k]
    ensures var next := d.(aliases := rest);
      After(w, o, State(Menu, d), a) == State(Menu, if AliasesOk(rest) && FitsOnDisk(w, next) then next else d)
  {
    hide Typed, Trim, ValidSettings, AliasesOk;
    ValidIsSolid(name);
    Three(w, o, State(Menu, d), a);
    TypedStep(w, o, State(Menu, d), a[0], "4");
    TypedStep(w, o, State(AliasAction, d), a[1], "remove");
    TypedStep(w, o, State(AliasName(false), d), a[2], name);
    rest := d.aliases - {name};
    AliasesAlone(w, rest);
  }

  // ---------------------------------------------------------------- fields

  /** The main menu's number and the group's number open the field of that place in the menus; the genesis
      hash, item 3 of the first group, only on a custom cluster. */
  lemma OpeningAField(w: World, o: Settings, d: Settings, a: seq<Answer>, g: nat, i: nat)
    requires |a| == 2 && 1 <= g <= 3 && Types(a[0], Numeral(g)) && Types(a[1], Numeral(i))
    requires 1 <= i <= (if g == 1 then 5 else if g == 2 then 7 else 3)
    ensures After(w, o, State(Menu, d), a)
         == if g == 1 && i == 3 && d.rpc.cluster != "custom" then State(SettingsEditor.Group(0), d)
            else State(FieldValue(g - 1, Fields(g - 1)[i - 1]), d)
  {
    hide Typed, Trim, ParseU64;
    NumeralsAreNumbers(g);
    NumeralsAreNumbers(i);
    Two(w, o, State(Menu, d), a);
    TypedStep(w, o, State(Menu, d), a[0], Numeral(g));
    TypedStep(w, o, State(SettingsEditor.Group(g - 1), d), a[1], Numeral(i));
  }

  // What a value typed at a field leaves: the changed draft if there is one and it fits, or the draft as it was
  function Kept(w: World, g: nat, d: Settings, next: Option<Settings>): State {
    State(SettingsEditor.Group(g), if next.Some? && FitsOnDisk(w, next.value) then next.value else d)
  }

  lemma ValueTyped(w: World, o: Settings, d: Settings, a: seq<Answer>, g: nat, i: nat, word: string)
    requires |a| == 3 && 1 <= g <= 3 && Types(a[0], Numeral(g)) && Types(a[1], Numeral(i))
    requires 1 <= i <= (if g == 1 then 5 else if g == 2 then 7 else 3)
    requires Types(a[2], word) && Solid(word) && word !in {"", "exit"}
    requires !(g == 1 && i == 3 && d.rpc.cluster != "custom")
    ensures After(w, o, State(Menu, d), a) == Kept(w, g - 1, d, SetField(w, Fields(g - 1)[i - 1], d, word))
  {
    hide Typed, Trim, SetField;
    var f := Fields(g - 1)[i - 1];
    assert a == a[..2] + a[2..] && a[2..] == [a[2]] && [a[2]][1..] == [];
    AfterAppend(w, o, State(Menu, d), a[..2], a[2..]);
    OpeningAField(w, o, d, a[..2], g, i);
    TypedStep(w, o, State(FieldValue(g - 1, f), d), a[2], word);
    assert After(w, o, State(FieldValue(g - 1, f), d), [a[2]]) == After(w, o, Step(w, o, State(FieldValue(g - 1, f), d), a[2]), []);
  }

  // The switches by their place in the menus
  predicate IsSwitch(g: nat, i: nat) { (g == 1 && i == 5) || (g == 2 && i in {1, 2, 3, 4, 5, 7}) || (g == 3 && i == 1) }

  function Switched(g: nat, i: nat, d: Settings, on: bool): Settings {
    if g == 1 then d.(rpc := d.rpc.(showBalances := on))
    else if g == 3 then d.(history := d.history.(fetchOnStart := on))
    else if i == 1 then d.(security := d.security.(confirm := on))
    else if i == 2 then d.(security := d.security.(showDetails := on))
    else if i == 3 then d.(security := d.security.(simulate := on))
    else if i == 4 then d.(security := d.security.(showSimulation := on))
    else if i == 5 then d.(security := d.security.(optimizeCompute := on))
    else d.(security := d.security.(cacheUnlocked := on))
  }

  /** A switch is turned on by `on` or `true` and off by `off` or `false`; any other word changes nothing. */
  lemma TurningASwitch(w: World, o: Settings, d: Settings, a: seq<Answer>, g: nat, i: nat, word: string)
    requires |a| == 3 && IsSwitch(g, i) && Types(a[0], Numeral(g)) && Types(a[1], Numeral(i))
    requires Types(a[2], word) && Solid(word) && word !in {"", "exit"}
    ensures After(w, o, State(Menu, d), a)
         == if word == "on" || word == "true" then Kept(w, g - 1, d, Some(Switched(g, i, d, true)))
            else if word == "off" || word == "false" then Kept(w, g - 1, d, Some(Switched(g, i, d, false)))
            else State(SettingsEditor.Group(g - 1), d)
  {
    hide Typed, Trim, FitsOnDisk, After, ValidSettings, ParseU64;
    ValueTyped(w, o, d, a, g, i, word);
  }

  predicate IsNumber(g: nat, i: nat) { (g == 1 && i == 4) || (g == 2 && i == 6) || (g == 3 && i in {2, 3}) }

  // The draft with the number in its place, if it is in the range for that place
  function Numbered(g: nat, i: nat, d: Settings, n: nat): Option<Settings> {
    if g == 1 then (if 1 <= n <= 120 then Some(d.(rpc := d.rpc.(timeout := n))) else None)
    else if g == 2 then (if n <= 100 then Some(d.(security := d.security.(margin := n))) else None)
    else if i == 2 then (if 10 <= n < U64_LIMIT then Some(d.(history := d.history.(interval := Some(n)))) else None)
    else (if 1 <= n <= 100 then Some(d.(history := d.history.(limit := n))) else None)
  }

  /** A number is stored where it is typed, if it is in range. */
  lemma TypingANumber(w: World, o: Settings, d: Settings, a: seq<Answer>, g: nat, i: nat, digits: string)
    requires |a| == 3 && IsNumber(g, i) && Types(a[0], Numeral(g)) && Types(a[1], Numeral(i))
    requires Types(a[2], digits) && digits != "" && AllDigits(digits)
    ensures After(w, o, State(Menu, d), a) == Kept(w, g - 1, d, Numbered(g, i, d, NumberOf(digits)))
  {
    hide Typed, Trim, FitsOnDisk, After, ValidSettings, NumberOf;
    DigitsAreSolid(digits);
    ValueTyped(w, o, d, a, g, i, digits);
  }

  lemma DigitsAreSolid(digits: string)
    requires digits != "" && AllDigits(digits)
    ensures Solid(digits) && digits != "exit" && digits != "clear" && digits[0] != '+'
  {
    assert !Digit("exit"[0]) && !Digit("clear"[0]);
  }

  /** `clear` unsets the refresh interval, and no other number. */
  lemma ClearingANumber(w: World, o: Settings, d: Settings, a: seq<Answer>, g: nat, i: nat)
    requires |a| == 3 && IsNumber(g, i) && Types(a[0], Numeral(g)) && Types(a[1], Numeral(i)) && Types(a[2], "clear")
    ensures After(w, o, State(Menu, d), a)
         == if g == 3 && i == 2 then Kept(w, 2, d, Some(d.(history := d.history.(interval := None))))
            else State(SettingsEditor.Group(g - 1), d)
  {
    hide Typed, Trim, FitsOnDisk, After, ValidSettings, ParseU64;
    ClearIsNoNumber();
    ValueTyped(w, o, d, a, g, i, "clear");
  }

  /** The endpoint, the cluster and, on a custom cluster, the genesis hash take the text as it is typed;
      `clear` unsets the endpoint and the hash; another cluster unsets the hash. */
  lemma TypingAText(w: World, o: Settings, d: Settings, a: seq<Answer>, i: nat, word: string)
    requires |a| == 3 && 1 <= i <= 3 && Types(a[0], "1") && Types(a[1], Numeral(i))
    requires Types(a[2], word) && Solid(word) && word !in {"", "exit"} && (i == 3 ==> d.rpc.cluster == "custom")
    ensures After(w, o, State(Menu, d), a) == Kept(w, 0, d,
      if i == 1 then
        (if word == "clear" then Some(d.(rpc := d.rpc.(url := None)))
         else if UrlOk(w, Some(word)) then Some(d.(rpc := d.rpc.(url := Some(word)))) else None)
      else if i == 2 then
        (if word !in {"mainnet", "devnet", "testnet", "custom"} then None
         else if word == d.rpc.cluster then Some(d)
         else Some(d.(rpc := d.rpc.(cluster := word, pin := None))))
      else if word == "clear" then Some(d.(rpc := d.rpc.(pin := None)))
      else if w.hashOk(word) then Some(d.(rpc := d.rpc.(pin := Some(word)))) else None)
  {
    hide Typed, Trim, FitsOnDisk, After, ValidSettings, UrlOk;
    ValueTyped(w, o, d, a, 1, i, word);
    UrlAlone(w, if word == "clear" then None else Some(word));
    NoUrlIsOk(w);
  }

  lemma NoUrlIsOk(w: World)
    ensures UrlOk(w, None)
  {
  }

  // ---------------------------------------------------------------- leaving and saving

  lemma GoingBack(w: World, o: Settings, d: Settings, a: Answer, g: nat, word: string)
    requires Types(a, word) && word in {"b", "back", ""}
    ensures Step(w, o, State(SettingsEditor.Group(g), d), a) == State(Menu, d)
  {
    hide Typed, Trim;
    TypedStep(w, o, State(SettingsEditor.Group(g), d), a, word);
  }

  function AfterSave(w: World, o: Settings, d: Settings): Prompt {
    if d == o then SettingsEditor.Ended(NoDraft) else if ValidSettings(w, d) && FitsOnDisk(w, d) then SaveConfirm else Menu
  }

  /** At the main menu `c` gives the edit up; `s` asks for the confirmation of a draft that is valid, fits and
      was changed, gives an unchanged one up, and refuses any other; at the confirmation SAVE saves the draft
      and any other word goes back. */
  lemma SavingAndCancelling(w: World, o: Settings, d: Settings, a: Answer, word: string)
    requires Types(a, word) && Solid(word) && word != "exit"
    ensures word in {"c", "cancel"} ==> Step(w, o, State(Menu, d), a) == State(SettingsEditor.Ended(NoDraft), d)
    ensures word in {"s", "save"} ==> Step(w, o, State(Menu, d), a) == State(AfterSave(w, o, d), d)
    ensures Step(w, o, State(SaveConfirm, d), a) == State(if word == "SAVE" then SettingsEditor.Ended(Saved(d)) else Menu, d)
  {
    hide Typed, Trim, ValidSettings, FitsOnDisk;
    TypedStep(w, o, State(Menu, d), a, word);
    TypedStep(w, o, State(SaveConfirm, d), a, word);
  }

  lemma BackSaveConfirm(w: World, o: Settings, d: Settings, a: seq<Answer>)
    requires |a| == 3 && Types(a[0], "b") && Types(a[1], "s") && Types(a[2], "SAVE")
    requires d != o && ValidSettings(w, d) && FitsOnDisk(w, d)
    ensures After(w, o, State(SettingsEditor.Group(2), d), a) == State(SettingsEditor.Ended(Saved(d)), d)
  {
    hide Typed, Trim, ValidSettings, FitsOnDisk, Step;
    Three(w, o, State(SettingsEditor.Group(2), d), a);
    GoingBack(w, o, d, a[0], 2, "b");
    SavingAndCancelling(w, o, d, a[1], "s");
    SavingAndCancelling(w, o, d, a[2], "SAVE");
  }

  lemma ValidWithWallets(w: World, d: Settings, wallets: seq<string>)
    requires ValidSettings(w, d) && |wallets| <= 16
    ensures ValidSettings(w, WithWallets(d, wallets))
  {
    WalletsAreBounded(w, d, wallets);
  }

  /** A whole session: `3`, `4`, `add`, a new valid name, `b`, `s`, `SAVE` saves the settings with that name
      at the end of the history wallets and nothing else changed, whatever comes after. */
  lemma AddingAndSaving(w: World, d: Settings, a: seq<Answer>, name: string)
    requires |a| >= 7 && Types(a[0], "3") && Types(a[1], "4") && Types(a[2], "add") && Types(a[3], name)
    requires Types(a[4], "b") && Types(a[5], "s") && Types(a[6], "SAVE")
    requires ValidName(name) && name != "exit" && name !in d.history.wallets && |d.history.wallets| < 16
    requires ValidSettings(w, d) && FitsOnDisk(w, WithWallets(d, d.history.wallets + [name]))
    ensures Verdict(w, d, State(Menu, d), a) == Saved(WithWallets(d, d.history.wallets + [name]))
  {
    hide Typed, Trim, After, Step, FitsOnDisk, ValidSettings;
    var next := WithWallets(d, d.history.wallets + [name]);
    ValidWithWallets(w, d, d.history.wallets + [name]);
    assert |next.history.wallets| == |d.history.wallets| + 1;
    assert a == a[..4] + (a[4..7] + a[7..]);
    AddingAWallet(w, d, d, a[..4], name);
    AfterAppend(w, d, State(Menu, d), a[..4], a[4..7] + a[7..]);
    BackSaveConfirm(w, d, next, a[4..7]);
    AfterAppend(w, d, State(SettingsEditor.Group(2), next), a[4..7], a[7..]);
    EndedStays(w, d, State(SettingsEditor.Ended(Saved(next)), next), a[7..]);
    VerdictIsWhereItLeads(w, d, State(Menu, d), a);
  }

  /** At every prompt, `exit` and the end of the input give the edit up, and a failing read is an error. */
  lemma Stopping(w: World, o: Settings, s: State, a: Answer)
    requires !s.prompt.Ended?
    ensures Types(a, "exit") || a == Eof ==> Step(w, o, s, a) == State(SettingsEditor.Ended(NoDraft), s.draft)
    ensures a == IoFailed ==> Step(w, o, s, a) == State(SettingsEditor.Ended(EditFailed), s.draft)
  {
    hide Typed, Trim, Answered;
    if Types(a, "exit") { TypedStep(w, o, s, a, "exit"); }
  }
}
