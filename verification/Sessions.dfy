/** One process's commands against a vault file that others also write: unlocking, loading, saving, and
    the two commands that ask for approval first, settings and deletion. Any action may fail, and whenever
    this process does not hold the lock the others may have replaced the file. */
module Sessions {
  import opened Prelude
  import opened Configuration
  import opened VaultValue
  import opened Audit
  import opened Envelope
  import opened Text
  import Edit = SettingsEditor
  import V = Vault

  /** A file that, if it opens, holds a consistent vault; every committed image is one
      (`CommitSafety.NameIsAlwaysComplete`). */
  predicate Genuine(w: World, file: Option<Bytes>) {
    file.Some? && Open(w, file.value).Ok? ==> Inv(w, Open(w, file.value).value.contents)
  }

  // What the other processes leave under the vault name the n-th time they may run; None if they leave it be
  type Others = nat -> Option<Option<Bytes>>

  // The vault name after the others' turns from `from` up to `to`
  function Name(others: Others, vault: Option<Bytes>, from: nat, to: nat): Option<Bytes> {
    if to <= from then vault
    else if others(to - 1).Some? then others(to - 1).value
    else Name(others, vault, from, to - 1)
  }

  lemma {:induction false} NameAfter(others: Others, vault: Option<Bytes>, from: nat, mid: nat, to: nat)
    requires from <= mid <= to
    ensures Name(others, Name(others, vault, from, mid), mid, to) == Name(others, vault, from, to)
  {
    if mid < to { NameAfter(others, vault, from, mid, to - 1); }
  }

  /** The name then holds what was last left there: by the last of the others' turns that wrote, if one did. */
  lemma {:induction false} NameIsLast(others: Others, vault: Option<Bytes>, from: nat, to: nat)
    ensures (forall n: nat :: from <= n < to ==> others(n).None?) ==> Name(others, vault, from, to) == vault
    ensures forall k: nat :: from <= k < to && others(k).Some? && (forall n: nat :: k < n < to ==> others(n).None?) ==>
              Name(others, vault, from, to) == others(k).value
  {
    if from < to { NameIsLast(others, vault, from, to - 1); }
  }

  lemma {:induction false} NameWhenCalm(others: Others, vault: Option<Bytes>, from: nat, to: nat)
    requires forall n: nat :: others(n).None?
    ensures Name(others, vault, from, to) == vault
  {
    if from < to { NameWhenCalm(others, vault, from, to - 1); }
  }

  class Directory {
    const allows: nat -> bool   // whether this process's n-th fallible action succeeds
    const others: Others
    var vault: Option<Bytes>    // the file under the vault name
    var temps: map<nat, Bytes>
    var attempts: nat           // this process's fallible actions so far
    var turns: nat              // the others' turns so far

    constructor (vault: Option<Bytes>, allows: nat -> bool, others: Others)
      ensures this.vault == vault && temps == map[] && attempts == 0 && turns == 0
      ensures this.allows == allows && this.others == others
    {
      this.vault, this.allows, this.others, temps, attempts, turns := vault, allows, others, map[], 0, 0;
    }

    ghost predicate Sound(w: World)
      reads this
    {
      Genuine(w, vault) && forall n: nat :: others(n).Some? ==> Genuine(w, others(n).value)
    }

    // Nobody else writes and nothing fails.
    ghost predicate Calm() { forall n: nat :: allows(n) && others(n).None? }

    method Try() returns (ok: bool)
      modifies this`attempts
      ensures ok == allows(old(attempts)) && attempts == old(attempts) + 1
    {
      ok := allows(attempts);
      attempts := attempts + 1;
    }

    method OthersRun(ghost w: World)
      requires Sound(w)
      modifies this`vault, this`turns
      ensures Sound(w)
      ensures turns == old(turns) + 1 && vault == Name(others, old(vault), old(turns), turns)
    {
      hide Genuine;
      if others(turns).Some? { vault := others(turns).value; }
      turns := turns + 1;
    }
  }

  // The key follows from the vault's one password and the salt.
  datatype Session = Session(salt: Salt)

  predicate Opens(w: World, file: Option<Bytes>, s: Session, c: Contents, audit: Audit) {
    file.Some? && Open(w, file.value) == Ok(Opened(s.salt, c, audit))
  }

  // The file under the name is an authentic vault file with this salt, of whatever vault.
  ghost predicate HoldsVault(w: World, file: Option<Bytes>, salt: Salt) {
    file.Some? && exists c: Contents, audit: Audit :: VaultFile(w, file.value, salt, c, audit)
  }

  lemma HoldsIff(w: World, file: Option<Bytes>, salt: Salt)
    ensures HoldsVault(w, file, salt) <==> file.Some? && Open(w, file.value).Ok? && Open(w, file.value).value.salt == salt
    ensures file.Some? && Open(w, file.value).Ok? ==>
      var o := Open(w, file.value).value; VaultFile(w, file.value, o.salt, o.contents, o.audit)
  {
    hide Open, VaultFile;
    if file.Some? && Open(w, file.value).Ok? { OpenedIsVaultFile(w, file.value); }
    if HoldsVault(w, file, salt) {
      var c: Contents, audit: Audit :| VaultFile(w, file.value, salt, c, audit);
      VaultFileOpens(w, file.value, salt, c, audit);
    }
  }

  /** `Session::load`: the vault of the file under the name, if reading succeeds and the file is an authentic
      vault file with the session's salt. */
  method Load(w: World, s: Session, dir: Directory) returns (r: Option<V.Vault>)
    requires dir.Sound(w)
    modifies dir`vault, dir`turns, dir`attempts
    ensures dir.Sound(w)
    ensures dir.turns == old(dir.turns) + 1 && dir.attempts == old(dir.attempts) + 1
    ensures dir.vault == Name(dir.others, old(dir.vault), old(dir.turns), dir.turns)
    ensures r.Some? <==> dir.allows(old(dir.attempts)) && HoldsVault(w, dir.vault, s.salt)
    ensures r.Some? ==>
      && fresh(r.value) && Inv(w, r.value.Value())
      && VaultFile(w, dir.vault.value, s.salt, r.value.Value(), r.value.audit)
      && r.value.source == dir.vault && Opens(w, dir.vault, s, r.value.Value(), r.value.audit)
      && r.value.savedConfig == Some(r.value.config)
  {
    hide Inv, Open, Name, HoldsVault, VaultFile;
    dir.OthersRun(w);
    HoldsIff(w, dir.vault, s.salt);
    var ok := dir.Try();
    if !ok || dir.vault.None? { return None; }
    var contents := Open(w, dir.vault.value);
    if contents.Err? || contents.value.salt != s.salt { return None; }
    var v := new V.Vault();
    var c := contents.value.contents;
    v.config := Config("", c.settings);
    v.masters, v.accounts, v.recipients := c.masters, c.accounts, c.recipients;
    v.audit, v.savedConfig, v.source := contents.value.audit, Some(v.config), dir.vault;
    return Some(v);
  }

  function SavedSettings(saved: Option<Config>): Option<Settings> {
    if saved.Some? then Some(saved.value.settings) else None
  }

  // The bytes a save would write, if the audit and the contents allow one
  function ImageOf(w: World, s: Session, audit: Audit, saved: Option<Settings>, c: Contents, now: u64, nonce: Nonce): Option<Bytes> {
    var next := NextAudit(audit, saved, c.settings, now);
    if next.Err? then None
    else
      var image := Seal(w, s.salt, nonce, c, next.value);
      if image.Ok? then Some(image.value) else None
  }

  /** `Session::save`. `seen` is what the name held when the lock had been taken. The new file replaces it
      exactly when it was the vault's own baseline and every action up to the rename succeeded; nothing
      else changes the name, and the vault in memory changes with it or not at all. */
  method Save(w: World, s: Session, dir: Directory, v: V.Vault, now: u64, nonce: Nonce, temp: nat)
    returns (ok: bool, ghost renamed: bool, ghost seen: Option<Bytes>)
    requires w.Lawful() && dir.Sound(w) && Inv(w, v.Value())
    modifies dir, v`source, v`audit, v`savedConfig
    ensures dir.Sound(w)
    ensures var image := ImageOf(w, s, old(v.audit), old(SavedSettings(v.savedConfig)), v.Value(), now, nonce);
      && dir.turns == old(dir.turns) + (if image.Some? then 1 else 0)
      && seen == Name(dir.others, old(dir.vault), old(dir.turns), dir.turns)
      && (renamed <==>
            && image.Some? && seen == old(v.source) && temp !in old(dir.temps)
            && AllAllowed(dir.allows, old(dir.attempts), 2) && AllAllowed(dir.allows, old(dir.attempts) + 2, 4))
      && (ok <==> renamed && dir.allows(old(dir.attempts) + 6))
      && dir.vault == (if renamed then image else seen)
    ensures dir.temps - {temp} == old(dir.temps) - {temp}
    ensures renamed ==>
      && v.source == dir.vault && Opens(w, dir.vault, s, v.Value(), v.audit)
      && v.savedConfig == Some(v.config)
      && NextAudit(old(v.audit), old(SavedSettings(v.savedConfig)), v.config.settings, now) == Ok(v.audit)
    ensures !renamed ==>
      v.source == old(v.source) && v.audit == old(v.audit) && v.savedConfig == old(v.savedConfig)
  {
    hide Inv, Open, Genuine, Seal, NextAudit, Opens, Name, AllAllowed;
    ok, renamed, seen := false, false, dir.vault;
    NameNow(dir);
    var audit := NextAudit(v.audit, SavedSettings(v.savedConfig), v.config.settings, now);
    if audit.Err? { return; }
    var c := Contents(v.config.settings, v.masters, v.accounts, v.recipients);
    var sealed := Seal(w, s.salt, nonce, c, audit.value);
    if sealed.Err? { return; }
    var image := sealed.value;
    SealedIsGenuine(w, s, nonce, c, audit.value);
    dir.OthersRun(w);
    seen := dir.vault;
    var current := LockAndCompare(dir, v.source);
    if !current { return; }
    var written := ReplaceFile(dir, temp, image);
    if written {
      renamed := true;
      v.source, v.audit, v.savedConfig := Some(image), audit.value, Some(v.config);
      ok := dir.Try();
    }
    if !ok {
      var removed := dir.Try();
      if removed { dir.temps := dir.temps - {temp}; }
    }
  }

  // Take the lock without waiting, and read the file to compare it with the baseline.
  method LockAndCompare(dir: Directory, source: Option<Bytes>) returns (current: bool)
    modifies dir`attempts
    ensures current <==> AllAllowed(dir.allows, old(dir.attempts), 2) && dir.vault == source
    ensures current ==> dir.attempts == old(dir.attempts) + 2
  {
    var locked := dir.Try();
    if !locked { return false; }
    var read := dir.Try();
    return read && dir.vault == source;
  }

  lemma NameNow(dir: Directory)
    ensures forall vault: Option<Bytes>, n: nat :: Name(dir.others, vault, n, n) == vault
  {
  }

  // The next `count` actions succeed.
  ghost predicate AllAllowed(allows: nat -> bool, start: nat, count: nat) {
    forall i: nat :: start <= i < start + count ==> allows(i)
  }

  lemma FourActions(allows: nat -> bool, a: nat)
    ensures AllAllowed(allows, a, 4) <==> allows(a) && allows(a + 1) && allows(a + 2) && allows(a + 3)
  {
  }

  // The temporary file: created exclusively, written, synced, renamed over the vault name
  method ReplaceFile(dir: Directory, temp: nat, image: Bytes) returns (renamed: bool)
    modifies dir`vault, dir`temps, dir`attempts
    ensures renamed <==> temp !in old(dir.temps) && AllAllowed(dir.allows, old(dir.attempts), 4)
    ensures renamed ==> dir.attempts == old(dir.attempts) + 4 && temp !in dir.temps
    ensures dir.temps - {temp} == old(dir.temps) - {temp}
    ensures dir.vault == if renamed then Some(image) else old(dir.vault)
  {
    hide AllAllowed;
    FourActions(dir.allows, dir.attempts);
    renamed := dir.Try();
    if !renamed || temp in dir.temps { return false; }
    dir.temps := dir.temps[temp := []];
    renamed := dir.Try();
    if !renamed { return; }
    dir.temps := dir.temps[temp := image];
    renamed := dir.Try();
    if !renamed { return; }
    renamed := dir.Try();
    if !renamed { return; }
    dir.vault, dir.temps := Some(image), dir.temps - {temp};
  }

  lemma SealedIsGenuine(w: World, s: Session, nonce: Nonce, c: Contents, audit: Audit)
    requires w.Lawful() && Inv(w, c) && Seal(w, s.salt, nonce, c, audit).Ok?
    ensures Opens(w, Some(Seal(w, s.salt, nonce, c, audit).value), s, c, audit)
    ensures Genuine(w, Some(Seal(w, s.salt, nonce, c, audit).value))
  {
    hide Shape, Keyed, Seal, Open;
    SealedOpens(w, s.salt, nonce, c, audit);
  }

  // ---------------------------------------------------------------- commands that ask first

  ghost predicate OpensTo(w: World, file: Option<Bytes>, c: Contents, audit: Audit) {
    && file.Some? && Open(w, file.value).Ok?
    && Open(w, file.value).value.contents == c && Open(w, file.value).value.audit == audit
  }

  /** `confirm_delete_metadata`: None is a refusal, otherwise whether to erase the phrase. */
  function ConfirmDelete(name: string, usage: PhraseUse, first: Option<string>, second: Option<string>): Option<bool> {
    if first.None? || Trim(first.value) != name then None
    else if usage != UnusedAfterDeletion then Some(false)
    else if second.None? then None
    else if Trim(second.value) == "ERASE" then Some(true)
    else if Trim(second.value) == "" then Some(false)
    else None
  }

  class App {
    var config: Config
    var session: Option<Session>
    const shell: bool

    constructor (config: Config, shell: bool)
      ensures this.config == config && session == None && this.shell == shell
    {
      this.config, this.shell, session := config, shell, None;
    }

    method ReleaseSession()
      modifies this`session
      ensures session == if !shell || !config.settings.security.cacheUnlocked then None else old(session)
    {
      if !shell || !config.settings.security.cacheUnlocked { session := None; }
    }

    /** `App::vault`: unlock if necessary, then load. Both read the file, and the others may run before each. */
    method LoadVault(w: World, dir: Directory) returns (r: Option<V.Vault>, s: Session)
      requires dir.Sound(w)
      modifies this`session, dir`vault, dir`turns, dir`attempts
      ensures dir.Sound(w)
      ensures old(dir.turns) < dir.turns && dir.vault == Name(dir.others, old(dir.vault), old(dir.turns), dir.turns)
      ensures r.Some? <==> Loads(w, dir.allows, dir.others, old(session), old(dir.vault), old(dir.attempts), old(dir.turns))
      ensures r.Some? ==>
        && fresh(r.value) && Inv(w, r.value.Value())
        && r.value.source == dir.vault && OpensTo(w, dir.vault, r.value.Value(), r.value.audit)
        && VaultFile(w, dir.vault.value, s.salt, r.value.Value(), r.value.audit)
        && r.value.savedConfig == Some(r.value.config)
        && session == Some(s) && OpensWith(w, dir.vault, s.salt)
    {
      hide Inv, Open, Genuine, Name, VaultFile, HoldsVault, HoldsBoth;
      r, s := None, Session(seq(16, _ => 0));
      NameSteps(dir, dir.vault, dir.turns);
      LoadsIff(w, dir.allows, dir.others, session, dir.vault, dir.attempts, dir.turns);
      if session.None? {
        dir.OthersRun(w);
        var ok := dir.Try();
        if !ok || dir.vault.None? { return; }
        var first := Open(w, dir.vault.value);
        if first.Err? { return; }
        session := Some(Session(first.value.salt));
      }
      s := session.value;
      r := Load(w, s, dir);
      HoldsIff(w, dir.vault, s.salt);
    }

    /** `settings::commit`. It replaces only the reviewed revision, changes nothing but the settings, and
        `config` adopts a changed candidate exactly when the rename happened; otherwise the name holds what
        the others left. When nothing interferes and the candidate can be written, it succeeds. */
    method CommitSettings(w: World, dir: Directory, revision: Bytes, candidate: Config, now: u64, nonce: Nonce, temp: nat)
      returns (ok: bool, ghost renamed: bool, ghost seen: Option<Bytes>)
      requires w.Lawful() && dir.Sound(w)
      modifies this, dir
      ensures dir.Sound(w)
      ensures old(dir.turns) <= dir.turns && seen == Name(dir.others, old(dir.vault), old(dir.turns), dir.turns)
      ensures ok ==> renamed
      ensures renamed ==> old(dir.turns) < dir.turns
      ensures !renamed ==> dir.vault == seen && config == old(config)
      ensures renamed ==>
        && seen == Some(revision) && Open(w, revision).Ok?
        && ValidSettings(w, candidate.settings) && FitsOnDisk(w, candidate.settings)
        && var was := Open(w, revision).value;
        && NextAudit(was.audit, Some(was.contents.settings), candidate.settings, now).Ok?
        && OpensTo(w, dir.vault, was.contents.(settings := candidate.settings),
                   NextAudit(was.audit, Some(was.contents.settings), candidate.settings, now).value)
        && (was.contents.settings != candidate.settings ==> config == candidate)
        && config in {candidate, old(config)}
      ensures
        && dir.Calm() && temp !in old(dir.temps) && old(dir.vault) == Some(revision)
        && Readable(w, old(session), old(dir.vault)) && CanCommit(w, revision, candidate.settings, now, nonce)
        ==> ok
    {
      hide Inv, Open, Genuine, ValidSettings, FitsOnDisk, NextAudit, Name, Seal, Loads, VaultFile;
      ok, renamed, seen := false, false, dir.vault;
      NameNow(dir);
      if !ValidSettings(w, candidate.settings) || !FitsOnDisk(w, candidate.settings) { return; }
      ghost var start := dir.turns;
      var current, s := LoadVault(w, dir);
      seen := dir.vault;
      CalmLoads(w, dir, old(session), old(dir.vault), old(dir.attempts), start);
      if current.None? || current.value.source != Some(revision) { return; }
      var v := current.value;
      ghost var was := v.Value();
      v.config := candidate;
      SettingsAreFree(w, was, candidate.settings);
      assert v.Value() == was.(settings := candidate.settings);
      ghost var mid := dir.turns;
      ok, renamed, seen := Save(w, s, dir, v, now, nonce, temp);
      NameAfter(dir.others, old(dir.vault), start, mid, dir.turns);
      CalmName(dir, old(dir.vault), start, dir.turns);
      if v.source != Some(revision) { config := v.config; }
    }

    // The second half of `delete`, after the approval: only the reviewed revision is replaced.
    method DeleteReviewed(w: World, dir: Directory, revision: Bytes, name: string, erase: bool, now: u64, nonce: Nonce, temp: nat)
      returns (ok: bool, ghost renamed: bool, ghost seen: Option<Bytes>)
      requires w.Lawful() && dir.Sound(w)
      modifies this`session, dir
      ensures dir.Sound(w)
      ensures old(dir.turns) < dir.turns && seen == Name(dir.others, old(dir.vault), old(dir.turns), dir.turns)
      ensures ok ==> renamed
      ensures !renamed ==> dir.vault == seen
      ensures renamed ==>
        && seen == Some(revision) && Open(w, revision).Ok?
        && var was := Open(w, revision).value;
        && References(was.contents) && RemoveAccount(was.contents, name, erase).Ok?
        && OpensTo(w, dir.vault, RemoveAccount(was.contents, name, erase).value, was.audit)
      ensures
        && dir.Calm() && temp !in old(dir.temps) && old(dir.vault) == Some(revision)
        && Readable(w, old(session), old(dir.vault)) && CanRemove(w, revision, name, erase, now, nonce)
        ==> ok
    {
      hide Inv, Open, Genuine, NextAudit, RemoveAccount, Name, Seal, Loads, AllAllowed, VaultFile;
      ok, renamed := false, false;
      ghost var start := dir.turns;
      var current, s := LoadVault(w, dir);
      CalmLoads(w, dir, old(session), old(dir.vault), old(dir.attempts), start);
      seen := dir.vault;
      if current.None? || current.value.source != Some(revision) { return; }
      var v := current.value;
      ghost var was := v.Value();
      V.Vault.InvBasics(w, was);
      var error := v.RemoveAccount(w, name, erase);
      if error.Some? { return; }
      RemovalKeepsSettings(was, name, erase);
      ghost var mid := dir.turns;
      ok, renamed, seen := Save(w, s, dir, v, now, nonce, temp);
      NameAfter(dir.others, old(dir.vault), start, mid, dir.turns);
      CalmName(dir, old(dir.vault), start, dir.turns);
      SameSettingsKeepAudit(Open(w, revision).value.audit, was.settings, now);
    }

    /** `delete`. `revision` is the file that was reviewed, at the others' turn `reviewed`; only it is ever
        replaced, by itself without the wallet, and otherwise the name holds what the others left. When
        nothing interferes, an approved deletion that can be written succeeds. */
    method DeleteWallet(w: World, dir: Directory, name: string, first: Option<string>, second: Option<string>,
                        now: u64, nonce: Nonce, temp: nat)
      returns (ok: bool, ghost renamed: bool, ghost seen: Option<Bytes>, ghost revision: Option<Bytes>, ghost reviewed: nat)
      requires w.Lawful() && dir.Sound(w)
      modifies this`session, dir
      ensures dir.Sound(w)
      ensures old(dir.turns) <= reviewed <= dir.turns
      ensures revision.Some? ==> revision == Name(dir.others, old(dir.vault), old(dir.turns), reviewed)
      ensures seen == Name(dir.others, old(dir.vault), old(dir.turns), dir.turns)
      ensures ok ==> renamed
      ensures !renamed ==> dir.vault == seen
      ensures renamed ==>
        && seen == revision && revision.Some? && reviewed < dir.turns && Open(w, revision.value).Ok?
        && var was := Open(w, revision.value).value;
        && References(was.contents) && dir.vault.Some? && Open(w, dir.vault.value).Ok?
        && Open(w, dir.vault.value).value.audit == was.audit
        && exists p: nat :: Deletes(was.contents, p, name, first, second, Open(w, dir.vault.value).value.contents)
      ensures
        dir.Calm() && temp !in old(dir.temps) && CanDelete(w, old(session), old(dir.vault), name, first, second, now, nonce) ==> ok
    {
      hide Inv, Open, Genuine, RecoveryPhraseUse, RemoveAccount, ConfirmDelete, Name, Loads, ImageOf, VaultFile, DeletionApproved,
        ErasesPhrase, RemovedExactly, DeleteAt;
      ok, renamed, seen, revision, reviewed := false, false, dir.vault, None, dir.turns;
      NameNow(dir);
      ghost var start := dir.turns;
      var loaded, s := LoadVault(w, dir);
      CalmLoads(w, dir, old(session), old(dir.vault), old(dir.attempts), start);
      seen, reviewed := dir.vault, dir.turns;
      if loaded.None? { return; }
      revision := loaded.value.source;
      var v := loaded.value;
      ghost var was := v.Value();
      V.Vault.InvBasics(w, was);
      NoSuchWallet(was, name);
      var usage := RecoveryPhraseUse(Contents(v.config.settings, v.masters, v.accounts, v.recipients), name);
      if usage.Err? {
        NothingToDelete(was, name, first, second);
        return;
      }
      ReleaseSession();
      ghost var p := Find(was.accounts, name).value;
      NamesAreValid(w, was, p);
      ConfirmIff(was, p, first, second);
      OnlyApprovedAt(was, p, name, first, second);
      var erase := ConfirmDelete(name, usage.value, first, second);
      if erase.None? { return; }
      ApprovedRemoval(w, was, p, erase.value);
      ok, renamed, seen := DeleteReviewed(w, dir, v.source.value, name, erase.value, now, nonce, temp);
      NameAfter(dir.others, old(dir.vault), start, reviewed, dir.turns);
      assert renamed ==> Deletes(was, p, name, first, second, DeleteAt(was, p, erase.value));
    }

    /** `config`: review the settings, edit them, commit. The saved settings are what the answers made of
        the reviewed ones; nothing else in the vault changes; and the edit counter rises by one. */
    method EditSettings(w: World, dir: Directory, answers: seq<Edit.Answer>, now: u64, nonce: Nonce, temp: nat)
      returns (ok: bool, ghost renamed: bool, ghost seen: Option<Bytes>, ghost revision: Option<Bytes>, ghost reviewed: nat)
      requires w.Lawful() && dir.Sound(w)
      modifies this, dir
      ensures dir.Sound(w)
      ensures old(dir.turns) <= reviewed <= dir.turns
      ensures revision.Some? ==> revision == Name(dir.others, old(dir.vault), old(dir.turns), reviewed)
      ensures seen == Name(dir.others, old(dir.vault), old(dir.turns), dir.turns)
      ensures !renamed ==> dir.vault == seen
      ensures renamed ==>
        && seen == revision && revision.Some? && reviewed < dir.turns && Open(w, revision.value).Ok?
        && var was := Open(w, revision.value).value; var shown := was.contents.settings;
        && var outcome := Edit.Verdict(w, shown, Edit.State(Edit.Menu, shown), answers);
        && outcome.Saved? && outcome.settings != shown && ValidSettings(w, outcome.settings) && FitsOnDisk(w, outcome.settings)
        && config.settings == outcome.settings
        && was.audit.edits + 1 < U64_LIMIT && now >= was.audit.lastEdit
        && OpensTo(w, dir.vault, was.contents.(settings := outcome.settings), Audit(was.audit.edits + 1, now))
      ensures !renamed && revision.Some? ==>
        Open(w, revision.value).Ok? && config.settings == Open(w, revision.value).value.contents.settings
      ensures revision.None? ==> config == old(config)
      ensures
        dir.Calm() && temp !in old(dir.temps) && CanEdit(w, old(session), old(dir.vault), answers, now, nonce) ==> ok && renamed
    {
      hide Inv, Open, Genuine, ValidSettings, FitsOnDisk, NextAudit, Edit.Verdict, Name, Seal, Loads, VaultFile;
      ok, renamed, seen, revision, reviewed := false, false, dir.vault, None, dir.turns;
      NameNow(dir);
      ghost var start := dir.turns;
      var loaded, s := LoadVault(w, dir);
      CalmLoads(w, dir, old(session), old(dir.vault), old(dir.attempts), start);
      seen, reviewed := dir.vault, dir.turns;
      if loaded.None? { ReleaseSession(); return; }
      revision := loaded.value.source;
      var before := loaded.value.source.value;
      var original := Config(config.locator, loaded.value.config.settings);
      config := original;
      var editor := new Edit.Editor(w, original.settings, answers);
      var outcome := editor.Edit();
      if outcome.Saved? {
        Edit.OnlyValidDraftsAreSaved(w, original.settings, answers);
        ok, renamed, seen := CommitSettings(w, dir, before, Config(original.locator, outcome.settings), now, nonce, temp);
        NameAfter(dir.others, old(dir.vault), start, reviewed, dir.turns);
        ChangedSettingsCount(Open(w, before).value.audit, original.settings, outcome.settings, now);
      } else {
        ok := outcome.NoDraft?;
      }
      ReleaseSession();
    }
  }

  // A file that opens, in the session that is open, if one is
  predicate Readable(w: World, session: Option<Session>, file: Option<Bytes>) {
    && file.Some? && Open(w, file.value).Ok?
    && (session.Some? ==> session.value.salt == Open(w, file.value).value.salt)
  }

  // The settings are valid and can be written over the reviewed revision.
  predicate CanCommit(w: World, revision: Bytes, settings: Settings, now: u64, nonce: Nonce)
    requires Open(w, revision).Ok?
  {
    var was := Open(w, revision).value;
    && ValidSettings(w, settings) && FitsOnDisk(w, settings)
    && ImageOf(w, Session(was.salt), was.audit, Some(was.contents.settings),
               was.contents.(settings := settings), now, nonce).Some?
  }

  // The answers save settings that can be committed.
  predicate CanEdit(w: World, session: Option<Session>, file: Option<Bytes>, answers: seq<Edit.Answer>, now: u64, nonce: Nonce) {
    && Readable(w, session, file)
    && var shown := Open(w, file.value).value.contents.settings;
    && var outcome := Edit.Verdict(w, shown, Edit.State(Edit.Menu, shown), answers);
    && outcome.Saved? && CanCommit(w, file.value, outcome.settings, now, nonce)
  }

  // The vault without the wallet can be written.
  predicate CanRemove(w: World, revision: Bytes, name: string, erase: bool, now: u64, nonce: Nonce)
    requires Open(w, revision).Ok?
  {
    var was := Open(w, revision).value;
    && References(was.contents) && RemoveAccount(was.contents, name, erase).Ok?
    && ImageOf(w, Session(was.salt), was.audit, Some(was.contents.settings),
               RemoveAccount(was.contents, name, erase).value, now, nonce).Some?
  }

  // The deletion is approved and the vault without the wallet can be written.
  ghost predicate CanDelete(w: World, session: Option<Session>, file: Option<Bytes>, name: string,
                      first: Option<string>, second: Option<string>, now: u64, nonce: Nonce)
  {
    && Readable(w, session, file)
    && var was := Open(w, file.value).value;
    && References(was.contents)
    && exists p: nat, d: Contents :: Deletes(was.contents, p, name, first, second, d)
         && ImageOf(w, Session(was.salt), was.audit, Some(was.contents.settings), d, now, nonce).Some?
  }

  predicate OpensWith(w: World, file: Option<Bytes>, salt: Salt) {
    file.Some? && Open(w, file.value).Ok? && Open(w, file.value).value.salt == salt
  }

  ghost predicate HoldsBoth(w: World, first: Option<Bytes>, second: Option<Bytes>, salt: Salt) {
    HoldsVault(w, first, salt) && HoldsVault(w, second, salt)
  }

  /** When unlocking, if it is needed, and loading succeed: the reads do, and they find authentic vault files
      with the session's salt, or with one salt. */
  ghost predicate Loads(w: World, allows: nat -> bool, others: Others, session: Option<Session>, vault: Option<Bytes>,
                        attempts: nat, turns: nat)
  {
    var first, second := Name(others, vault, turns, turns + 1), Name(others, vault, turns, turns + 2);
    if session.Some? then allows(attempts) && HoldsVault(w, first, session.value.salt)
    else allows(attempts) && allows(attempts + 1) && exists salt: Salt :: HoldsBoth(w, first, second, salt)
  }

  // The same in terms of opening
  lemma LoadsIff(w: World, allows: nat -> bool, others: Others, session: Option<Session>, vault: Option<Bytes>, attempts: nat, turns: nat)
    ensures var first, second := Name(others, vault, turns, turns + 1), Name(others, vault, turns, turns + 2);
      Loads(w, allows, others, session, vault, attempts, turns) <==>
        if session.Some? then allows(attempts) && OpensWith(w, first, session.value.salt)
        else allows(attempts) && allows(attempts + 1)
             && first.Some? && Open(w, first.value).Ok? && OpensWith(w, second, Open(w, first.value).value.salt)
  {
    hide Open, HoldsVault, Name;
    var first, second := Name(others, vault, turns, turns + 1), Name(others, vault, turns, turns + 2);
    forall salt: Salt
      ensures HoldsVault(w, first, salt) <==> OpensWith(w, first, salt)
      ensures HoldsVault(w, second, salt) <==> OpensWith(w, second, salt)
    {
      HoldsIff(w, first, salt);
      HoldsIff(w, second, salt);
    }
    if first.Some? && Open(w, first.value).Ok? && OpensWith(w, second, Open(w, first.value).value.salt) {
      assert HoldsBoth(w, first, second, Open(w, first.value).value.salt);
    }
    if salt: Salt :| HoldsBoth(w, first, second, salt) {
      assert OpensWith(w, first, salt) && OpensWith(w, second, salt);
    }
  }

  lemma NameSteps(dir: Directory, vault: Option<Bytes>, turns: nat)
    ensures Name(dir.others, Name(dir.others, vault, turns, turns + 1), turns + 1, turns + 2) == Name(dir.others, vault, turns, turns + 2)
  {
    NameAfter(dir.others, vault, turns, turns + 1, turns + 2);
  }

  lemma CalmName(dir: Directory, vault: Option<Bytes>, from: nat, to: nat)
    ensures dir.Calm() ==> Name(dir.others, vault, from, to) == vault
    ensures dir.Calm() ==> forall a: nat, n: nat :: AllAllowed(dir.allows, a, n)
  {
    if dir.Calm() { NameWhenCalm(dir.others, vault, from, to); }
  }

  lemma CalmLoads(w: World, dir: Directory, session: Option<Session>, vault: Option<Bytes>, attempts: nat, turns: nat)
    ensures dir.Calm() && Readable(w, session, vault) ==> Loads(w, dir.allows, dir.others, session, vault, attempts, turns)
    ensures dir.Calm() ==> forall to: nat :: Name(dir.others, vault, turns, to) == vault
  {
    hide Open, Loads;
    LoadsIff(w, dir.allows, dir.others, session, vault, attempts, turns);
    if dir.Calm() {
      forall to: nat ensures Name(dir.others, vault, turns, to) == vault { NameWhenCalm(dir.others, vault, turns, to); }
    }
  }

  // Erasing is asked about only where no other wallet uses the phrase, and answered by typing ERASE.
  predicate ErasesPhrase(c: Contents, p: nat, second: Option<string>)
    requires References(c) && p < |c.accounts|
  {
    Alone(c, p) && second.Some? && Typed(second.value, "ERASE")
  }

  /** The wallet at `p` has the name, and the user typed it; where erasing is asked about, the answer is ERASE
      or blank. Any other answer, or none, is a refusal. */
  predicate DeletionApproved(c: Contents, p: nat, name: string, first: Option<string>, second: Option<string>)
    requires References(c)
  {
    && p < |c.accounts| && c.accounts[p].name == name
    && first.Some? && Typed(first.value, name)
    && (Alone(c, p) ==> second.Some? && (Typed(second.value, "ERASE") || Blank(second.value)))
  }

  /** `d` is `c` after the approved deletion: exactly the wallet at `p` is gone, and its phrase, in all its
      copies, exactly if that was asked for. */
  ghost predicate Deletes(c: Contents, p: nat, name: string, first: Option<string>, second: Option<string>, d: Contents)
    requires References(c)
  {
    && DeletionApproved(c, p, name, first, second)
    && RemovedExactly(c, p, ErasesPhrase(c, p, second), d) && d == DeleteAt(c, p, ErasesPhrase(c, p, second))
  }

  /** What the two answers mean for the vault that replaces the reviewed one: the first was the wallet's name;
      every copy of the wallet's phrase is gone exactly when nothing else used it and the second was ERASE;
      after a blank second answer, or where it was not asked for, the phrases are untouched; and any other
      answer where it was asked for approves nothing. */
  lemma DeletionReadsAnswers(c: Contents, p: nat, name: string, first: Option<string>, second: Option<string>, d: Contents)
    requires References(c) && Deletes(c, p, name, first, second, d)
    ensures c.accounts[p].name == name && first.Some? && Typed(first.value, name)
    ensures c.accounts[p].kind.Derived? ==>
      var entropy := c.masters[c.accounts[p].kind.master].entropy;
      (forall k :: 0 <= k < |d.masters| ==> d.masters[k].entropy != entropy)
        <==> Alone(c, p) && second.Some? && Typed(second.value, "ERASE")
    ensures !Alone(c, p) ==> d.masters == c.masters
    ensures Alone(c, p) ==> second.Some? && (Typed(second.value, "ERASE") || (Blank(second.value) && d.masters == c.masters))
  {
    hide Typed, Blank, Alone, DeleteAt;
    if c.accounts[p].kind.Derived? && !ErasesPhrase(c, p, second) {
      assert d.masters[c.accounts[p].kind.master] == c.masters[c.accounts[p].kind.master];
    }
  }

  lemma NothingToDelete(c: Contents, name: string, first: Option<string>, second: Option<string>)
    requires References(c) && Find(c.accounts, name).None?
    ensures forall q: nat :: !DeletionApproved(c, q, name, first, second)
  {
    hide Typed, Blank, Alone;
  }

  lemma NamesAreSolid(name: string)
    requires ValidName(name)
    ensures Solid(name)
  {
  }

  /** The confirmation reads the two answers as they were typed. */
  lemma ConfirmIff(c: Contents, p: nat, first: Option<string>, second: Option<string>)
    requires References(c) && DistinctNames(c.accounts) && p < |c.accounts| && ValidName(c.accounts[p].name)
    ensures var name := c.accounts[p].name; var use := RecoveryPhraseUse(c, name);
      use.Ok? && ConfirmDelete(name, use.value, first, second)
        == if DeletionApproved(c, p, name, first, second) then Some(ErasesPhrase(c, p, second)) else None
  {
    hide RecoveryPhraseUse, Trim, Typed, Alone, Blank;
    var name := c.accounts[p].name;
    PhraseUseIff(c, p);
    NamesAreSolid(name);
    if first.Some? { TrimIff(first.value, name); }
    if second.Some? {
      TrimIff(second.value, "ERASE");
      TrimIff(second.value, "");
      TypedBlank(second.value);
    }
    OnlyOneByName(c.accounts, p);
    NoSuchWallet(c, name);
  }

  lemma NamesAreValid(w: World, c: Contents, p: nat)
    requires Inv(w, c) && p < |c.accounts|
    ensures ValidName(c.accounts[p].name) && DistinctNames(c.accounts) && References(c)
  {
    assert AccountOk(w, c.masters, c.accounts[p]);
    ShapeHasReferences(w, c);
  }

  lemma OnlyApprovedAt(c: Contents, p: nat, name: string, first: Option<string>, second: Option<string>)
    requires References(c) && DistinctNames(c.accounts) && p < |c.accounts| && c.accounts[p].name == name
    ensures forall q: nat :: DeletionApproved(c, q, name, first, second) ==> q == p
    ensures DeletionApproved(c, p, name, first, second) && ErasesPhrase(c, p, second) ==> Alone(c, p)
  {
    hide Typed, Blank, Alone;
  }

  // What an approved deletion removes
  lemma ApprovedRemoval(w: World, c: Contents, p: nat, erase: bool)
    requires Inv(w, c) && p < |c.accounts| && References(c) && (erase ==> Alone(c, p))
    ensures RemoveAccount(c, c.accounts[p].name, erase) == Ok(DeleteAt(c, p, erase))
    ensures RemovedExactly(c, p, erase, DeleteAt(c, p, erase))
  {
    hide Alone, RemovedExactly, DeleteAt, RecoveryPhraseUse;
    NamesAreValid(w, c, p);
    OnlyOneByName(c.accounts, p);
    PhraseUseIff(c, p);
    if erase { AloneUsesPhrase(c, p); }
    DeleteIsExact(c, p, erase);
  }

  lemma RemovalKeepsSettings(c: Contents, name: string, erase: bool)
    requires References(c) && RemoveAccount(c, name, erase).Ok?
    ensures RemoveAccount(c, name, erase).value.settings == c.settings
  {
  }

  lemma SameSettingsKeepAudit(audit: Audit, settings: Settings, now: u64)
    ensures NextAudit(audit, Some(settings), settings, now) == Ok(audit)
  {
  }

  lemma ChangedSettingsCount(audit: Audit, before: Settings, after: Settings, now: u64)
    requires before != after
    ensures var next := NextAudit(audit, Some(before), after, now);
      next.Ok? ==> audit.edits + 1 < U64_LIMIT && now >= audit.lastEdit && next.value == Audit(audit.edits + 1, now)
  {
  }

  lemma SettingsAreFree(w: World, c: Contents, settings: Settings)
    requires Inv(w, c)
    ensures Inv(w, c.(settings := settings))
  {
    hide AccountOk, MasterOk, DistinctNames, SignerAddress;
  }
}
