/** The commit protocol is not safe by refusing: a save that nobody disturbs commits. */
module CommitProgress {
  import opened Prelude
  import opened Configuration
  import opened VaultValue
  import opened Audit
  import opened Envelope
  import opened Commit
  import opened CommitSafety

  // The process is ready to save over the current file, and the lock and the temporary name are free.
  ghost predicate ReadyToSave(w: World, s: State, p: nat, now: u64, nonce: Nonce, temp: nat) {
    && p < |s.procs| && s.procs[p].Editing?
    && s.disk.lock == None && temp !in s.disk.temps
    && var l := s.procs[p].local;
    && l.source == CurrentBytes(s.lineage)
    && var audit := NextAudit(l.audit, l.saved, l.contents.settings, now);
    && audit.Ok? && Seal(w, l.salt, nonce, l.contents, audit.value).Ok?
  }

  function DraftOf(w: World, l: Local, audit: Audit, nonce: Nonce): Draft
    requires Seal(w, l.salt, nonce, l.contents, audit).Ok?
  {
    Draft(l, audit, Seal(w, l.salt, nonce, l.contents, audit).value)
  }

  // From the edited vault to a checked draft under the lock
  lemma Approaches(w: World, s: State, p: nat, now: u64, nonce: Nonce, temp: nat) returns (d: Draft, a: State, b: State, c: State)
    requires SysInv(w, s) && ReadyToSave(w, s, p, now, nonce, temp)
    ensures var l := s.procs[p].local; var audit := NextAudit(l.audit, l.saved, l.contents.settings, now);
      audit.Ok? && Seal(w, l.salt, nonce, l.contents, audit.value).Ok? && d == DraftOf(w, l, audit.value, nonce)
    ensures Takes(w, s, BeginSave(p, now, nonce), a) && Takes(w, a, TakeLock(p), b) && Takes(w, b, CheckRevision(p), c)
    ensures c == Moved(s, p, Checked(d)).(disk := s.disk.(lock := Some(p)))
  {
    hide NextAudit, Seal, SysInv;
    var l := s.procs[p].local;
    var audit := NextAudit(l.audit, l.saved, l.contents.settings, now).value;
    d := DraftOf(w, l, audit, nonce);
    a := Moved(s, p, Sealed(d));
    b := Moved(a, p, Locked(d)).(disk := a.disk.(lock := Some(p)));
    c := Moved(b, p, Checked(d));
    VaultBytesAreCurrent(w, s);
    NameHasBytes(w, s);
  }

  lemma NameHasBytes(w: World, s: State)
    requires SysInv(w, s)
    ensures s.disk.vault.Some? ==> VaultBytes(s.disk).Some?
  {
    hide Chain, ProcOk;
  }

  lemma FillsFile(w: World, s: State, p: nat, temp: nat, d: Draft, inode: nat) returns (a: State, b: State)
    requires p < |s.procs| && s.procs[p] == Writing(d, temp, inode) && inode < |s.disk.files| && s.disk.files[inode].bytes == []
    ensures Takes(w, s, Write(p, |d.image|), a) && Takes(w, a, SyncFile(p), b)
    ensures b == Moved(WithFile(s, inode, File(d.image, true)), p, Synced(d, temp, inode))
  {
    assert d.image[..|d.image|] == d.image;
    a := WithFile(s, inode, File(d.image[..|d.image|], false));
    b := Moved(WithFile(a, inode, File(d.image, true)), p, Synced(d, temp, inode));
    assert b.disk.files == s.disk.files[inode := File(d.image, true)];
  }

  // The temporary file, written and synced
  lemma WritesTemp(w: World, s: State, p: nat, temp: nat, d: Draft) returns (a: State, b: State, c: State)
    requires p < |s.procs| && s.procs[p] == Checked(d) && temp !in s.disk.temps
    ensures Takes(w, s, MakeTemp(p, temp), a) && Takes(w, a, Write(p, |d.image|), b) && Takes(w, b, SyncFile(p), c)
    ensures c == Moved(s, p, Synced(d, temp, |s.disk.files|))
                  .(disk := s.disk.(files := s.disk.files + [File(d.image, true)], temps := s.disk.temps[temp := |s.disk.files|]))
  {
    var inode := |s.disk.files|;
    a := Moved(s, p, Writing(d, temp, inode))
           .(disk := s.disk.(files := s.disk.files + [File([], false)], temps := s.disk.temps[temp := inode]));
    b, c := FillsFile(w, a, p, temp, d, inode);
    assert c.disk.files == s.disk.files + [File(d.image, true)];
  }

  // The rename and the directory sync
  lemma Publishes(w: World, s: State, p: nat, temp: nat, d: Draft, inode: nat) returns (a: State, b: State)
    requires p < |s.procs| && s.procs[p] == Synced(d, temp, inode) && temp in s.disk.temps && s.disk.temps[temp] == inode
    ensures Takes(w, s, Rename(p), a) && Takes(w, a, SyncDirectory(p), b)
    ensures b.lineage == s.lineage + [AsCommit(d, inode)] && b.durable == |b.lineage|
    ensures b.disk.vault == Some(inode) && b.disk.files == s.disk.files && b.disk.lock == None
    ensures b.procs == s.procs[p := Editing(Committed(d))]
  {
    a := Moved(s, p, Renamed(Committed(d), temp))
           .(disk := s.disk.(vault := Some(inode), temps := s.disk.temps - {temp}, possible := s.disk.possible + {Some(inode)}),
             lineage := s.lineage + [AsCommit(d, inode)]);
    b := Moved(a, p, Editing(Committed(d))).(disk := a.disk.(possible := {a.disk.vault}, lock := None), durable := |a.lineage|);
  }

  // `t` is `s` after `p` committed the vault it was editing.
  ghost predicate HasCommitted(s: State, p: nat, t: State) {
    && p < |s.procs| == |t.procs| && s.procs[p].Editing? && t.procs[p].Editing?
    && var l, now := s.procs[p].local, t.procs[p].local;
    && t.lineage != [] && t.lineage[..|t.lineage| - 1] == s.lineage
    && var c := t.lineage[|t.lineage| - 1];
    && c.before == l.source && c.contents == l.contents && c.edits == l.edits
    && VaultBytes(t.disk) == Some(c.image) && t.durable == |t.lineage| && t.disk.lock == None
    && now.source == Some(c.image) && now.contents == l.contents && now.edits == []
  }

  /** A process whose baseline is current, undisturbed, takes eight steps to commit: its vault and edits are
      then the last of the chain, durable and under the vault name, and it can go on editing. */
  lemma UndisturbedSaveCommits(w: World, s: State, p: nat, now: u64, nonce: Nonce, temp: nat) returns (run: seq<State>)
    requires SysInv(w, s) && ReadyToSave(w, s, p, now, nonce, temp)
    ensures |run| == 9 && run[0] == s && forall i :: 0 <= i < 8 ==> Next(w, run[i], run[i + 1])
    ensures HasCommitted(s, p, run[8])
  {
    hide SysInv, ReadyToSave, Takes, Next, NextAudit, Seal;
    var d, s1, s2, s3 := Approaches(w, s, p, now, nonce, temp);
    assert p < |s.procs| && s.procs[p].Editing? && temp !in s.disk.temps by { Unpacked(w, s, p, now, nonce, temp); }
    var s4, s5, s6 := WritesTemp(w, s3, p, temp, d);
    var s7, s8 := Publishes(w, s6, p, temp, d, |s3.disk.files|);
    assert s8.lineage[..|s.lineage|] == s.lineage;
    run := [s, s1, s2, s3, s4, s5, s6, s7, s8];
    IsNext(w, s, BeginSave(p, now, nonce), s1);
    IsNext(w, s1, TakeLock(p), s2);
    IsNext(w, s2, CheckRevision(p), s3);
    IsNext(w, s3, MakeTemp(p, temp), s4);
    IsNext(w, s4, Write(p, |d.image|), s5);
    IsNext(w, s5, SyncFile(p), s6);
    IsNext(w, s6, Rename(p), s7);
    IsNext(w, s7, SyncDirectory(p), s8);
  }

  lemma IsNext(w: World, s: State, step: Step, t: State)
    requires Takes(w, s, step, t)
    ensures Next(w, s, t)
  {
    hide Takes;
  }

  lemma Unpacked(w: World, s: State, p: nat, now: u64, nonce: Nonce, temp: nat)
    requires ReadyToSave(w, s, p, now, nonce, temp)
    ensures p < |s.procs| && s.procs[p].Editing? && temp !in s.disk.temps
  {
  }

  // Only what a process is doing differs, and the lock, which it may have dropped.
  ghost predicate OnlyProcess(s: State, p: nat, phase: Phase, lock: Option<nat>, t: State) {
    p < |s.procs| && t == State(s.disk.(lock := lock), s.procs[p := phase], s.lineage, s.durable)
  }

  // A file after a power loss: as it was if it was synced, and otherwise anything
  predicate FilesSurvive(before: seq<File>, after: seq<File>) {
    |after| == |before| && forall i :: 0 <= i < |before| && before[i].synced ==> after[i] == before[i]
  }

  /** The faults are not ruled out anywhere: in every state a process may die, keeping its temporary file;
      whatever it is doing may fail; and the power may go, leaving any binding of the name that was possible
      since the last sync, anything in files that were not synced, and any temporary names. */
  lemma FaultsAreAlwaysPossible(w: World, s: State, p: nat, files: seq<File>, name: Option<nat>, temps: map<nat, nat>)
    requires p < |s.procs| && name in s.disk.possible && FilesSurvive(s.disk.files, files)
    ensures exists t :: Takes(w, s, Crash(p), t) &&
              OnlyProcess(s, p, Idle, if s.procs[p].HoldsLock() then None else s.disk.lock, t)
    ensures exists t :: Takes(w, s, Fail(p), t) && t.disk == s.disk.(lock := t.disk.lock) && t.lineage == s.lineage
    ensures exists t :: Takes(w, s, PowerLoss(Disk(files, name, temps, {name}, None)), t) &&
              t.disk == Disk(files, name, temps, {name}, None) && forall q :: 0 <= q < |t.procs| ==> t.procs[q] == Idle
  {
    hide Takes;
    ProcessFaults(w, s, p);
    PowerGoes(w, s, files, name, temps);
  }

  lemma ProcessFaults(w: World, s: State, p: nat)
    requires p < |s.procs|
    ensures exists t :: Takes(w, s, Crash(p), t) &&
              OnlyProcess(s, p, Idle, if s.procs[p].HoldsLock() then None else s.disk.lock, t)
    ensures exists t :: Takes(w, s, Fail(p), t) && t.disk == s.disk.(lock := t.disk.lock) && t.lineage == s.lineage
  {
    hide AfterFailure;
    var dead := Moved(s, p, Idle);
    var t := if s.procs[p].HoldsLock() then Unlocked(dead) else dead;
    assert Takes(w, s, Crash(p), t);
    var failed := Moved(s, p, AfterFailure(s.procs[p]));
    var u := if s.procs[p].Locked? || s.procs[p].Checked? then Unlocked(failed) else failed;
    assert Takes(w, s, Fail(p), u);
  }

  lemma PowerGoes(w: World, s: State, files: seq<File>, name: Option<nat>, temps: map<nat, nat>)
    requires name in s.disk.possible && FilesSurvive(s.disk.files, files)
    ensures exists t :: Takes(w, s, PowerLoss(Disk(files, name, temps, {name}, None)), t) &&
              t.disk == Disk(files, name, temps, {name}, None) && forall q :: 0 <= q < |t.procs| ==> t.procs[q] == Idle
  {
    hide Rollback;
    var lineage := Rollback(s.lineage, name);
    var t := State(Disk(files, name, temps, {name}, None), seq(|s.procs|, _ => Idle), lineage, |lineage|);
    assert Takes(w, s, PowerLoss(t.disk), t);
  }

  // The step may be taken, and the process is then in that phase.
  ghost predicate Leads(w: World, s: State, step: Step, p: nat, phase: Phase) {
    exists t :: Takes(w, s, step, t) && p < |t.procs| && t.procs[p] == phase
  }

  /** Nor is anything a process may do without the lock: a process with nothing open may start a new vault or
      open the current file, one that opened a vault file can read it, one that has a vault in memory may
      edit it, and one whose save failed may clean up. */
  lemma WorkIsAlwaysPossible(w: World, s: State, p: nat, salt: Salt, e: Edit)
    requires SysInv(w, s) && p < |s.procs|
    ensures s.procs[p].Idle? ==> Leads(w, s, NewVault(p, salt), p, Editing(Local(EMPTY, NO_EDITS, None, None, salt, [])))
    ensures s.procs[p].Idle? && s.disk.vault.Some? ==> Leads(w, s, OpenFile(p), p, Reading(s.disk.vault.value))
    ensures s.procs[p].Reading? ==> exists l :: Leads(w, s, ReadFile(p), p, Editing(l))
    ensures s.procs[p].Editing? ==> exists l :: Leads(w, s, MakeEdit(p, e), p, Editing(l)) && l.edits == s.procs[p].local.edits + [e]
    ensures s.procs[p].Cleaning? ==> Leads(w, s, Clean(p), p, Editing(s.procs[p].local))
  {
    hide SysInv, Leads, Inv, Open, Apply;
    match s.procs[p]
    case Idle => IdleWorks(w, s, p, salt);
    case Reading(inode) =>
      ReadingOpens(w, s, p);
      var file := s.disk.files[inode].bytes;
      LeadsTo(w, s, ReadFile(p), p, Moved(s, p, Editing(Loaded(Open(w, file).value, file))));
    case Editing(l) =>
      LocalHasReferences(w, s, p);
      var l' := l.(contents := Apply(w, l.contents, e), edits := l.edits + [e]);
      LeadsTo(w, s, MakeEdit(p, e), p, Moved(s, p, Editing(l')));
    case Cleaning(l, temp) =>
      LeadsTo(w, s, Clean(p), p, Moved(s, p, Editing(l)).(disk := s.disk.(temps := s.disk.temps - {temp}, lock := None)));
    case _ =>
  }

  lemma LeadsTo(w: World, s: State, step: Step, p: nat, t: State)
    requires Takes(w, s, step, t) && p < |t.procs|
    ensures Leads(w, s, step, p, t.procs[p])
  {
    hide Takes;
  }

  lemma IdleWorks(w: World, s: State, p: nat, salt: Salt)
    requires p < |s.procs| && s.procs[p].Idle?
    ensures Leads(w, s, NewVault(p, salt), p, Editing(Local(EMPTY, NO_EDITS, None, None, salt, [])))
    ensures s.disk.vault.Some? ==> Leads(w, s, OpenFile(p), p, Reading(s.disk.vault.value))
  {
    hide Leads;
    LeadsTo(w, s, NewVault(p, salt), p, Moved(s, p, Editing(Local(EMPTY, NO_EDITS, None, None, salt, []))));
    if s.disk.vault.Some? { LeadsTo(w, s, OpenFile(p), p, Moved(s, p, Reading(s.disk.vault.value))); }
  }

  // What a reader has open is a committed file, so it opens.
  lemma ReadingOpens(w: World, s: State, p: nat)
    requires SysInv(w, s) && p < |s.procs| && s.procs[p].Reading?
    ensures s.procs[p].inode < |s.disk.files| && Open(w, s.disk.files[s.procs[p].inode].bytes).Ok?
  {
    hide Open, Inv, Follows;
    assert ProcOk(w, s, p);
    var k :| 0 <= k < |s.lineage| && s.lineage[k].inode == s.procs[p].inode;
    assert Complete(w, s.lineage[k]);
  }

  lemma LocalHasReferences(w: World, s: State, p: nat)
    requires SysInv(w, s) && p < |s.procs| && s.procs[p].Editing?
    ensures References(s.procs[p].local.contents)
  {
    hide Open, Keyed, Chain;
    assert ProcOk(w, s, p);
    ShapeHasReferences(w, s.procs[p].local.contents);
  }

  /** A run from the empty directory in which the first vault is committed: the safety theorems are about
      runs that exist. */
  lemma FirstCommitIsReachable(w: World, salt: Salt, nonce: Nonce) returns (run: seq<State>)
    requires w.Lawful() && Seal(w, salt, nonce, EMPTY, NO_EDITS).Ok?
    ensures IsRun(w, run) && run[|run| - 1].lineage != [] && run[|run| - 1].lineage[0].contents == EMPTY
  {
    hide Seal, SysInv;
    var s := State(Disk([], None, map[], {None}, None), [Idle], [], 0);
    var t := Moved(s, 0, Editing(Local(EMPTY, NO_EDITS, None, None, salt, [])));
    assert Takes(w, s, NewVault(0, salt), t);
    assert Next(w, s, t);
    var start := [s, t];
    assert IsRun(w, start);
    RunsAreSound(w, start, 1);
    var rest := UndisturbedSaveCommits(w, t, 0, 0, nonce, 0);
    run := [s] + rest;
    forall i | 0 <= i < |run| - 1 ensures Next(w, run[i], run[i + 1]) {
      if i > 0 { assert Next(w, rest[i - 1], rest[i]); }
    }
  }
}
