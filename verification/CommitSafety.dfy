/** What holds in every state that any interleaving of processes, failures and power losses can reach. */
module CommitSafety {
  import opened Prelude
  import opened Configuration
  import opened VaultValue
  import opened History
  import opened Audit
  import opened Envelope
  import opened Commit

  // ---------------------------------------------------------------- frames

  lemma LooseGrows(w: World, a: seq<Commit>, b: seq<Commit>, phase: Phase)
    requires a <= b && LooseOk(w, a, phase)
    ensures LooseOk(w, b, phase)
  {
    if phase.Reading? {
      var k :| 0 <= k < |a| && a[k].inode == phase.inode;
      assert b[k].inode == phase.inode;
    }
  }

  // A step of one process that leaves the directory alone.
  lemma QuietStep(w: World, s: State, t: State, p: nat, phase: Phase)
    requires SysInv(w, s) && p < |s.procs| && t == Moved(s, p, phase)
    requires ProcOk(w, t, p)
    ensures SysInv(w, t)
  {
    forall q | 0 <= q < |t.procs|
      ensures ProcOk(w, t, q)
    {
      if q != p {
        assert ProcOk(w, s, q);
      }
    }
  }

  // A step of the process that holds the lock, takes it or gives it up: the others wait.
  lemma LockStep(w: World, s: State, t: State, p: nat)
    requires SysInv(w, s) && p < |s.procs| && |t.procs| == |s.procs|
    requires forall q :: 0 <= q < |s.procs| && q != p ==> t.procs[q] == s.procs[q]
    requires s.disk.lock in {None, Some(p)} && t.disk.lock in {None, Some(p)}
    requires s.lineage <= t.lineage
    requires ProcOk(w, t, p)
    ensures forall q :: 0 <= q < |t.procs| ==> ProcOk(w, t, q)
  {
    forall q | 0 <= q < |t.procs| && q != p
      ensures ProcOk(w, t, q)
    {
      assert ProcOk(w, s, q);
      LooseGrows(w, s.lineage, t.lineage, s.procs[q]);
    }
  }

  // ---------------------------------------------------------------- local steps

  lemma NewKeepsInvariant(w: World, s: State, p: nat, salt: Salt, t: State)
    requires SysInv(w, s) && StartsNew(s, p, salt, t)
    ensures SysInv(w, t)
  {
    EmptyVaultIsValid(w);
    assert ProcOk(w, s, p);
    QuietStep(w, s, t, p, t.procs[p]);
  }

  lemma OpenKeepsInvariant(w: World, s: State, p: nat, t: State)
    requires SysInv(w, s) && OpensFile(s, p, t)
    ensures SysInv(w, t)
  {
    hide Chain, LineageOnDisk;
    assert ProcOk(w, s, p);
    assert s.lineage[|s.lineage| - 1].inode == s.disk.vault.value;
    QuietStep(w, s, t, p, t.procs[p]);
  }

  lemma ReadKeepsInvariant(w: World, s: State, p: nat, t: State)
    requires SysInv(w, s) && ReadsFile(w, s, p, t)
    ensures SysInv(w, t)
  {
    assert ProcOk(w, s, p);
    var inode := s.procs[p].inode;
    var k :| 0 <= k < |s.lineage| && s.lineage[k].inode == inode;
    assert Complete(w, s.lineage[k]);
    var file := s.disk.files[inode].bytes;
    assert s.disk.files[inode] == File(s.lineage[k].image, true);
    var l := Loaded(Open(w, file).value, file);
    assert LocalOk(w, l);
    QuietStep(w, s, t, p, Editing(l));
  }

  lemma EditKeepsLocal(w: World, l: Local, e: Edit)
    requires LocalOk(w, l)
    ensures LocalOk(w, l.(contents := Apply(w, l.contents, e), edits := l.edits + [e]))
  {
    EditKeepsInvariant(w, l.contents, e);
    assert (l.edits + [e])[..|l.edits + [e]| - 1] == l.edits;
  }

  lemma EditKeepsSystem(w: World, s: State, p: nat, e: Edit, t: State)
    requires SysInv(w, s) && Edits(w, s, p, e, t)
    ensures SysInv(w, t)
  {
    assert ProcOk(w, s, p);
    var l := s.procs[p].local;
    EditKeepsLocal(w, l, e);
    QuietStep(w, s, t, p, Editing(l.(contents := Apply(w, l.contents, e), edits := l.edits + [e])));
  }

  // What a save has prepared opens to the vault it was prepared from, with the audit that counts it.
  lemma SealedDraftIsOk(w: World, l: Local, now: u64, nonce: Nonce)
    requires w.Lawful() && LocalOk(w, l)
    requires NextAudit(l.audit, l.saved, l.contents.settings, now).Ok?
    requires Seal(w, l.salt, nonce, l.contents, NextAudit(l.audit, l.saved, l.contents.settings, now).value).Ok?
    ensures var audit := NextAudit(l.audit, l.saved, l.contents.settings, now).value;
      SaveOk(w, Draft(l, audit, Seal(w, l.salt, nonce, l.contents, audit).value))
  {
    hide Seal, Open, Shape, Keyed, Run;
    var audit := NextAudit(l.audit, l.saved, l.contents.settings, now).value;
    SealedOpens(w, l.salt, nonce, l.contents, audit);
  }

  lemma BeginKeepsInvariant(w: World, s: State, p: nat, now: u64, nonce: Nonce, t: State)
    requires w.Lawful() && SysInv(w, s) && BeginsSave(w, s, p, now, nonce, t)
    ensures SysInv(w, t)
  {
    hide SaveOk, Seal;
    assert ProcOk(w, s, p);
    var l := s.procs[p].local;
    SealedDraftIsOk(w, l, now, nonce);
    QuietStep(w, s, t, p, t.procs[p]);
  }

  // ---------------------------------------------------------------- steps under the lock

  lemma LockKeepsInvariant(w: World, s: State, p: nat, t: State)
    requires SysInv(w, s) && TakesLock(s, p, t)
    ensures SysInv(w, t)
  {
    hide LocalOk, SaveOk, Chain, LineageOnDisk, NameOk;
    assert ProcOk(w, s, p);
    LockStep(w, s, t, p);
  }

  lemma VaultBytesAreCurrent(w: World, s: State)
    requires SysInv(w, s)
    ensures VaultBytes(s.disk) == CurrentBytes(s.lineage)
  {
  }

  lemma CheckKeepsInvariant(w: World, s: State, p: nat, t: State)
    requires SysInv(w, s) && PassesCheck(s, p, t)
    ensures SysInv(w, t)
  {
    hide LocalOk, SaveOk, Chain, LineageOnDisk, NameOk;
    assert ProcOk(w, s, p);
    VaultBytesAreCurrent(w, s);
    LockStep(w, s, t, p);
  }

  lemma FilesStayOnDisk(files: seq<File>, lineage: seq<Commit>, more: seq<File>)
    requires LineageOnDisk(files, lineage) && |files| <= |more|
    requires forall i :: 0 <= i < |files| && IsCommitted(lineage, i) ==> more[i] == files[i]
    ensures LineageOnDisk(more, lineage)
  {
    forall k | 0 <= k < |lineage|
      ensures lineage[k].inode < |more| && more[lineage[k].inode] == File(lineage[k].image, true)
    {
      assert IsCommitted(lineage, lineage[k].inode);
    }
  }

  lemma TempKeepsInvariant(w: World, s: State, p: nat, temp: nat, t: State)
    requires SysInv(w, s) && MakesTemp(s, p, temp, t)
    ensures SysInv(w, t)
  {
    hide LocalOk, SaveOk, Chain, NameOk;
    DraftHasLocal(w);
    assert ProcOk(w, s, p);
    FilesStayOnDisk(s.disk.files, s.lineage, t.disk.files);
    LockStep(w, s, t, p);
  }

  lemma WriteKeepsInvariant(w: World, s: State, p: nat, length: nat, t: State)
    requires SysInv(w, s) && Writes(s, p, length, t)
    ensures SysInv(w, t)
  {
    hide LocalOk, SaveOk, Chain, NameOk;
    assert ProcOk(w, s, p);
    FilesStayOnDisk(s.disk.files, s.lineage, t.disk.files);
    LockStep(w, s, t, p);
  }

  lemma SyncFileKeepsInvariant(w: World, s: State, p: nat, t: State)
    requires SysInv(w, s) && SyncsFile(s, p, t)
    ensures SysInv(w, t)
  {
    hide LocalOk, SaveOk, Chain, NameOk;
    assert ProcOk(w, s, p);
    FilesStayOnDisk(s.disk.files, s.lineage, t.disk.files);
    LockStep(w, s, t, p);
  }

  // The committed draft follows the file it replaces: its baseline is that file.
  lemma CommitFollows(w: World, lineage: seq<Commit>, d: Draft, inode: nat)
    requires Chain(w, lineage) && SaveOk(w, d) && Baseline(lineage, d.local)
    ensures Complete(w, AsCommit(d, inode))
    ensures Follows(w, lineage + [AsCommit(d, inode)], |lineage|)
  {
    hide Inv, Run, Open, AuditStep;
    if lineage != [] {
      assert Complete(w, lineage[|lineage| - 1]);
    }
  }

  lemma CommitExtendsChain(w: World, lineage: seq<Commit>, d: Draft, inode: nat)
    requires Chain(w, lineage) && SaveOk(w, d) && Baseline(lineage, d.local)
    ensures Chain(w, lineage + [AsCommit(d, inode)])
  {
    CommitFollows(w, lineage, d, inode);
    ChainGrows(w, lineage, AsCommit(d, inode));
  }

  lemma ChainGrows(w: World, lineage: seq<Commit>, c: Commit)
    requires Chain(w, lineage) && Complete(w, c) && Follows(w, lineage + [c], |lineage|)
    ensures Chain(w, lineage + [c])
  {
    hide Inv, Run, Open, AuditStep, Complete;
    var longer := lineage + [c];
    forall k | 0 <= k < |lineage|
      ensures Follows(w, longer, k)
    {
      assert Follows(w, lineage, k);
      assert longer[k] == lineage[k] && (k > 0 ==> longer[k - 1] == lineage[k - 1]);
    }
  }

  lemma RenameKeepsName(s: State, t: State, c: Commit)
    requires NameOk(s.disk.vault, s.disk.possible, s.lineage, s.durable) && t.lineage == s.lineage + [c] && t.durable == s.durable
    requires t.disk.vault == Some(c.inode) && t.disk.possible == s.disk.possible + {Some(c.inode)}
    ensures NameOk(t.disk.vault, t.disk.possible, t.lineage, t.durable)
  {
    forall b | b in t.disk.possible
      ensures exists k :: t.durable <= k <= |t.lineage| && b == Binding(t.lineage[..k])
    {
      if b in s.disk.possible {
        var k :| s.durable <= k <= |s.lineage| && b == Binding(s.lineage[..k]);
        assert t.lineage[..k] == s.lineage[..k];
      } else {
        assert t.lineage[..|t.lineage|] == t.lineage;
      }
    }
  }

  lemma RenameKeepsInvariant(w: World, s: State, p: nat, t: State)
    requires SysInv(w, s) && Renames(s, p, t)
    ensures SysInv(w, t)
  {
    hide LocalOk, SaveOk, Chain, LineageOnDisk, NameOk;
    assert ProcOk(w, s, p);
    var Synced(d, temp, inode) := s.procs[p];
    var c := t.lineage[|s.lineage|];
    CommitExtendsChain(w, s.lineage, d, inode);
    CommittedIsOk(w, d);
    RenameKeepsName(s, t, c);
    NewInodeIsDistinct(s.disk.files, s.lineage, c);
    LockStep(w, s, t, p);
  }

  lemma CommittedIsOk(w: World, d: Draft)
    requires SaveOk(w, d)
    ensures LocalOk(w, Committed(d))
  {
  }

  lemma NewInodeIsDistinct(files: seq<File>, lineage: seq<Commit>, c: Commit)
    requires LineageOnDisk(files, lineage) && !IsCommitted(lineage, c.inode)
    requires c.inode < |files| && files[c.inode] == File(c.image, true)
    ensures LineageOnDisk(files, lineage + [c])
  {
  }

  lemma SyncKeepsInvariant(w: World, s: State, p: nat, t: State)
    requires SysInv(w, s) && SyncsDirectory(s, p, t)
    ensures SysInv(w, t)
  {
    hide LocalOk, SaveOk, Chain, LineageOnDisk;
    assert ProcOk(w, s, p);
    assert t.lineage[..|t.lineage|] == t.lineage;
    LockStep(w, s, t, p);
  }

  lemma CleanKeepsInvariant(w: World, s: State, p: nat, t: State)
    requires SysInv(w, s) && Cleans(s, p, t)
    ensures SysInv(w, t)
  {
    hide LocalOk, SaveOk, Chain, LineageOnDisk, NameOk;
    assert ProcOk(w, s, p);
    LockStep(w, s, t, p);
  }

  lemma CrashKeepsInvariant(w: World, s: State, p: nat, t: State)
    requires SysInv(w, s) && Dies(s, p, t)
    ensures SysInv(w, t)
  {
    hide LocalOk, SaveOk, Chain, LineageOnDisk, NameOk;
    assert ProcOk(w, s, p);
    if s.procs[p].HoldsLock() {
      LockStep(w, s, t, p);
    } else {
      QuietStep(w, s, t, p, Idle);
    }
  }

  // After a failure the process still holds a consistent vault in memory, or nothing.
  lemma FailureIsOk(w: World, s: State, p: nat, t: State)
    requires p < |s.procs| && ProcOk(w, s, p) && Fails(s, p, t)
    ensures ProcOk(w, t, p)
  {
    hide LocalOk, SaveOk;
    DraftHasLocal(w);
  }

  lemma FailKeepsInvariant(w: World, s: State, p: nat, t: State)
    requires SysInv(w, s) && Fails(s, p, t)
    ensures SysInv(w, t)
  {
    hide LocalOk, SaveOk, HolderOk, LooseOk, Chain, LineageOnDisk, NameOk;
    assert ProcOk(w, s, p);
    FailureIsOk(w, s, p, t);
    if s.procs[p].HoldsLock() {
      LockStep(w, s, t, p);
    } else {
      QuietStep(w, s, t, p, t.procs[p]);
    }
  }

  lemma DraftHasLocal(w: World)
    ensures forall d: Draft :: SaveOk(w, d) ==> LocalOk(w, d.local)
  {
  }

  // ---------------------------------------------------------------- power loss

  lemma {:induction false} RollbackFinds(files: seq<File>, lineage: seq<Commit>, k: nat)
    requires LineageOnDisk(files, lineage) && k <= |lineage|
    ensures Rollback(lineage, Binding(lineage[..k])) == lineage[..k]
  {
    if k == |lineage| {
      assert lineage[..k] == lineage;
    } else {
      var front := lineage[..|lineage| - 1];
      assert front[..k] == lineage[..k];
      assert LineageOnDisk(files, front);
      RollbackFinds(files, front, k);
    }
  }

  lemma PrefixIsChain(w: World, files: seq<File>, lineage: seq<Commit>, k: nat)
    requires Chain(w, lineage) && LineageOnDisk(files, lineage) && k <= |lineage|
    ensures Chain(w, lineage[..k]) && LineageOnDisk(files, lineage[..k])
  {
    hide Inv, Run, Complete, AuditStep;
    forall i | 0 <= i < k
      ensures Follows(w, lineage[..k], i)
    {
      assert Follows(w, lineage, i);
    }
  }

  lemma LossKeepsInvariant(w: World, s: State, disk: Disk, t: State) returns (k: nat)
    requires SysInv(w, s) && LosesPower(s, disk, t)
    ensures SysInv(w, t)
    ensures s.durable <= k <= |s.lineage| && t.lineage == s.lineage[..k]
  {
    hide Chain, LineageOnDisk;
    k :| s.durable <= k <= |s.lineage| && disk.vault == Binding(s.lineage[..k]);
    RollbackFinds(s.disk.files, s.lineage, k);
    PrefixIsChain(w, s.disk.files, s.lineage, k);
    SyncedFilesSurvive(s.disk.files, disk.files, t.lineage);
    assert t.lineage[..|t.lineage|] == t.lineage;
  }

  lemma SyncedFilesSurvive(files: seq<File>, after: seq<File>, lineage: seq<Commit>)
    requires LineageOnDisk(files, lineage) && |after| == |files|
    requires forall i :: 0 <= i < |files| && files[i].synced ==> after[i] == files[i]
    ensures LineageOnDisk(after, lineage)
  {
  }

  // ---------------------------------------------------------------- every state

  lemma StepKeepsInvariant(w: World, s: State, step: Step, t: State)
    requires w.Lawful() && SysInv(w, s) && Takes(w, s, step, t)
    ensures SysInv(w, t)
  {
    hide SysInv, StartsNew, OpensFile, ReadsFile, Edits, BeginsSave, TakesLock, PassesCheck, MakesTemp,
      Writes, SyncsFile, Renames, SyncsDirectory, Fails, Cleans, Dies, LosesPower;
    match step
    case NewVault(p, salt) => NewKeepsInvariant(w, s, p, salt, t);
    case OpenFile(p) => OpenKeepsInvariant(w, s, p, t);
    case ReadFile(p) => ReadKeepsInvariant(w, s, p, t);
    case MakeEdit(p, e) => EditKeepsSystem(w, s, p, e, t);
    case BeginSave(p, now, nonce) => BeginKeepsInvariant(w, s, p, now, nonce, t);
    case TakeLock(p) => LockKeepsInvariant(w, s, p, t);
    case CheckRevision(p) => CheckKeepsInvariant(w, s, p, t);
    case MakeTemp(p, temp) => TempKeepsInvariant(w, s, p, temp, t);
    case Write(p, n) => WriteKeepsInvariant(w, s, p, n, t);
    case SyncFile(p) => SyncFileKeepsInvariant(w, s, p, t);
    case Rename(p) => RenameKeepsInvariant(w, s, p, t);
    case SyncDirectory(p) => SyncKeepsInvariant(w, s, p, t);
    case Fail(p) => FailKeepsInvariant(w, s, p, t);
    case Clean(p) => CleanKeepsInvariant(w, s, p, t);
    case Crash(p) => CrashKeepsInvariant(w, s, p, t);
    case PowerLoss(disk) => var k := LossKeepsInvariant(w, s, disk, t);
  }

  lemma InitIsSound(w: World, s: State)
    requires Init(s)
    ensures SysInv(w, s)
  {
    assert [][..0] == s.lineage;
  }

  /** The invariant holds at every point of every run. */
  lemma {:induction false} RunsAreSound(w: World, run: seq<State>, i: nat)
    requires w.Lawful() && IsRun(w, run) && i < |run|
    ensures SysInv(w, run[i])
  {
    if i == 0 {
      InitIsSound(w, run[0]);
    } else {
      RunsAreSound(w, run, i - 1);
      assert Next(w, run[i - 1], run[i]);
      var step :| Takes(w, run[i - 1], step, run[i]);
      StepKeepsInvariant(w, run[i - 1], step, run[i]);
    }
  }

  // ---------------------------------------------------------------- one chain of commits

  /** Whatever happens, the vault name resolves to nothing, and then nothing was committed, or to one
      complete synced image: the last commit of a chain in which each image was built from the one
      it replaced. That includes every binding a power loss could choose next. */
  lemma NameIsAlwaysComplete(w: World, run: seq<State>, i: nat)
    requires w.Lawful() && IsRun(w, run) && i < |run|
    ensures var s := run[i];
      && Chain(w, s.lineage)
      && (s.disk.vault == None <==> s.lineage == [])
      && (s.lineage != [] ==>
            var last := s.lineage[|s.lineage| - 1];
            s.disk.vault == Some(last.inode) && last.inode < |s.disk.files|
            && s.disk.files[last.inode] == File(last.image, true)
            && Open(w, last.image) == Ok(Opened(last.salt, last.contents, last.audit)))
      && (forall b :: b in s.disk.possible && b.Some? ==>
            b.value < |s.disk.files| && s.disk.files[b.value].synced && Open(w, s.disk.files[b.value].bytes).Ok?)
  {
    RunsAreSound(w, run, i);
    var s := run[i];
    forall k | 0 <= k < |s.lineage|
      ensures Complete(w, s.lineage[k])
    {
    }
  }

  lemma StepKeepsCommittedFile(w: World, s: State, step: Step, t: State, k: nat)
    requires SysInv(w, s) && Takes(w, s, step, t) && k < |s.lineage|
    ensures s.lineage[k].inode < |t.disk.files| && t.disk.files[s.lineage[k].inode] == File(s.lineage[k].image, true)
  {
    hide Chain, NameOk, LocalOk, SaveOk, Inv, Rollback;
    assert IsCommitted(s.lineage, s.lineage[k].inode);
    if step.Write? || step.SyncFile? {
      assert ProcOk(w, s, step.p);
    } else if step.PowerLoss? {
      assert Survives(s.disk, step.disk);
    }
  }

  /** A committed inode keeps its bytes through every step of every process, even a power loss, and an
      open file is always a committed one. */
  lemma CommittedFilesStay(w: World, run: seq<State>, i: nat)
    requires w.Lawful() && IsRun(w, run) && i + 1 < |run|
    ensures forall k :: 0 <= k < |run[i].lineage| ==>
      var c := run[i].lineage[k];
      c.inode < |run[i + 1].disk.files| && run[i + 1].disk.files[c.inode] == File(c.image, true)
    ensures forall p :: 0 <= p < |run[i].procs| && run[i].procs[p].Reading? ==>
      IsCommitted(run[i].lineage, run[i].procs[p].inode)
  {
    hide Chain, NameOk, LocalOk, SaveOk, LineageOnDisk, Takes;
    RunsAreSound(w, run, i);
    assert Next(w, run[i], run[i + 1]);
    var step :| Takes(w, run[i], step, run[i + 1]);
    forall k | 0 <= k < |run[i].lineage|
      ensures var c := run[i].lineage[k];
        c.inode < |run[i + 1].disk.files| && run[i + 1].disk.files[c.inode] == File(c.image, true)
    {
      StepKeepsCommittedFile(w, run[i], step, run[i + 1], k);
    }
    forall p | 0 <= p < |run[i].procs| && run[i].procs[p].Reading?
      ensures IsCommitted(run[i].lineage, run[i].procs[p].inode)
    {
      assert ProcOk(w, run[i], p);
    }
  }

  // Without a power loss the chain only grows.
  lemma StepExtendsChain(w: World, s: State, step: Step, t: State, p: nat)
    requires Takes(w, s, step, t) && p < |t.procs| && t.procs[p].Reading?
    ensures s.lineage <= t.lineage
  {
  }

  /** A process that opened the file reads one image whole, however long it waits and whatever the others
      do: the one that was current when it opened. */
  lemma {:induction false} CommittedFilesNeverChange(w: World, run: seq<State>, i: nat, j: nat, p: nat)
    requires w.Lawful() && IsRun(w, run) && i < j < |run| && OpensFile(run[i], p, run[i + 1])
    requires forall k :: i < k <= j ==> p < |run[k].procs| && run[k].procs[p] == run[i + 1].procs[p]
    ensures run[i].lineage != [] && run[i].lineage <= run[j].lineage
    ensures var c := run[i].lineage[|run[i].lineage| - 1];
      && run[j].procs[p] == Reading(c.inode) && Some(c.image) == VaultBytes(run[i].disk)
      && c.inode < |run[j].disk.files| && run[j].disk.files[c.inode] == File(c.image, true)
    decreases j
  {
    hide Takes, Chain, LineageOnDisk, ProcOk, LocalOk, SaveOk, Init;
    RunsAreSound(w, run, i);
    VaultBytesAreCurrent(w, run[i]);
    var before := if j == i + 1 then i else j - 1;
    if j > i + 1 { CommittedFilesNeverChange(w, run, i, j - 1, p); }
    RunsAreSound(w, run, before);
    assert Next(w, run[before], run[before + 1]);
    var step :| Takes(w, run[before], step, run[before + 1]);
    StepExtendsChain(w, run[before], step, run[before + 1], p);
    StepKeepsCommittedFile(w, run[before], step, run[before + 1], |run[i].lineage| - 1);
  }

  /** A rename replaces only the file it was checked against. The new vault is that file's vault with
      the edits of the committing process; a save whose baseline is stale never renames. */
  lemma OnlyCurrentBaselinesCommit(w: World, run: seq<State>, i: nat, p: nat)
    requires w.Lawful() && IsRun(w, run) && i + 1 < |run| && Renames(run[i], p, run[i + 1])
    ensures run[i].procs[p].draft.local.source == VaultBytes(run[i].disk)
    ensures VaultBytes(run[i + 1].disk) == Some(run[i].procs[p].draft.image)
    ensures run[i + 1].lineage == run[i].lineage + [AsCommit(run[i].procs[p].draft, run[i].procs[p].inode)]
    ensures forall q :: 0 <= q < |run[i].procs| && q != p ==> !run[i].procs[q].HoldsLock()
  {
    RunsAreSound(w, run, i);
    assert ProcOk(w, run[i], p);
    forall q | 0 <= q < |run[i].procs| && q != p
      ensures !run[i].procs[q].HoldsLock()
    {
      assert ProcOk(w, run[i], q);
    }
    VaultBytesAreCurrent(w, run[i]);
  }

  /** The name changes only by a rename or a power loss; error cleanup never touches it. */
  lemma NameChangesOnlyByRename(w: World, s: State, step: Step, t: State)
    requires Takes(w, s, step, t)
    ensures t.disk.vault != s.disk.vault ==> step.Rename? || step.PowerLoss?
    ensures t.lineage != s.lineage ==> step.Rename? || step.PowerLoss?
  {
  }

  // ---------------------------------------------------------------- durability

  lemma StepKeepsDurable(w: World, s: State, step: Step, t: State)
    requires w.Lawful() && SysInv(w, s) && Takes(w, s, step, t)
    ensures s.durable <= t.durable <= |t.lineage| && s.durable <= |s.lineage|
    ensures s.lineage[..s.durable] == t.lineage[..s.durable]
  {
    hide Chain, LineageOnDisk, ProcOk, Open, Seal, Apply, NextAudit, Rollback, References;
    StepKeepsInvariant(w, s, step, t);
    if step.PowerLoss? {
      var k := LossKeepsInvariant(w, s, step.disk, t);
    }
  }

  lemma ShorterPrefix(a: seq<Commit>, b: seq<Commit>, m: nat, n: nat)
    requires n <= m <= |a| && m <= |b| && a[..m] == b[..m]
    ensures a[..n] == b[..n]
  {
    assert a[..m][..n] == a[..n] && b[..m][..n] == b[..n];
  }

  /** A commit that was there at a directory sync is never lost again, and nothing is ever inserted
      before it: later crashes and power losses keep it and all its predecessors. */
  lemma {:induction false} DurableIsForever(w: World, run: seq<State>, i: nat, j: nat)
    requires w.Lawful() && IsRun(w, run) && i <= j < |run|
    ensures run[i].durable <= |run[i].lineage| && run[i].durable <= run[j].durable <= |run[j].lineage|
    ensures run[i].lineage[..run[i].durable] == run[j].lineage[..run[i].durable]
  {
    hide Takes, Chain, LineageOnDisk, ProcOk, Init;
    RunsAreSound(w, run, i);
    if i < j {
      DurableIsForever(w, run, i, j - 1);
      RunsAreSound(w, run, j - 1);
      assert Next(w, run[j - 1], run[j]);
      var step :| Takes(w, run[j - 1], step, run[j]);
      StepKeepsDurable(w, run[j - 1], step, run[j]);
      ShorterPrefix(run[j - 1].lineage, run[j].lineage, run[j - 1].durable, run[i].durable);
    }
  }

  // Between rename and directory sync, a process holds exactly the last commit.
  lemma RenamedIsLast(w: World, s: State, p: nat)
    requires SysInv(w, s) && p < |s.procs| && s.procs[p].Renamed?
    ensures s.lineage != []
    ensures var last := s.lineage[|s.lineage| - 1];
      s.procs[p].local.source == Some(last.image) && s.procs[p].local.contents == last.contents
  {
    assert ProcOk(w, s, p);
    assert Complete(w, s.lineage[|s.lineage| - 1]);
  }

  /** A save that reports success has its own commit on disk for good. */
  lemma SuccessIsDurable(w: World, run: seq<State>, i: nat, p: nat, j: nat)
    requires w.Lawful() && IsRun(w, run) && i < j < |run| && SyncsDirectory(run[i], p, run[i + 1])
    ensures var mine := run[i].procs[p].local;
      && mine.source.Some?
      && exists k :: 0 <= k < |run[j].lineage| && run[j].lineage[k].image == mine.source.value
                     && run[j].lineage[k].contents == mine.contents
  {
    hide SysInv, Init, Next;
    RunsAreSound(w, run, i);
    RenamedIsLast(w, run[i], p);
    DurableIsForever(w, run, i + 1, j);
    var k := |run[i].lineage| - 1;
    assert run[i + 1].lineage[..k + 1] == run[j].lineage[..k + 1];
    assert run[j].lineage[k] == run[j].lineage[..k + 1][k];
  }
}
