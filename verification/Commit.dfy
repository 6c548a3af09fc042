/** Any number of processes loading, editing and saving one vault file, step by step.

    A save takes the lock without waiting, compares the file with its baseline, writes and syncs a
    temporary file, renames it over the vault name and syncs the directory. Every step can fail, a
    process can die between any two steps, and the machine can lose power. */
module Commit {
  import opened Prelude
  import opened Configuration
  import opened VaultValue
  import opened History
  import opened Audit
  import opened Envelope

  // ---------------------------------------------------------------- states

  datatype File = File(bytes: Bytes, synced: bool)

  /** One directory. Inodes are numbered in order of creation. `possible` holds what the vault name may
      resolve to after a power loss: its binding at the last directory sync, or any later one. */
  datatype Disk = Disk(
    files: seq<File>,
    vault: Option<nat>,
    temps: map<nat, nat>,
    possible: set<Option<nat>>,
    lock: Option<nat>)

  /** A vault in the memory of a process. `edits` are those made since it was read or last committed. */
  datatype Local = Local(
    contents: Contents,
    audit: Audit,
    saved: Option<Settings>,
    source: Option<Bytes>,
    salt: Salt,
    edits: seq<Edit>)

  // A save under way: the vault, and the file that is to replace the current one.
  datatype Draft = Draft(local: Local, audit: Audit, image: Bytes)

  datatype Phase =
    | Idle
    | Reading(inode: nat)
    | Editing(local: Local)
    | Sealed(draft: Draft)
    | Locked(draft: Draft)
    | Checked(draft: Draft)
    | Writing(draft: Draft, temp: nat, inode: nat)
    | Synced(draft: Draft, temp: nat, inode: nat)
    | Renamed(local: Local, temp: nat)
    | Cleaning(local: Local, temp: nat)
  {
    predicate HoldsLock() { !Idle? && !Reading? && !Editing? && !Sealed? }
  }

  // One rename that reached the vault name, with the baseline it was checked against.
  datatype Commit = Commit(
    inode: nat,
    image: Bytes,
    before: Option<Bytes>,
    salt: Salt,
    contents: Contents,
    audit: Audit,
    edits: seq<Edit>)

  /** `lineage` records the commits behind the current file, oldest first, and `durable` how many of
      them were there at the last directory sync; neither influences any step. */
  datatype State = State(disk: Disk, procs: seq<Phase>, lineage: seq<Commit>, durable: nat)

  function Binding(lineage: seq<Commit>): Option<nat> {
    if lineage == [] then None else Some(lineage[|lineage| - 1].inode)
  }

  function CurrentBytes(lineage: seq<Commit>): Option<Bytes> {
    if lineage == [] then None else Some(lineage[|lineage| - 1].image)
  }

  // The commits behind a binding that a power loss left.
  function Rollback(lineage: seq<Commit>, binding: Option<nat>): seq<Commit> {
    if lineage == [] || Binding(lineage) == binding then lineage
    else Rollback(lineage[..|lineage| - 1], binding)
  }

  // ---------------------------------------------------------------- steps

  datatype Step =
    | NewVault(p: nat, salt: Salt)
    | OpenFile(p: nat)
    | ReadFile(p: nat)
    | MakeEdit(p: nat, edit: Edit)
    | BeginSave(p: nat, now: u64, nonce: Nonce)
    | TakeLock(p: nat)
    | CheckRevision(p: nat)
    | MakeTemp(p: nat, temp: nat)
    | Write(p: nat, length: nat)
    | SyncFile(p: nat)
    | Rename(p: nat)
    | SyncDirectory(p: nat)
    | Fail(p: nat)
    | Clean(p: nat)
    | Crash(p: nat)
    | PowerLoss(disk: Disk)

  function At(s: State, p: nat): Phase { if p < |s.procs| then s.procs[p] else Idle }

  function Moved(s: State, p: nat, phase: Phase): State {
    if p < |s.procs| then s.(procs := s.procs[p := phase]) else s
  }

  function Unlocked(s: State): State { s.(disk := s.disk.(lock := None)) }

  function WithFile(s: State, inode: nat, file: File): State {
    if inode < |s.disk.files| then s.(disk := s.disk.(files := s.disk.files[inode := file])) else s
  }

  // What the vault name holds now, read under the lock
  function VaultBytes(d: Disk): Option<Bytes> {
    if d.vault.Some? && d.vault.value < |d.files| then Some(d.files[d.vault.value].bytes) else None
  }

  // The vault of a process that has just read `file`
  function Loaded(o: Opened, file: Bytes): Local {
    Local(o.contents, o.audit, Some(o.contents.settings), Some(file), o.salt, [])
  }

  function Committed(d: Draft): Local {
    Local(d.local.contents, d.audit, Some(d.local.contents.settings), Some(d.image), d.local.salt, [])
  }

  // An error after `phase`: before the temporary file exists the save just ends, afterwards it cleans up.
  function AfterFailure(phase: Phase): Phase {
    match phase
    case Idle => Idle
    case Reading(_) => Idle
    case Editing(l) => Idle
    case Sealed(d) => Editing(d.local)
    case Locked(d) => Editing(d.local)
    case Checked(d) => Editing(d.local)
    case Writing(d, t, _) => Cleaning(d.local, t)
    case Synced(d, t, _) => Cleaning(d.local, t)
    case Renamed(l, t) => Cleaning(l, t)
    case Cleaning(l, t) => Cleaning(l, t)
  }

  // Anything a power loss can leave: synced files as they were, and one possible binding of the name.
  ghost predicate Survives(before: Disk, after: Disk) {
    && |after.files| == |before.files|
    && (forall i :: 0 <= i < |before.files| && before.files[i].synced ==> after.files[i] == before.files[i])
    && after.vault in before.possible
    && after.possible == {after.vault}
    && after.lock == None
  }

  ghost predicate StartsNew(s: State, p: nat, salt: Salt, t: State) {
    p < |s.procs| && At(s, p).Idle? && t == Moved(s, p, Editing(Local(EMPTY, NO_EDITS, None, None, salt, [])))
  }

  ghost predicate OpensFile(s: State, p: nat, t: State) {
    p < |s.procs| && At(s, p).Idle? && s.disk.vault.Some? && t == Moved(s, p, Reading(s.disk.vault.value))
  }

  ghost predicate ReadsFile(w: World, s: State, p: nat, t: State) {
    && At(s, p).Reading? && At(s, p).inode < |s.disk.files|
    && var file := s.disk.files[At(s, p).inode].bytes;
       Open(w, file).Ok? && t == Moved(s, p, Editing(Loaded(Open(w, file).value, file)))
  }

  ghost predicate Edits(w: World, s: State, p: nat, e: Edit, t: State) {
    && At(s, p).Editing? && References(At(s, p).local.contents)
    && var l := At(s, p).local;
       t == Moved(s, p, Editing(l.(contents := Apply(w, l.contents, e), edits := l.edits + [e])))
  }

  ghost predicate BeginsSave(w: World, s: State, p: nat, now: u64, nonce: Nonce, t: State) {
    && At(s, p).Editing?
    && var l := At(s, p).local;
       var audit := NextAudit(l.audit, l.saved, l.contents.settings, now);
    && audit.Ok? && Seal(w, l.salt, nonce, l.contents, audit.value).Ok?
    && t == Moved(s, p, Sealed(Draft(l, audit.value, Seal(w, l.salt, nonce, l.contents, audit.value).value)))
  }

  ghost predicate TakesLock(s: State, p: nat, t: State) {
    && At(s, p).Sealed? && s.disk.lock == None
    && t == Moved(s, p, Locked(At(s, p).draft)).(disk := s.disk.(lock := Some(p)))
  }

  ghost predicate PassesCheck(s: State, p: nat, t: State) {
    && At(s, p).Locked?
    && VaultBytes(s.disk) == At(s, p).draft.local.source
    && (s.disk.vault.Some? ==> VaultBytes(s.disk).Some?)
    && t == Moved(s, p, Checked(At(s, p).draft))
  }

  // Exclusive creation; a name already taken is an error like any other, cleanup included.
  ghost predicate MakesTemp(s: State, p: nat, temp: nat, t: State) {
    && At(s, p).Checked?
    && t == if temp in s.disk.temps then Moved(s, p, Cleaning(At(s, p).draft.local, temp))
            else Moved(s, p, Writing(At(s, p).draft, temp, |s.disk.files|))
                 .(disk := s.disk.(files := s.disk.files + [File([], false)],
                                   temps := s.disk.temps[temp := |s.disk.files|]))
  }

  ghost predicate Writes(s: State, p: nat, length: nat, t: State) {
    && At(s, p).Writing?
    && var Writing(d, _, inode) := At(s, p);
    && inode < |s.disk.files| && |s.disk.files[inode].bytes| <= length <= |d.image|
    && t == WithFile(s, inode, File(d.image[..length], false))
  }

  ghost predicate SyncsFile(s: State, p: nat, t: State) {
    && At(s, p).Writing?
    && var Writing(d, temp, inode) := At(s, p);
    && inode < |s.disk.files| && s.disk.files[inode].bytes == d.image
    && t == Moved(WithFile(s, inode, File(d.image, true)), p, Synced(d, temp, inode))
  }

  function AsCommit(d: Draft, inode: nat): Commit {
    Commit(inode, d.image, d.local.source, d.local.salt, d.local.contents, d.audit, d.local.edits)
  }

  ghost predicate Renames(s: State, p: nat, t: State) {
    && At(s, p).Synced? && At(s, p).temp in s.disk.temps
    && var Synced(d, temp, inode) := At(s, p);
       var now := Some(s.disk.temps[temp]);
       t == Moved(s, p, Renamed(Committed(d), temp))
            .(disk := s.disk.(vault := now, temps := s.disk.temps - {temp}, possible := s.disk.possible + {now}),
              lineage := s.lineage + [AsCommit(d, inode)])
  }

  ghost predicate SyncsDirectory(s: State, p: nat, t: State) {
    && At(s, p).Renamed?
    && t == Moved(s, p, Editing(At(s, p).local))
            .(disk := s.disk.(possible := {s.disk.vault}, lock := None), durable := |s.lineage|)
  }

  // Before the temporary file exists an error also drops the lock; afterwards `Cleans` does.
  ghost predicate Fails(s: State, p: nat, t: State) {
    && p < |s.procs|
    && var next := Moved(s, p, AfterFailure(At(s, p)));
       t == if At(s, p).Locked? || At(s, p).Checked? then Unlocked(next) else next
  }

  ghost predicate Cleans(s: State, p: nat, t: State) {
    && At(s, p).Cleaning?
    && t == Moved(s, p, Editing(At(s, p).local))
            .(disk := s.disk.(temps := s.disk.temps - {At(s, p).temp}, lock := None))
  }

  // A process that dies loses its memory and the lock; its temporary file stays.
  ghost predicate Dies(s: State, p: nat, t: State) {
    && p < |s.procs|
    && t == if At(s, p).HoldsLock() then Unlocked(Moved(s, p, Idle)) else Moved(s, p, Idle)
  }

  ghost predicate LosesPower(s: State, disk: Disk, t: State) {
    && Survives(s.disk, disk)
    && var lineage := Rollback(s.lineage, disk.vault);
       t == State(disk, seq(|s.procs|, _ => Idle), lineage, |lineage|)
  }

  /** `t` is the state after `step`. */
  ghost predicate Takes(w: World, s: State, step: Step, t: State) {
    match step
    case NewVault(p, salt) => StartsNew(s, p, salt, t)
    case OpenFile(p) => OpensFile(s, p, t)
    case ReadFile(p) => ReadsFile(w, s, p, t)
    case MakeEdit(p, e) => Edits(w, s, p, e, t)
    case BeginSave(p, now, nonce) => BeginsSave(w, s, p, now, nonce, t)
    case TakeLock(p) => TakesLock(s, p, t)
    case CheckRevision(p) => PassesCheck(s, p, t)
    case MakeTemp(p, temp) => MakesTemp(s, p, temp, t)
    case Write(p, length) => Writes(s, p, length, t)
    case SyncFile(p) => SyncsFile(s, p, t)
    case Rename(p) => Renames(s, p, t)
    case SyncDirectory(p) => SyncsDirectory(s, p, t)
    case Fail(p) => Fails(s, p, t)
    case Clean(p) => Cleans(s, p, t)
    case Crash(p) => Dies(s, p, t)
    case PowerLoss(disk) => LosesPower(s, disk, t)
  }

  ghost predicate Next(w: World, s: State, t: State) {
    exists step :: Takes(w, s, step, t)
  }

  ghost predicate Init(s: State) {
    && s.disk == Disk([], None, map[], {None}, None)
    && (forall p :: 0 <= p < |s.procs| ==> s.procs[p] == Idle)
    && s.lineage == [] && s.durable == 0
  }

  /** A run from an empty directory. */
  ghost predicate IsRun(w: World, run: seq<State>) {
    && run != [] && Init(run[0])
    && forall i :: 0 <= i < |run| - 1 ==> Next(w, run[i], run[i + 1])
  }

  // ---------------------------------------------------------------- the invariant

  /** What a process holds in memory is what its source file encodes, plus its own edits. */
  ghost predicate LocalOk(w: World, l: Local) {
    && Inv(w, l.contents)
    && match l.source
       case None => l.saved == None && l.audit == NO_EDITS && Inv(w, EMPTY) && l.contents == Run(w, EMPTY, l.edits)
       case Some(file) =>
         match Open(w, file)
         case Err(_) => false
         case Ok(o) =>
           && Inv(w, o.contents)
           && l.salt == o.salt && l.audit == o.audit && l.saved == Some(o.contents.settings)
           && l.contents == Run(w, o.contents, l.edits)
  }

  ghost predicate SaveOk(w: World, d: Draft) {
    && LocalOk(w, d.local)
    && Open(w, d.image) == Ok(Opened(d.local.salt, d.local.contents, d.audit))
    && (d.local.saved == None ==> d.audit == NO_EDITS)
    && (d.local.saved.Some? ==> AuditStep(d.local.audit, d.local.saved.value, d.audit, d.local.contents.settings))
  }

  ghost predicate Complete(w: World, c: Commit) {
    && Inv(w, c.contents)
    && Open(w, c.image) == Ok(Opened(c.salt, c.contents, c.audit))
  }

  // Each commit was built from the one before it; the first from no file at all.
  ghost predicate Follows(w: World, lineage: seq<Commit>, k: nat)
    requires k < |lineage|
  {
    var c := lineage[k];
    if k == 0 then
      c.before == None && c.audit == NO_EDITS && Inv(w, EMPTY) && c.contents == Run(w, EMPTY, c.edits)
    else
      var b := lineage[k - 1];
      && c.before == Some(b.image)
      && Inv(w, b.contents) && c.contents == Run(w, b.contents, c.edits)
      && AuditStep(b.audit, b.contents.settings, c.audit, c.contents.settings)
  }

  ghost predicate Chain(w: World, lineage: seq<Commit>) {
    && (forall k :: 0 <= k < |lineage| ==> Complete(w, lineage[k]))
    && (forall k :: 0 <= k < |lineage| ==> Follows(w, lineage, k))
  }

  ghost predicate IsCommitted(lineage: seq<Commit>, inode: nat) {
    exists k :: 0 <= k < |lineage| && lineage[k].inode == inode
  }

  ghost predicate LineageOnDisk(files: seq<File>, lineage: seq<Commit>) {
    && (forall k :: 0 <= k < |lineage| ==>
          lineage[k].inode < |files| && files[lineage[k].inode] == File(lineage[k].image, true))
    && (forall j, k :: 0 <= j < k < |lineage| ==> lineage[j].inode != lineage[k].inode)
  }

  ghost predicate NameOk(vault: Option<nat>, possible: set<Option<nat>>, lineage: seq<Commit>, durable: nat) {
    && vault == Binding(lineage)
    && durable <= |lineage|
    && (forall b :: b in possible ==> exists k :: durable <= k <= |lineage| && b == Binding(lineage[..k]))
  }

  ghost predicate LooseOk(w: World, lineage: seq<Commit>, phase: Phase) {
    match phase
    case Idle => true
    case Reading(inode) => IsCommitted(lineage, inode)
    case Editing(l) => LocalOk(w, l)
    case Sealed(d) => SaveOk(w, d)
    case _ => false
  }

  ghost predicate Baseline(lineage: seq<Commit>, l: Local) { l.source == CurrentBytes(lineage) }

  ghost predicate HolderOk(w: World, s: State, phase: Phase) {
    match phase
    case Locked(d) => SaveOk(w, d)
    case Checked(d) => SaveOk(w, d) && Baseline(s.lineage, d.local)
    case Writing(d, temp, inode) =>
      && SaveOk(w, d) && Baseline(s.lineage, d.local)
      && inode < |s.disk.files| && !IsCommitted(s.lineage, inode)
      && temp in s.disk.temps && s.disk.temps[temp] == inode
    case Synced(d, temp, inode) =>
      && SaveOk(w, d) && Baseline(s.lineage, d.local)
      && inode < |s.disk.files| && !IsCommitted(s.lineage, inode)
      && s.disk.files[inode] == File(d.image, true)
      && temp in s.disk.temps && s.disk.temps[temp] == inode
    case Renamed(l, _) => LocalOk(w, l) && Baseline(s.lineage, l) && l.source.Some? && l.edits == []
    case Cleaning(l, _) => LocalOk(w, l)
    case _ => false
  }

  ghost predicate ProcOk(w: World, s: State, p: nat)
    requires p < |s.procs|
  {
    if s.procs[p].HoldsLock() then s.disk.lock == Some(p) && HolderOk(w, s, s.procs[p])
    else s.disk.lock != Some(p) && LooseOk(w, s.lineage, s.procs[p])
  }

  ghost predicate SysInv(w: World, s: State) {
    && Chain(w, s.lineage)
    && LineageOnDisk(s.disk.files, s.lineage)
    && NameOk(s.disk.vault, s.disk.possible, s.lineage, s.durable)
    && forall p :: 0 <= p < |s.procs| ==> ProcOk(w, s, p)
  }
}
