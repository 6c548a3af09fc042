/** The sequential save is one of the runs of the step system, so what is proved of all runs of many
    processes holds for the commands too. */
module SaveRefinement {
  import opened Prelude
  import opened Configuration
  import opened VaultValue
  import opened Audit
  import opened Envelope
  import opened Commit
  import opened CommitSafety
  import opened CommitProgress
  import S = Sessions

  // A rename whose directory sync fails: the error path cleans up and releases the lock.
  lemma PublishesUnsynced(w: World, s: State, p: nat, temp: nat, d: Draft, inode: nat) returns (a: State, b: State, c: State)
    requires p < |s.procs| && s.procs[p] == Synced(d, temp, inode) && temp in s.disk.temps && s.disk.temps[temp] == inode
    ensures Takes(w, s, Rename(p), a) && Takes(w, a, Fail(p), b) && Takes(w, b, Clean(p), c)
    ensures c.lineage == s.lineage + [AsCommit(d, inode)] && c.disk.vault == Some(inode) && c.disk.files == s.disk.files
    ensures c.procs == s.procs[p := Editing(Committed(d))] && c.disk.lock == None
  {
    hide Committed, AsCommit, Survives, Rollback;
    a := Moved(s, p, Renamed(Committed(d), temp))
           .(disk := s.disk.(vault := Some(inode), temps := s.disk.temps - {temp}, possible := s.disk.possible + {Some(inode)}),
             lineage := s.lineage + [AsCommit(d, inode)]);
    b := Moved(a, p, Cleaning(Committed(d), temp));
    c := Moved(b, p, Editing(Committed(d))).(disk := b.disk.(temps := b.disk.temps - {temp}, lock := None));
  }

  // The vault in memory that `Sessions.Save` leaves
  function After(l: Local, renamed: bool, audit: Audit, image: Bytes): Local {
    if renamed then Local(l.contents, audit, Some(l.contents.settings), Some(image), l.salt, []) else l
  }

  /** `t` shows what a save of `p` in `s` that returned `ok` and `renamed` left: the file under the name,
      the vault in memory, the chain, and durability after success. */
  ghost predicate Shows(s: State, p: nat, renamed: bool, ok: bool, audit: Audit, image: Bytes, t: State) {
    && p < |s.procs| == |t.procs| && s.procs[p].Editing? && t.disk.lock == None
    && t.procs == s.procs[p := Editing(After(s.procs[p].local, renamed, audit, image))]
    && VaultBytes(t.disk) == (if renamed then Some(image) else VaultBytes(s.disk))
    && (if renamed then t.lineage != [] && t.lineage[..|t.lineage| - 1] == s.lineage && t.lineage[|t.lineage| - 1].image == image
        else t.lineage == s.lineage)
    && (ok ==> t.durable == |t.lineage|)
  }

  lemma Extended(w: World, run: seq<State>, t: State)
    requires IsRun(w, run) && Next(w, run[|run| - 1], t)
    ensures IsRun(w, run + [t]) && run <= run + [t] && (run + [t])[|run|] == t
  {
    hide Next;
    var more := run + [t];
    forall i | 0 <= i < |more| - 1 ensures Next(w, more[i], more[i + 1]) {
      if i < |run| - 1 {
        assert more[i] == run[i] && more[i + 1] == run[i + 1];
      } else {
        assert more[i] == run[|run| - 1];
      }
    }
  }

  lemma Continued(w: World, run: seq<State>, steps: seq<State>) returns (more: seq<State>)
    requires IsRun(w, run) && steps != [] && steps[0] == run[|run| - 1]
    requires forall i :: 0 <= i < |steps| - 1 ==> Next(w, steps[i], steps[i + 1])
    ensures IsRun(w, more) && run <= more && more[|more| - 1] == steps[|steps| - 1]
  {
    hide Next, Init;
    more := run;
    for i := 1 to |steps|
      invariant IsRun(w, more) && run <= more && |more| > 0 && more[|more| - 1] == steps[i - 1]
    {
      assert Next(w, steps[i - 1], steps[i]);
      Extended(w, more, steps[i]);
      more := more + [steps[i]];
    }
  }

  // The steps of a save that renames
  lemma RenamingSteps(w: World, s: State, p: nat, now: u64, nonce: Nonce, temp: nat, ok: bool) returns (steps: seq<State>, d: Draft)
    requires SysInv(w, s) && ReadyToSave(w, s, p, now, nonce, temp)
    ensures |steps| > 1 && steps[0] == s && forall i :: 0 <= i < |steps| - 1 ==> Next(w, steps[i], steps[i + 1])
    ensures var l := s.procs[p].local; var audit := NextAudit(l.audit, l.saved, l.contents.settings, now).value;
      && d == DraftOf(w, l, audit, nonce)
      && Shows(s, p, true, ok, audit, d.image, steps[|steps| - 1])
  {
    hide SysInv, ReadyToSave, Takes, Next, NextAudit, Seal;
    var e, s1, s2, s3 := Approaches(w, s, p, now, nonce, temp);
    d := e;
    ReadyFacts(w, s, p, now, nonce, temp);
    var s4, s5, s6 := WritesTemp(w, s3, p, temp, d);
    var inode := |s3.disk.files|;
    IsNext(w, s, BeginSave(p, now, nonce), s1);
    IsNext(w, s1, TakeLock(p), s2);
    IsNext(w, s2, CheckRevision(p), s3);
    IsNext(w, s3, MakeTemp(p, temp), s4);
    IsNext(w, s4, Write(p, |d.image|), s5);
    IsNext(w, s5, SyncFile(p), s6);
    if ok {
      var s7, s8 := Publishes(w, s6, p, temp, d, inode);
      IsNext(w, s6, Rename(p), s7);
      IsNext(w, s7, SyncDirectory(p), s8);
      assert s8.lineage[..|s.lineage|] == s.lineage;
      steps := [s, s1, s2, s3, s4, s5, s6, s7, s8];
    } else {
      var s7, s8, s9 := PublishesUnsynced(w, s6, p, temp, d, inode);
      IsNext(w, s6, Rename(p), s7);
      IsNext(w, s7, Fail(p), s8);
      IsNext(w, s8, Clean(p), s9);
      assert s9.lineage[..|s.lineage|] == s.lineage;
      steps := [s, s1, s2, s3, s4, s5, s6, s7, s8, s9];
    }
  }

  lemma ReadyFacts(w: World, s: State, p: nat, now: u64, nonce: Nonce, temp: nat)
    requires ReadyToSave(w, s, p, now, nonce, temp)
    ensures p < |s.procs| && s.procs[p].Editing? && temp !in s.disk.temps
  {
  }

  /** Refinement. Take any reachable state in which a process edits and nobody holds the lock, and any outcome
      that `Sessions.Save` allows there: `renamed` only if the audit and the contents allow an image and the
      name holds the process's baseline, `ok` only if renamed. Then the run can be continued to a state that
      shows exactly that outcome. The result is again a run, so every safety theorem covers it. */
  lemma SaveIsARun(w: World, run: seq<State>, p: nat, now: u64, nonce: Nonce, temp: nat, renamed: bool, ok: bool)
    returns (more: seq<State>, audit: Audit, image: Bytes)
    requires w.Lawful() && IsRun(w, run)
    requires var s := run[|run| - 1];
      p < |s.procs| && s.procs[p].Editing? && s.disk.lock == None && temp !in s.disk.temps
    requires var s := run[|run| - 1]; var l := s.procs[p].local;
      renamed ==>
        && S.ImageOf(w, S.Session(l.salt), l.audit, l.saved, l.contents, now, nonce).Some?
        && VaultBytes(s.disk) == l.source
    requires ok ==> renamed
    ensures IsRun(w, more) && run <= more
    ensures var s := run[|run| - 1]; var l := s.procs[p].local;
      && Shows(s, p, renamed, ok, audit, image, more[|more| - 1])
      && (renamed ==>
            && NextAudit(l.audit, l.saved, l.contents.settings, now) == Ok(audit)
            && S.ImageOf(w, S.Session(l.salt), l.audit, l.saved, l.contents, now, nonce) == Some(image))
  {
    hide SysInv, Next, NextAudit, Seal, ReadyToSave;
    var s := run[|run| - 1];
    RunsAreSound(w, run, |run| - 1);
    if renamed {
      VaultBytesAreCurrent(w, s);
      Ready(w, s, p, now, nonce, temp);
      var steps, d := RenamingSteps(w, s, p, now, nonce, temp, ok);
      audit := NextAudit(s.procs[p].local.audit, s.procs[p].local.saved, s.procs[p].local.contents.settings, now).value;
      image := d.image;
      more := Continued(w, run, steps);
    } else {
      more, audit, image := run, NO_EDITS, [];
    }
  }

  lemma Ready(w: World, s: State, p: nat, now: u64, nonce: Nonce, temp: nat)
    requires p < |s.procs| && s.procs[p].Editing? && s.disk.lock == None && temp !in s.disk.temps
    requires var l := s.procs[p].local;
      && S.ImageOf(w, S.Session(l.salt), l.audit, l.saved, l.contents, now, nonce).Some?
      && l.source == CurrentBytes(s.lineage)
    ensures ReadyToSave(w, s, p, now, nonce, temp)
  {
    hide NextAudit, Seal;
  }
}
