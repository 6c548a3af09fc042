/** What the chain of commits means: one serial history of edits, no matter how many processes wrote it. */
module CommittedHistory {
  import opened Prelude
  import opened Configuration
  import opened VaultValue
  import opened History
  import opened Audit
  import opened Envelope
  import opened Commit
  import opened CommitSafety

  // All committed edits, in commit order.
  function AllEdits(lineage: seq<Commit>): seq<Edit> {
    if lineage == [] then []
    else AllEdits(lineage[..|lineage| - 1]) + lineage[|lineage| - 1].edits
  }

  lemma {:induction false} ChainIsSerial(w: World, lineage: seq<Commit>)
    requires Chain(w, lineage) && lineage != []
    ensures Inv(w, EMPTY)
    ensures lineage[|lineage| - 1].contents == Run(w, EMPTY, AllEdits(lineage))
  {
    hide AuditStep;
    EmptyVaultIsValid(w);
    var n := |lineage| - 1;
    assert Follows(w, lineage, n);
    if n == 0 {
      assert AllEdits(lineage) == AllEdits([]) + lineage[0].edits;
      assert AllEdits([]) + lineage[0].edits == lineage[0].edits;
    } else {
      var front := lineage[..n];
      PrefixChain(w, lineage, n);
      ChainIsSerial(w, front);
      RunAppend(w, EMPTY, AllEdits(front), lineage[n].edits);
    }
  }

  lemma PrefixChain(w: World, lineage: seq<Commit>, k: nat)
    requires Chain(w, lineage) && k <= |lineage|
    ensures Chain(w, lineage[..k])
  {
    hide Inv, Run, Complete, AuditStep;
    forall i | 0 <= i < k
      ensures Follows(w, lineage[..k], i)
    {
      assert Follows(w, lineage, i);
    }
  }

  /** Serializability: in every reachable state, the k-th image of the chain is exactly what one process
      alone would have by making all committed edits up to it, in commit order, from an empty vault.
      Edits of saves that lost a race, failed or crashed before the rename leave no trace. */
  lemma CommitsAreSerial(w: World, run: seq<State>, i: nat, k: nat)
    requires w.Lawful() && IsRun(w, run) && i < |run| && k < |run[i].lineage|
    ensures Inv(w, EMPTY)
    ensures run[i].lineage[k].contents == Run(w, EMPTY, AllEdits(run[i].lineage[..k + 1]))
  {
    hide Run, Inv, AllEdits, Chain, LineageOnDisk, NameOk, ProcOk, Takes, Init;
    EmptyVaultIsValid(w);
    RunsAreSound(w, run, i);
    PrefixChain(w, run[i].lineage, k + 1);
    ChainIsSerial(w, run[i].lineage[..k + 1]);
  }

  lemma {:induction false} EditsGrow(lineage: seq<Commit>, k: nat)
    requires k <= |lineage|
    ensures AllEdits(lineage[..k]) <= AllEdits(lineage)
  {
    if k == |lineage| {
      assert lineage[..k] == lineage;
    } else {
      EditsGrow(lineage[..|lineage| - 1], k);
      assert lineage[..|lineage| - 1][..k] == lineage[..k];
    }
  }

  /** No derivation index is committed twice. Take any account of a phrase in any committed image,
      deleted since or not, and any later committed edit, by whichever process, that hands out an index
      of that phrase: the new index is larger, unless the phrase was erased in between or was entered
      again as a new wallet, which starts at 0. */
  lemma IndicesAreNeverReissued(w: World, run: seq<State>, i: nat, k: nat, j: nat, entropy: Bytes, earlier: nat, later: nat)
    requires w.Lawful() && IsRun(w, run) && i < |run| && k < |run[i].lineage| && Inv(w, EMPTY)
    requires Holds(run[i].lineage[k].contents, entropy, earlier)
    requires |AllEdits(run[i].lineage[..k + 1])| <= j < |AllEdits(run[i].lineage)|
    requires forall m :: |AllEdits(run[i].lineage[..k + 1])| <= m <= j ==>
               Known(Run(w, EMPTY, AllEdits(run[i].lineage)[..m]), entropy)
    requires Issued(w, Run(w, EMPTY, AllEdits(run[i].lineage)[..j]), AllEdits(run[i].lineage)[j]) == Some((entropy, later))
    ensures earlier < later || (AllEdits(run[i].lineage)[j].EditMaster? && later == 0)
  {
    hide Chain, LineageOnDisk, NameOk, ProcOk, Takes, Init, Run, AllEdits, Issued;
    var edits := AllEdits(run[i].lineage);
    var start := |AllEdits(run[i].lineage[..k + 1])|;
    CommitsAreSerial(w, run, i, k);
    EditsGrow(run[i].lineage, k + 1);
    assert edits[..start] == AllEdits(run[i].lineage[..k + 1]);
    IndicesAreFresh(w, EMPTY, edits, start, j, entropy, earlier, later);
  }

  // ---------------------------------------------------------------- the settings audit

  // How many commits changed the settings.
  function ChangedSaves(lineage: seq<Commit>): nat {
    if |lineage| <= 1 then 0
    else
      var n := |lineage| - 1;
      ChangedSaves(lineage[..n]) + if lineage[n].contents.settings != lineage[n - 1].contents.settings then 1 else 0
  }

  lemma {:induction false} ChainCountsChanges(w: World, lineage: seq<Commit>)
    requires Chain(w, lineage) && lineage != []
    ensures lineage[|lineage| - 1].audit.edits == ChangedSaves(lineage)
    ensures forall j :: 0 <= j < |lineage| ==> lineage[j].audit.lastEdit <= lineage[|lineage| - 1].audit.lastEdit
  {
    hide Inv, Run, Complete;
    var n := |lineage| - 1;
    assert Follows(w, lineage, n);
    if n > 0 {
      PrefixChain(w, lineage, n);
      ChainCountsChanges(w, lineage[..n]);
      forall j | 0 <= j < n
        ensures lineage[j].audit.lastEdit <= lineage[n].audit.lastEdit
      {
        assert lineage[j] == lineage[..n][j];
      }
    }
  }

  /** The counter stored in any committed image is the number of commits so far that changed the
      settings; it starts at 0, and recorded times never run backwards. */
  lemma AuditCountsChanges(w: World, run: seq<State>, i: nat, k: nat)
    requires w.Lawful() && IsRun(w, run) && i < |run| && k < |run[i].lineage|
    ensures run[i].lineage[k].audit.edits == ChangedSaves(run[i].lineage[..k + 1])
    ensures forall j :: 0 <= j <= k ==> run[i].lineage[j].audit.lastEdit <= run[i].lineage[k].audit.lastEdit
  {
    RunsAreSound(w, run, i);
    var prefix := run[i].lineage[..k + 1];
    PrefixChain(w, run[i].lineage, k + 1);
    ChainCountsChanges(w, prefix);
    forall j | 0 <= j <= k
      ensures run[i].lineage[j].audit.lastEdit <= run[i].lineage[k].audit.lastEdit
    {
      assert run[i].lineage[j] == prefix[j];
    }
  }

  function LocalOf(phase: Phase): Option<Local> {
    match phase
    case Idle => None
    case Reading(_) => None
    case Editing(l) => Some(l)
    case Sealed(d) => Some(d.local)
    case Locked(d) => Some(d.local)
    case Checked(d) => Some(d.local)
    case Writing(d, _, _) => Some(d.local)
    case Synced(d, _, _) => Some(d.local)
    case Renamed(l, _) => Some(l)
    case Cleaning(l, _) => Some(l)
  }

  /** A process's audit and saved settings always match what its source bytes encode, also after a
      save that renamed but could not sync the directory; and it holds that source plus its own edits. */
  lemma MemoryMatchesSource(w: World, run: seq<State>, i: nat, p: nat)
    requires w.Lawful() && IsRun(w, run) && i < |run| && p < |run[i].procs| && LocalOf(run[i].procs[p]).Some?
    ensures LocalOk(w, LocalOf(run[i].procs[p]).value)
  {
    hide LocalOk, Chain, LineageOnDisk, NameOk;
    RunsAreSound(w, run, i);
    assert ProcOk(w, run[i], p);
    DraftHasLocal(w);
  }
}
