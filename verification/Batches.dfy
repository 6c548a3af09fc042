/** Closing many token accounts in as few transactions as fit, and stopping when an outcome is unknown. */
module Batches {
  import opened Prelude
  import opened Instructions

  datatype Candidate = Candidate(mint: Key32, address: Key32, program: Key32, amount: u64, decimals: byte)

  predicate NativeMint(ids: Programs, c: Candidate) {
    (c.mint == ids.nativeMint && c.program == ids.token) || (c.mint == ids.nativeMint2022 && c.program == ids.token2022)
  }

  predicate RequiresBurn(ids: Programs, c: Candidate) { c.amount != 0 && !NativeMint(ids, c) }

  // The burn, if one is needed, directly before the close
  function InstructionsFor(ids: Programs, authority: Key32, c: Candidate): seq<Instruction> {
    (if RequiresBurn(ids, c) then [BurnChecked(c.address, c.mint, authority, c.amount, c.decimals, c.program)] else [])
    + [CloseTokenAccount(c.address, authority, c.program)]
  }

  function InstructionsOf(ids: Programs, authority: Key32, cs: seq<Candidate>): (r: seq<Instruction>)
    ensures |r| >= |cs|
  {
    if cs == [] then []
    else InstructionsOf(ids, authority, cs[..|cs| - 1]) + InstructionsFor(ids, authority, cs[|cs| - 1])
  }

  // Whether a message of these instructions compiles and fits one packet
  datatype Fit = Fits | TooBig | NotCompilable

  datatype SendOutcome = Confirmed | Unknown | SendFailed

  // One transaction that was handed to `send_close_batch`
  datatype Batch = Batch(candidates: seq<Candidate>, instructions: seq<Instruction>)

  datatype CloseResult = Done | Stopped | Failed | OneTooBig | BadMessage

  function Covered(sent: seq<Batch>): seq<Candidate> {
    if sent == [] then [] else Covered(sent[..|sent| - 1]) + sent[|sent| - 1].candidates
  }

  lemma CoveredSnoc(sent: seq<Batch>, b: Batch)
    ensures Covered(sent + [b]) == Covered(sent) + b.candidates
  {
    assert (sent + [b])[..|sent|] == sent;
  }

  lemma InstructionsSnoc(ids: Programs, authority: Key32, cs: seq<Candidate>, c: Candidate)
    ensures InstructionsOf(ids, authority, cs + [c]) == InstructionsOf(ids, authority, cs) + InstructionsFor(ids, authority, c)
  {
    assert (cs + [c])[..|cs|] == cs;
  }

  lemma {:induction false} InstructionsPrefix(ids: Programs, authority: Key32, cs: seq<Candidate>, k: nat)
    requires k <= |cs|
    ensures InstructionsOf(ids, authority, cs[..k]) <= InstructionsOf(ids, authority, cs)
  {
    hide InstructionsFor;
    if k == |cs| {
      assert cs[..k] == cs;
    } else {
      InstructionsPrefix(ids, authority, cs[..|cs| - 1], k);
      assert cs[..|cs| - 1][..k] == cs[..k];
    }
  }

  /** The instructions of a run are its candidates' own, in order and with nothing between them: where the
      first k candidates' end, the next one's begin, a close of its account, with a burn of all its tokens
      directly before if it holds any that are not wrapped SOL. */
  lemma EachCandidateIsClosed(ids: Programs, authority: Key32, cs: seq<Candidate>, k: nat)
    requires k < |cs|
    ensures var all, c := InstructionsOf(ids, authority, cs), cs[k];
      var start, end := |InstructionsOf(ids, authority, cs[..k])|, |InstructionsOf(ids, authority, cs[..k + 1])|;
      var native := (c.mint == ids.nativeMint && c.program == ids.token)
                    || (c.mint == ids.nativeMint2022 && c.program == ids.token2022);
      && end == start + (if c.amount > 0 && !native then 2 else 1) && end <= |all|
      && all[end - 1] == Instruction(c.program,
           [AccountMeta(c.address, false, true), AccountMeta(authority, false, true), AccountMeta(authority, true, false)], [9])
      && (c.amount > 0 && !native ==>
            all[start] == BurnChecked(c.address, c.mint, authority, c.amount, c.decimals, c.program))
  {
    hide InstructionsOf, BurnChecked;
    InstructionsPrefix(ids, authority, cs, k + 1);
    InstructionsSnoc(ids, authority, cs[..k], cs[k]);
    assert cs[..k + 1] == cs[..k] + [cs[k]];
    var all, front := InstructionsOf(ids, authority, cs), InstructionsOf(ids, authority, cs[..k + 1]);
    assert all[..|front|] == front;
    var start := |front| - |InstructionsFor(ids, authority, cs[k])|;
    assert all[|front| - 1] == front[|front| - 1] && all[start] == front[start];
  }

  predicate BatchOk(ids: Programs, authority: Key32, fits: seq<Instruction> -> Fit, b: Batch) {
    && b.candidates != []
    && b.instructions == InstructionsOf(ids, authority, b.candidates)
    && fits(b.instructions) == Fits
  }

  // The batch could not have taken one more candidate.
  predicate Full(ids: Programs, authority: Key32, fits: seq<Instruction> -> Fit, b: Batch, next: Candidate) {
    fits(InstructionsOf(ids, authority, b.candidates + [next])) != Fits
  }

  predicate Greedy(ids: Programs, authority: Key32, fits: seq<Instruction> -> Fit, sent: seq<Batch>) {
    && (forall k :: 0 <= k < |sent| ==> BatchOk(ids, authority, fits, sent[k]))
    && (forall k :: 0 <= k < |sent| - 1 ==> Full(ids, authority, fits, sent[k], sent[k + 1].candidates[0]))
  }

  // Sending the collected batch next keeps the packing greedy.
  lemma GreedyGrows(ids: Programs, authority: Key32, fits: seq<Instruction> -> Fit, sent: seq<Batch>, b: Batch)
    requires Greedy(ids, authority, fits, sent) && BatchOk(ids, authority, fits, b)
    requires sent != [] ==> Full(ids, authority, fits, sent[|sent| - 1], b.candidates[0])
    ensures Greedy(ids, authority, fits, sent + [b])
  {
    hide InstructionsOf, Full, BatchOk;
    var grown := sent + [b];
    forall k | 0 <= k < |grown| ensures BatchOk(ids, authority, fits, grown[k]) && grown[k].candidates != [] {
      assert k < |sent| ==> grown[k] == sent[k];
      HeadOf(ids, authority, fits, grown[k]);
    }
    forall k | 0 <= k < |grown| - 1 ensures Full(ids, authority, fits, grown[k], grown[k + 1].candidates[0]) {
      assert grown[k] == sent[k];
      assert k + 1 < |sent| ==> grown[k + 1] == sent[k + 1];
    }
  }

  lemma HeadOf(ids: Programs, authority: Key32, fits: seq<Instruction> -> Fit, b: Batch)
    requires BatchOk(ids, authority, fits, b)
    ensures b.candidates != []
  {
  }

  // Where the packing stands: `sent` and the batch being collected are the first `i` candidates.
  ghost predicate Packed(ids: Programs, authority: Key32, fits: seq<Instruction> -> Fit, candidates: seq<Candidate>,
                         i: nat, sent: seq<Batch>, batch: seq<Candidate>)
  {
    && i <= |candidates| && Covered(sent) + batch == candidates[..i]
    && Greedy(ids, authority, fits, sent)
    && (sent != [] && batch != [] ==> Full(ids, authority, fits, sent[|sent| - 1], batch[0]))
  }

  lemma PackedStarts(ids: Programs, authority: Key32, fits: seq<Instruction> -> Fit, candidates: seq<Candidate>)
    ensures Packed(ids, authority, fits, candidates, 0, [], [])
    ensures InstructionsOf(ids, authority, []) == []
  {
  }

  // What `sent` alone says at any point
  lemma PackedSoFar(ids: Programs, authority: Key32, fits: seq<Instruction> -> Fit, candidates: seq<Candidate>,
                    i: nat, sent: seq<Batch>, batch: seq<Candidate>)
    requires Packed(ids, authority, fits, candidates, i, sent, batch)
    ensures Greedy(ids, authority, fits, sent) && Covered(sent) <= candidates && |Covered(sent)| + |batch| == i
    ensures batch == [] && i == |candidates| ==> Covered(sent) == candidates
  {
    hide Greedy, Covered, Full;
    assert |Covered(sent) + batch| == i && Covered(sent) <= candidates[..i] <= candidates;
  }

  lemma PackedTakes(ids: Programs, authority: Key32, fits: seq<Instruction> -> Fit, candidates: seq<Candidate>,
                    i: nat, sent: seq<Batch>, batch: seq<Candidate>)
    requires Packed(ids, authority, fits, candidates, i, sent, batch) && i < |candidates|
    requires sent != [] && batch == [] ==> Full(ids, authority, fits, sent[|sent| - 1], candidates[i])
    ensures Packed(ids, authority, fits, candidates, i + 1, sent, batch + [candidates[i]])
  {
    hide Greedy, Covered, Full;
    assert candidates[..i + 1] == candidates[..i] + [candidates[i]];
    assert Covered(sent) + (batch + [candidates[i]]) == (Covered(sent) + batch) + [candidates[i]];
  }

  lemma PackedSends(ids: Programs, authority: Key32, fits: seq<Instruction> -> Fit, candidates: seq<Candidate>,
                    i: nat, sent: seq<Batch>, b: Batch)
    requires Packed(ids, authority, fits, candidates, i, sent, b.candidates)
    requires b.candidates != [] && b.instructions == InstructionsOf(ids, authority, b.candidates) && fits(b.instructions) == Fits
    ensures Packed(ids, authority, fits, candidates, i, sent + [b], [])
    ensures Covered(sent + [b]) == Covered(sent) + b.candidates && (sent + [b])[..|sent|] == sent
  {
    hide Greedy, Covered, Full, InstructionsOf;
    GreedyGrows(ids, authority, fits, sent, b);
    CoveredSnoc(sent, b);
    assert Covered(sent + [b]) + [] == Covered(sent + [b]);
  }

  // The batch being collected, with the next candidate, is the run after what was sent.
  lemma CurrentRun(ids: Programs, authority: Key32, fits: seq<Instruction> -> Fit, candidates: seq<Candidate>,
                   i: nat, sent: seq<Batch>, batch: seq<Candidate>)
    requires Packed(ids, authority, fits, candidates, i, sent, batch) && i < |candidates|
    ensures |Covered(sent)| < i + 1 && candidates[|Covered(sent)|..i + 1] == batch + [candidates[i]]
  {
    hide Greedy, Covered, Full;
    assert |Covered(sent) + batch| == i;
    var start := |Covered(sent)|;
    assert candidates[..i][start..] == batch;
    assert candidates[start..i + 1] == candidates[start..i] + [candidates[i]] && candidates[start..i] == candidates[..i][start..];
  }

  ghost predicate AllConfirmed(outcome: nat -> SendOutcome) { forall n: nat :: outcome(n) == Confirmed }

  lemma NotAllConfirmed(outcome: nat -> SendOutcome, n: nat)
    ensures outcome(n) != Confirmed ==> !AllConfirmed(outcome)
  {
  }

  // Some run of candidates that begins at `start` does not compile.
  ghost predicate BadRun(ids: Programs, authority: Key32, candidates: seq<Candidate>, fits: seq<Instruction> -> Fit, start: nat) {
    exists j: nat :: start < j <= |candidates| && fits(InstructionsOf(ids, authority, candidates[start..j])) == NotCompilable
  }

  lemma BadRunAt(ids: Programs, authority: Key32, candidates: seq<Candidate>, fits: seq<Instruction> -> Fit, start: nat, j: nat)
    requires start < j <= |candidates| && fits(InstructionsOf(ids, authority, candidates[start..j])) == NotCompilable
    ensures BadRun(ids, authority, candidates, fits, start) && !AllFit(ids, authority, candidates, fits)
  {
    hide InstructionsOf;
  }

  lemma TooBigAt(ids: Programs, authority: Key32, candidates: seq<Candidate>, fits: seq<Instruction> -> Fit, i: nat)
    requires i < |candidates| && fits(InstructionsOf(ids, authority, [candidates[i]])) == TooBig
    ensures !AllFit(ids, authority, candidates, fits)
  {
    hide InstructionsOf;
  }

  /** Every run of the candidates compiles, and each candidate fits alone. */
  ghost predicate AllFit(ids: Programs, authority: Key32, candidates: seq<Candidate>, fits: seq<Instruction> -> Fit) {
    && (forall i: nat, j: nat :: i < j <= |candidates| ==> fits(InstructionsOf(ids, authority, candidates[i..j])) != NotCompilable)
    && (forall i: nat :: i < |candidates| ==> fits(InstructionsOf(ids, authority, [candidates[i]])) == Fits)
  }

  // The collected batch is full when the next candidate made it too big; alone, that candidate starts
  // the next batch.
  lemma BatchIsFull(ids: Programs, authority: Key32, fits: seq<Instruction> -> Fit, b: Batch, next: Candidate)
    requires b.instructions == InstructionsOf(ids, authority, b.candidates)
    ensures fits(b.instructions + InstructionsFor(ids, authority, next)) != Fits ==> Full(ids, authority, fits, b, next)
    ensures InstructionsFor(ids, authority, next) == InstructionsOf(ids, authority, [next])
    ensures InstructionsOf(ids, authority, b.candidates + [next]) == b.instructions + InstructionsFor(ids, authority, next)
  {
    InstructionsSnoc(ids, authority, b.candidates, next);
    InstructionsSnoc(ids, authority, [], next);
    assert [] + [next] == [next];
  }

  /** `send_close_batches`. `outcome(n)` is what the n-th transaction meets; `sent` is what was sent. */
  method SendCloseBatches(ids: Programs, authority: Key32, candidates: seq<Candidate>,
                          fits: seq<Instruction> -> Fit, outcome: nat -> SendOutcome)
    returns (r: CloseResult, sent: seq<Batch>, confirmed: nat)
    ensures Greedy(ids, authority, fits, sent)
    ensures Covered(sent) <= candidates
    ensures forall n :: 0 <= n < |sent| - 1 ==> outcome(n) == Confirmed
    ensures r in {Stopped, Failed} ==>
      && sent != []
      && outcome(|sent| - 1) == (if r == Stopped then Unknown else SendFailed)
      && confirmed == |Covered(sent[..|sent| - 1])|
    ensures r !in {Stopped, Failed} ==>
      (sent != [] ==> outcome(|sent| - 1) == Confirmed) && confirmed == |Covered(sent)|
    ensures r == OneTooBig ==>
      && |Covered(sent)| < |candidates|
      && fits(InstructionsOf(ids, authority, [candidates[|Covered(sent)|]])) == TooBig
    ensures r == Done ==> Covered(sent) == candidates
    ensures r == BadMessage ==> BadRun(ids, authority, candidates, fits, |Covered(sent)|)
    ensures AllFit(ids, authority, candidates, fits) && AllConfirmed(outcome) ==> r == Done && confirmed == |candidates|
  {
    hide Greedy, Covered, InstructionsOf, InstructionsFor, Full, Packed, BatchOk, BadRun, AllFit, AllConfirmed;
    PackedStarts(ids, authority, fits, candidates);
    PackedSoFar(ids, authority, fits, candidates, 0, [], []);
    sent, confirmed := [], 0;
    var instructions: seq<Instruction> := [];
    var batch: seq<Candidate> := [];
    for i := 0 to |candidates|
      invariant Packed(ids, authority, fits, candidates, i, sent, batch)
      invariant forall n :: 0 <= n < |sent| ==> outcome(n) == Confirmed
      invariant confirmed == |Covered(sent)|
      invariant instructions == InstructionsOf(ids, authority, batch)
      invariant batch != [] ==> fits(instructions) == Fits
      invariant sent != [] ==> batch != []
    {
      var candidate := candidates[i];
      PackedSoFar(ids, authority, fits, candidates, i, sent, batch);
      BatchIsFull(ids, authority, fits, Batch(batch, instructions), candidate);
      var start := |instructions|;
      instructions := instructions + InstructionsFor(ids, authority, candidate);
      var fit := fits(instructions);
      CurrentRun(ids, authority, fits, candidates, i, sent, batch);
      if fit == NotCompilable {
        BadRunAt(ids, authority, candidates, fits, |Covered(sent)|, i + 1);
        return BadMessage, sent, confirmed;
      }
      if fit == TooBig {
        var overflow := instructions[start..];
        instructions := instructions[..start];
        assert instructions == InstructionsOf(ids, authority, batch) && overflow == InstructionsFor(ids, authority, candidate);
        if batch == [] {
          assert [] + [candidate] == [candidate];
          TooBigAt(ids, authority, candidates, fits, i);
          return OneTooBig, sent, confirmed;
        }
        PackedSends(ids, authority, fits, candidates, i, sent, Batch(batch, instructions));
        sent := sent + [Batch(batch, instructions)];
        PackedSoFar(ids, authority, fits, candidates, i, sent, []);
        NotAllConfirmed(outcome, |sent| - 1);
        if outcome(|sent| - 1) == SendFailed { return Failed, sent, confirmed; }
        if outcome(|sent| - 1) == Unknown { return Stopped, sent, confirmed; }
        confirmed := confirmed + |batch|;
        batch := [];
        instructions := overflow;
        assert [] + [candidate] == [candidate];
        CurrentRun(ids, authority, fits, candidates, i, sent, []);
        fit := fits(instructions);
        if fit == NotCompilable {
          BadRunAt(ids, authority, candidates, fits, |Covered(sent)|, i + 1);
          return BadMessage, sent, confirmed;
        }
        if fit == TooBig {
          TooBigAt(ids, authority, candidates, fits, i);
          return OneTooBig, sent, confirmed;
        }
      }
      PackedTakes(ids, authority, fits, candidates, i, sent, batch);
      batch := batch + [candidate];
    }
    if instructions != [] {
      PackedSends(ids, authority, fits, candidates, |candidates|, sent, Batch(batch, instructions));
      sent := sent + [Batch(batch, instructions)];
      PackedSoFar(ids, authority, fits, candidates, |candidates|, sent, []);
      NotAllConfirmed(outcome, |sent| - 1);
      if outcome(|sent| - 1) == SendFailed { return Failed, sent, confirmed; }
      if outcome(|sent| - 1) == Unknown { return Stopped, sent, confirmed; }
      confirmed := confirmed + |batch|;
    } else {
      PackedSoFar(ids, authority, fits, candidates, |candidates|, sent, batch);
    }
    return Done, sent, confirmed;
  }

  // ---------------------------------------------------------------- as few transactions as possible

  /** Whatever runs fit, their sub-runs fit: a shorter message is never longer. */
  ghost predicate SubRunsFit(ids: Programs, authority: Key32, fits: seq<Instruction> -> Fit) {
    forall cs: seq<Candidate>, i: nat, j: nat :: i < j <= |cs| && fits(InstructionsOf(ids, authority, cs)) == Fits ==>
      fits(InstructionsOf(ids, authority, cs[i..j])) == Fits
  }

  // Another way to cut the same candidates into runs that fit
  ghost predicate Cut(ids: Programs, authority: Key32, fits: seq<Instruction> -> Fit, runs: seq<Batch>) {
    forall k :: 0 <= k < |runs| ==> BatchOk(ids, authority, fits, runs[k])
  }

  lemma {:induction false} CoveredPrefix(runs: seq<Batch>, k: nat)
    requires k <= |runs|
    ensures Covered(runs[..k]) <= Covered(runs)
    ensures k < |runs| ==> Covered(runs[..k + 1]) == Covered(runs[..k]) + runs[k].candidates
  {
    if k < |runs| {
      assert runs[..k + 1][..k] == runs[..k];
      if k + 1 == |runs| {
        assert runs[..k + 1] == runs;
      } else {
        CoveredPrefix(runs[..|runs| - 1], k);
        assert runs[..|runs| - 1][..k] == runs[..k];
      }
    } else {
      assert runs[..k] == runs;
    }
  }

  lemma Overlap(all: seq<Candidate>, a: nat, b: nat, c: nat, d: nat)
    requires c <= a <= b < d <= |all|
    ensures all[c..d][a - c..b + 1 - c] == all[a..b] + [all[b]]
  {
    var run, inside := all[c..d], all[c..d][a - c..b + 1 - c];
    forall t | 0 <= t < |inside| ensures inside[t] == all[a..b + 1][t] {
      assert run[a - c + t] == all[a + t];
    }
    assert all[a..b + 1] == all[a..b] + [all[b]];
  }

  lemma CoveredSlice(runs: seq<Batch>, k: nat)
    requires k < |runs|
    ensures var a, b := |Covered(runs[..k])|, |Covered(runs[..k + 1])|;
      a <= b <= |Covered(runs)| && b == a + |runs[k].candidates| && Covered(runs)[a..b] == runs[k].candidates
  {
    CoveredPrefix(runs, k);
    CoveredPrefix(runs, k + 1);
    var a, b := |Covered(runs[..k])|, |Covered(runs[..k + 1])|;
    assert Covered(runs)[..b] == Covered(runs[..k + 1]);
    assert Covered(runs)[a..b] == Covered(runs)[..b][a..];
  }

  // What a fitting run contains fits.
  lemma InsideFits(ids: Programs, authority: Key32, fits: seq<Instruction> -> Fit, run: Batch, i: nat, j: nat)
    requires SubRunsFit(ids, authority, fits) && BatchOk(ids, authority, fits, run) && i < j <= |run.candidates|
    ensures fits(InstructionsOf(ids, authority, run.candidates[i..j])) == Fits
  {
    hide InstructionsOf;
  }

  // The candidate after a batch that is not the last is the one that did not fit.
  lemma NextDidNotFit(ids: Programs, authority: Key32, fits: seq<Instruction> -> Fit, sent: seq<Batch>, k: nat)
    requires Greedy(ids, authority, fits, sent) && k < |sent| && |Covered(sent[..k + 1])| < |Covered(sent)|
    ensures fits(InstructionsOf(ids, authority, sent[k].candidates + [Covered(sent)[|Covered(sent[..k + 1])|]])) != Fits
  {
    hide InstructionsOf, Covered;
    assert sent[..|sent|] == sent;
    if k + 1 < |sent| {
      CoveredSlice(sent, k + 1);
      HeadOf(ids, authority, fits, sent[k + 1]);
      assert Full(ids, authority, fits, sent[k], sent[k + 1].candidates[0]);
    }
  }

  // A full batch never lies strictly inside a run that fits.
  lemma FullRunIsNotInside(ids: Programs, authority: Key32, fits: seq<Instruction> -> Fit, all: seq<Candidate>,
                           a: nat, b: nat, c: nat, d: nat, run: Batch)
    requires SubRunsFit(ids, authority, fits) && BatchOk(ids, authority, fits, run)
    requires a <= b <= |all| && c <= d <= |all| && c <= a && run.candidates == all[c..d]
    requires b < |all| ==> fits(InstructionsOf(ids, authority, all[a..b] + [all[b]])) != Fits
    ensures d <= b
  {
    hide InstructionsOf, SubRunsFit, BatchOk;
    if b < d {
      Overlap(all, a, b, c, d);
      InsideFits(ids, authority, fits, run, a - c, b + 1 - c);
    }
  }

  lemma AheadAfterOneMore(ids: Programs, authority: Key32, fits: seq<Instruction> -> Fit,
                          sent: seq<Batch>, runs: seq<Batch>, k: nat)
    requires Greedy(ids, authority, fits, sent) && Cut(ids, authority, fits, runs) && SubRunsFit(ids, authority, fits)
    requires Covered(sent) == Covered(runs) && k < |sent| && k < |runs|
    requires |Covered(runs[..k])| <= |Covered(sent[..k])|
    ensures |Covered(runs[..k + 1])| <= |Covered(sent[..k + 1])|
  {
    hide InstructionsOf, Covered, SubRunsFit, Greedy, BatchOk;
    CoveredSlice(sent, k);
    CoveredSlice(runs, k);
    var a, b := |Covered(sent[..k])|, |Covered(sent[..k + 1])|;
    var c, d := |Covered(runs[..k])|, |Covered(runs[..k + 1])|;
    if b < |Covered(sent)| { NextDidNotFit(ids, authority, fits, sent, k); }
    FullRunIsNotInside(ids, authority, fits, Covered(sent), a, b, c, d, runs[k]);
  }

  /** The greedy packer is never behind: after k transactions it has covered at least as much as any
      other cut after k of its runs. */
  lemma {:induction false} GreedyStaysAhead(ids: Programs, authority: Key32, fits: seq<Instruction> -> Fit,
                                            sent: seq<Batch>, runs: seq<Batch>, k: nat)
    requires Greedy(ids, authority, fits, sent) && Cut(ids, authority, fits, runs) && SubRunsFit(ids, authority, fits)
    requires Covered(sent) == Covered(runs) && k <= |sent| && k <= |runs|
    ensures |Covered(runs[..k])| <= |Covered(sent[..k])|
  {
    hide InstructionsOf, Greedy, Cut, SubRunsFit;
    if k > 0 {
      GreedyStaysAhead(ids, authority, fits, sent, runs, k - 1);
      AheadAfterOneMore(ids, authority, fits, sent, runs, k - 1);
    }
  }

  /** If everything was sent, no other way of cutting the candidates into runs that fit needs fewer
      transactions. */
  lemma GreedyIsMinimal(ids: Programs, authority: Key32, fits: seq<Instruction> -> Fit,
                        sent: seq<Batch>, runs: seq<Batch>)
    requires Greedy(ids, authority, fits, sent) && Cut(ids, authority, fits, runs) && SubRunsFit(ids, authority, fits)
    requires Covered(sent) == Covered(runs)
    ensures |sent| <= |runs|
  {
    hide InstructionsOf, Covered, SubRunsFit;
    if |runs| < |sent| {
      var k := |runs|;
      assert runs[..k] == runs;
      assert BatchOk(ids, authority, fits, sent[k]);
      CoveredSlice(sent, k);
      GreedyStaysAhead(ids, authority, fits, sent, runs, k);
    }
  }
}
