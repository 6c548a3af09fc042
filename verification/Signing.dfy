/** From a command's instructions to a signature, as the program runs it: every reply is taken from the
    script in order and logged, and everything is judged by the log. */
module Signing {
  import opened Prelude
  import opened Configuration
  import opened Instructions
  import opened Traces
  import opened Heard
  import Text

  // Every message signed so far
  function Signatures(log: seq<Event>): seq<Message> {
    if log == [] then [] else
      var last := log[|log| - 1];
      Signatures(log[..|log| - 1]) + (if last.Signed? then [last.message] else [])
  }

  lemma SignaturesSnoc(log: seq<Event>, e: Event)
    ensures Signatures(log + [e]) == Signatures(log) + (if e.Signed? then [e.message] else [])
  {
    assert (log + [e])[..|log|] == log;
  }

  // `now` continues `before` without a signature.
  predicate Quiet(before: seq<Event>, now: seq<Event>) { before <= now && Signatures(now) == Signatures(before) }

  /** The program's side of the conversation. The log holds what was asked, displayed and signed, and
      the replies in it are exactly the script's first ones: nothing is skipped, repeated or made up. */
  class Wallet {
    const script: Script
    var next: nat
    var log: seq<Event>

    ghost predicate Valid()
      reads this
    {
      next == Count(log) && Hears(script, 0, log)
    }

    constructor (script: Script)
      ensures Valid() && this.script == script && next == 0 && log == []
    {
      this.script := script;
      next, log := 0, [];
    }

    method Call(request: Request) returns (reply: Reply)
      requires Valid()
      modifies this
      ensures Valid() && Quiet(old(log), log)
      ensures reply == script(old(next)) && next == old(next) + 1
      ensures log == old(log) + [Exchange(request, reply)]
    {
      hide Count, Hears, Signatures;
      reply := script(next);
      HearsSnoc(script, 0, log, Exchange(request, reply));
      SignaturesSnoc(log, Exchange(request, reply));
      next := next + 1;
      log := log + [Exchange(request, reply)];
    }

    // One instruction's share of the rent quote
    method RentOne(ids: Programs, ix: Instruction) returns (r: Option<u64>, ghost events: seq<Event>)
      requires Valid()
      modifies this
      ensures Valid() && Quiet(old(log), log)
      ensures RentOneSpec(ids, ix, script, old(next)) == if r.Some? then Some((events, r.value)) else None
      ensures r.Some? ==> log == old(log) + events && next == old(next) + Count(events)
    {
      hide Count, Hears, Signatures;
      CountShort();
      r, events := None, [];
      if ix.program != ids.associatedToken {
        r := Some(0);
      } else if |ix.accounts| > 1 {
        var destination := ix.accounts[1].pubkey;
        var reply := Call(AccountInfo(destination));
        events := [Exchange(AccountInfo(destination), reply)];
        if reply == InfoReply(true) {
          r := Some(0);
        } else if reply.InfoReply? {
          var price := Call(RentExemption);
          events := [Exchange(AccountInfo(destination), reply), Exchange(RentExemption, price)];
          if price.RentReply? { r := Some(price.rent); }
        }
      }
    }

    /** `ata_rent_quote` */
    method RentQuote(ids: Programs, instructions: seq<Instruction>) returns (r: Option<u64>, ghost events: seq<Event>)
      requires Valid()
      modifies this
      ensures Valid() && Quiet(old(log), log)
      ensures RentSpec(ids, instructions, script, old(next)) == if r.Some? then Some((events, r.value)) else None
      ensures r.Some? ==> log == old(log) + events && next == old(next) + Count(events)
    {
      hide Count, Hears, Signatures, RentOneSpec;
      CountShort();
      var rent: u64 := 0;
      events := [];
      for i := 0 to |instructions|
        invariant Valid() && Quiet(old(log), log)
        invariant RentSpec(ids, instructions[..i], script, old(next)) == Some((events, rent))
        invariant log == old(log) + events && next == old(next) + Count(events)
      {
        ghost var sofar := instructions[..i + 1];
        assert sofar[..|sofar| - 1] == instructions[..i] && sofar[|sofar| - 1] == instructions[i];
        var quote, more := RentOne(ids, instructions[i]);
        if quote.None? || rent + quote.value >= U64_LIMIT {
          RentFailsEarly(ids, instructions, script, old(next), i + 1);
          return None, events;
        }
        HearsAppend(script, 0, events, more);
        events := events + more;
        rent := rent + quote.value;
      }
      assert instructions[..|instructions|] == instructions;
      return Some(rent), events;
    }

    // The compute limit, from a simulation at the maximum
    method Tune(ids: Programs, compiles: Message -> bool, policy: SecuritySettings, source: Key32, original: seq<Instruction>)
      returns (r: Option<Tuned>)
      requires Valid()
      modifies this
      ensures Valid() && Quiet(old(log), log)
      ensures r == TuneSpec(ids, compiles, policy, source, original, script, old(next))
      ensures r.Some? ==>
        var events := TuneEvents(ids, source, original, r.value.context, r.value.probe, r.value.limit);
        log == old(log) + events && next == old(next) + Count(events)
    {
      hide Count, Hears, Signatures, TunedLimit, Limited;
      if original == [] { return None; }
      var reply := Call(LatestBlockhash);
      if !reply.HashReply? { return None; }
      var context := reply.context;
      TuneHears(ids, source, original, script, old(next), Tuned(context, NO_SIMULATION, None));
      if !policy.simulate || !policy.optimizeCompute { return Some(Tuned(context, NO_SIMULATION, None)); }
      var m := ProbeMessage(ids, source, original, context);
      if !compiles(m) { return None; }
      reply := Call(Simulate(m, 0));
      if !reply.SimulationReply? || reply.simulation.failed || reply.simulation.units.None? { return None; }
      var limit := TunedLimit(reply.simulation.units.value, policy.margin);
      if limit.None? { return None; }
      TuneHears(ids, source, original, script, old(next), Tuned(context, reply.simulation, limit));
      return Some(Tuned(context, reply.simulation, limit));
    }

    // The transfer of ALL takes the place of the command's first instruction.
    method ResolveAll(ids: Programs, compiles: Message -> bool, source: Key32, context: Context, original: seq<Instruction>,
                      limit: Option<u32>, all: Option<SpendAll>)
      returns (quote: Option<Option<Quote>>, instructions: seq<Instruction>)
      requires Valid() && original != []
      modifies this
      ensures Valid() && Quiet(old(log), log)
      ensures quote == QuoteSpec(ids, compiles, source, original, context, limit, all, script, old(next))
      ensures quote.Some? ==>
        && instructions == Finished(ids, source, original, all, Amount(quote.value), limit)
        && log == old(log) + QuoteEvents(ids, source, original, context, limit, quote.value)
        && next == old(next) + if quote.value.Some? then 1 else 0
    {
      hide Count, Hears, Signatures, SystemTransfer, SetComputeUnitLimit;
      instructions := Limited(ids, original, limit);
      if all.None? { return Some(None), instructions; }
      var provisional := Message(source, instructions, context.hash);
      if !compiles(provisional) { return None, instructions; }
      var reply := Call(FeeFor(provisional));
      if !reply.FeeReply? { return None, instructions; }
      var amount := SpendAllLamports(all.value.balance, reply.fee);
      if amount.None? { return None, instructions; }
      FinishedInPlace(ids, source, original, all.value, amount.value, limit);
      var transfer := SystemTransfer(ids, source, all.value.target, amount.value);
      instructions := instructions[(if limit.Some? then 1 else 0) := transfer];
      return Some(Some(Quote(all.value.balance, reply.fee, amount.value))), instructions;
    }

    method FeeAndRent(ids: Programs, m: Message) returns (r: Option<(u64, u64)>, ghost rentEvents: seq<Event>)
      requires Valid()
      modifies this
      ensures Valid() && Quiet(old(log), log)
      ensures r.Some? <==> script(old(next)).FeeReply? && RentSpec(ids, m.instructions, script, old(next) + 1).Some?
      ensures r.Some? ==>
        && script(old(next)) == FeeReply(r.value.0)
        && RentSpec(ids, m.instructions, script, old(next) + 1) == Some((rentEvents, r.value.1))
        && log == old(log) + BillEvents(m, r.value.0, rentEvents)
        && next == old(next) + 1 + Count(rentEvents)
    {
      hide Count, Hears, Signatures, RentSpec;
      r, rentEvents := None, [];
      var reply := Call(FeeFor(m));
      if !reply.FeeReply? { return; }
      var rent, events := RentQuote(ids, m.instructions);
      if rent.None? { return; }
      r, rentEvents := Some((reply.fee, rent.value)), events;
    }

    // The amount of ALL, and the fee and rent to approve
    method Price(ids: Programs, compiles: Message -> bool, source: Key32, context: Context, original: seq<Instruction>,
                 limit: Option<u32>, all: Option<SpendAll>)
      returns (r: Option<Preview>, ghost rentEvents: seq<Event>)
      requires Valid() && original != []
      modifies this
      ensures Valid() && Quiet(old(log), log)
      ensures PriceSpec(ids, compiles, source, context, original, limit, all, script, old(next))
           == if r.Some? then Some((r.value, rentEvents)) else None
      ensures r.Some? ==>
        var events := PriceEvents(ids, source, original, context, rentEvents, r.value);
        log == old(log) + events && next == old(next) + Count(events)
    {
      hide Count, Hears, Signatures, Finished, QuoteSpec, QuoteEvents, RentSpec, BillEvents;
      r, rentEvents := None, [];
      var resolved, instructions := ResolveAll(ids, compiles, source, context, original, limit, all);
      if resolved.None? { return; }
      var quote := resolved.value;
      var unsigned := Message(source, instructions, context.hash);
      if !compiles(unsigned) { return; }
      var costs, events := FeeAndRent(ids, unsigned);
      if costs.None? { return; }
      if quote.Some? {
        var reply := Call(FeeFor(unsigned));
        if reply != FeeReply(quote.value.fee) { return; }
      }
      r, rentEvents := Some(Preview(instructions, costs.value.0, costs.value.1, quote, limit)), events;
      PriceHears(ids, source, original, context, events, r.value, script, old(next));
    }

    // Preview simulation, the user's answer, and the vault password
    method Decide(policy: SecuritySettings, preview: Message, burn: bool, all: Option<SpendAll>) returns (r: Option<Decision>)
      requires Valid()
      modifies this
      ensures Valid() && Quiet(old(log), log)
      ensures r == DecideSpec(policy, burn, all, script, old(next))
      ensures r.Some? ==>
        var events := DecisionEvents(policy, preview, burn, r.value);
        log == old(log) + events && next == old(next) + Count(events)
      ensures r.Some? && (burn || policy.confirm) ==>
        var reply := script(if policy.simulate then old(next) + 1 else old(next));
        reply.AnswerReply? && reply.line.Some? && Text.Typed(reply.line.value, if burn then "BURN" else "yes")
    {
      hide Count, Hears, Signatures, Answered, Text.Typed;
      var d := Decision(NO_SIMULATION, None);
      var reply;
      if policy.simulate {
        reply := Call(Simulate(preview, 0));
        if !reply.SimulationReply? || reply.simulation.failed { return None; }
        if all.Some? && reply.simulation.remaining != Some(0) { return None; }
        d := d.(simulation := reply.simulation);
      }
      if burn || policy.confirm {
        reply := Call(Ask);
        if !reply.AnswerReply? { return None; }
        d := d.(answer := reply.line);
        if Answered(reply.line) != ApprovalWord(burn) { return None; }
      }
      reply := Call(Unlock);
      DecideHears(policy, preview, burn, d, script, old(next));
      r := if reply == Unlocked then Some(d) else None;
      if r.Some? && Asks(policy, burn) { OnlyTheWordApproves(policy, burn, all, script, old(next)); }
    }

    // Fee, rent and (for ALL) balance, asked again and compared with what was approved
    method Requote(ids: Programs, identity: Identity, shown: Preview, m: Message, all: Option<SpendAll>)
      returns (ok: bool, ghost rentEvents: seq<Event>)
      requires Valid() && m.instructions == shown.instructions
      modifies this
      ensures Valid() && Quiet(old(log), log)
      ensures RequoteSpec(ids, shown, all, script, old(next)) == if ok then Some(rentEvents) else None
      ensures ok ==>
        var events := RequoteEvents(identity, shown, all, m, rentEvents);
        log == old(log) + events && next == old(next) + Count(events)
    {
      hide Count, Hears, Signatures, RentSpec;
      ok, rentEvents := false, [];
      var reply := Call(FeeFor(m));
      if reply != FeeReply(shown.fee) { return; }
      var rentAgain, events := RentQuote(ids, m.instructions);
      if rentAgain != Some(shown.rent) { return; }
      if all.Some? {
        reply := Call(BalanceOf(identity.address));
        if reply != BalanceReply(all.value.balance) { return; }
      }
      ok, rentEvents := true, events;
      RequoteHears(identity, shown, all, m, events, script, old(next));
    }

    // The first half of `refresh_and_sign`: fresh blockhash, quotes asked again, final simulation
    method Recheck(ids: Programs, compiles: Message -> bool, identity: Identity, shown: Preview, all: Option<SpendAll>)
      returns (r: Option<Context>, ghost x: Option<Rechecked>)
      requires Valid()
      modifies this
      ensures Valid() && Quiet(old(log), log)
      ensures x == RecheckSpec(ids, compiles, identity, shown, all, script, old(next))
      ensures r == if x.Some? then Some(x.value.context) else None
      ensures x.Some? ==>
        var m := Message(identity.address, shown.instructions, x.value.context.hash);
        var events := RecheckEvents(identity, shown, all, m, x.value.context, x.value.rent, x.value.simulation);
        log == old(log) + events && next == old(next) + Count(events)
    {
      hide Count, Hears, Signatures, RequoteSpec, RequoteEvents;
      r, x := None, None;
      var reply := Call(LatestBlockhash);
      if !reply.HashReply? { return; }
      var context := reply.context;
      var m := Message(identity.address, shown.instructions, context.hash);
      if !compiles(m) { return; }
      var same, rentEvents := Requote(ids, identity, shown, m, all);
      if !same { return; }
      reply := Call(Simulate(m, context.slot));
      if !reply.SimulationReply? || reply.simulation.failed { return; }
      if all.Some? && reply.simulation.remaining != Some(0) { return; }
      r, x := Some(context), Some(Rechecked(context, rentEvents, reply.simulation));
      RecheckHears(identity, shown, all, m, x.value, script, old(next));
    }

    /** `refresh_and_sign` */
    method RefreshAndSign(ids: Programs, compiles: Message -> bool, identity: Identity, shown: Preview, all: Option<SpendAll>)
      returns (r: Option<Message>, ghost f: Option<Refresh>)
      requires Valid()
      modifies this
      ensures Valid()
      ensures f == RefreshSpec(ids, compiles, identity, shown, all, script, old(next))
      ensures r == if f.Some? then Some(Message(identity.address, shown.instructions, f.value.context.hash)) else None
      ensures r.None? ==> Quiet(old(log), log)
      ensures r.Some? ==>
        var events := RefreshEvents(identity, shown, all, r.value, f.value);
        && log == old(log) + events + [Signed(r.value, identity.address)] && next == old(next) + Count(events)
        && Signatures(log) == Signatures(old(log)) + [r.value]
    {
      hide Count, Hears, Signatures, RequiredSigners, RecheckSpec, RecheckEvents;
      r, f := None, None;
      var refreshed, x := Recheck(ids, compiles, identity, shown, all);
      if refreshed.None? { return; }
      var context := refreshed.value;
      var m := Message(identity.address, shown.instructions, context.hash);
      var reply := Call(LoadSigner(identity.name));
      if reply != SignerReply(identity.address) { return; }
      OnePayer(m);
      if |RequiredSigners(m)| != 1 { return; }
      reply := Call(BlockHeight(context));
      if !reply.HeightReply? { return; }
      if reply.height >= (if context.lastValid < 5 then 0 else context.lastValid - 5) { return; }
      f := Some(Refresh(context, x.value.rent, x.value.simulation, reply.height));
      RefreshHears(identity, shown, all, m, f.value, script, old(next));
      SignaturesSnoc(log, Signed(m, identity.address));
      HearsSnoc(script, 0, log, Signed(m, identity.address));
      log := log + [Signed(m, identity.address)];
      r := Some(m);
    }

    // `send_transaction` up to the approval
    method Approve(ids: Programs, compiles: Message -> bool, policy: SecuritySettings, identity: Identity,
                   original: seq<Instruction>, burn: bool, all: Option<SpendAll>)
      returns (r: Option<Preview>, ghost x: Option<Approval>)
      requires Valid()
      modifies this
      ensures Valid() && Quiet(old(log), log)
      ensures x == ApprovalSpec(ids, compiles, policy, identity, original, burn, all, script, old(next))
      ensures r == if x.Some? then Some(x.value.shown) else None
      ensures x.Some? ==>
        var events := ApprovalEvents(ids, policy, identity, original, burn, x.value.preparation, x.value.shown, x.value.decision);
        log == old(log) + events && next == old(next) + Count(events)
    {
      hide Count, Hears, Signatures, TuneSpec, PriceSpec, DecideSpec, TuneEvents, PriceEvents, DecisionEvents;
      r, x := None, None;
      var tuned := Tune(ids, compiles, policy, identity.address, original);
      if tuned.None? { return; }
      var context := tuned.value.context;
      var preview, rentEvents := Price(ids, compiles, identity.address, context, original, tuned.value.limit, all);
      if preview.None? { return; }
      var shown := preview.value;
      PriceKeepsLimit(ids, compiles, identity.address, context, original, tuned.value.limit, all, script,
                      old(next) + Count(TuneEvents(ids, identity.address, original, context, tuned.value.probe, tuned.value.limit)));
      SignaturesSnoc(log, Shown(shown));
      HearsSnoc(script, 0, log, Shown(shown));
      log := log + [Shown(shown)];
      var decision := Decide(policy, Message(identity.address, shown.instructions, context.hash), burn, all);
      if decision.None? { return; }
      r, x := preview, Some(Approval(Preparation(context, tuned.value.probe, rentEvents), shown, decision.value));
      ApprovalHears(ids, policy, identity, original, burn, x.value, script, old(next));
    }

    /** `send_transaction`. Whatever the replies, the outcome is the specified one: it signs nothing, or
        the log grows by one complete trace whose message is the only one signed. */
    method SendTransaction(ids: Programs, compiles: Message -> bool, policy: SecuritySettings, identity: Identity,
                           original: seq<Instruction>, burn: bool, all: Option<SpendAll>)
      returns (r: SendResult, ghost t: Option<Trace>)
      requires Valid()
      modifies this
      ensures Valid()
      ensures t == SendSpec(ids, compiles, policy, identity, original, burn, all, script, old(next))
      ensures forall x: Trace :: t == Some(x) <==>
        && TraceOk(ids, compiles, policy, identity, original, burn, all, x)
        && Hears(script, old(next), TraceEvents(ids, policy, identity, original, burn, all, x))
      ensures r == if t.None? then Failed else if t.value.outcome == Landed then Confirmed else Unknown
      ensures t.None? ==> Quiet(old(log), log)
      ensures t.Some? ==>
        && log == old(log) + TraceEvents(ids, policy, identity, original, burn, all, t.value)
        && Signatures(log) == Signatures(old(log)) + [t.value.message]
      ensures t.Some? && (burn || policy.confirm) ==> exists line ::
        Exchange(Ask, AnswerReply(Some(line))) in log[|old(log)|..] && Text.Typed(line, if burn then "BURN" else "yes")
      ensures old(Safe(ids, log)) ==> Safe(ids, log)
    {
      hide Count, Hears, Signatures, ApprovalSpec, ApprovalEvents, RefreshSpec, RefreshEvents, Safe, TraceOk;
      forall x: Trace
        ensures SendSpec(ids, compiles, policy, identity, original, burn, all, script, next) == Some(x) <==>
          && TraceOk(ids, compiles, policy, identity, original, burn, all, x)
          && Hears(script, next, TraceEvents(ids, policy, identity, original, burn, all, x))
      {
        SendIff(ids, compiles, policy, identity, original, burn, all, script, next, x);
      }
      r, t := Failed, None;
      var preview, x := Approve(ids, compiles, policy, identity, original, burn, all);
      if preview.None? {
        if old(Safe(ids, log)) { QuietKeepsSafe(ids, old(log), log); }
        return;
      }
      var signed, f := RefreshAndSign(ids, compiles, identity, preview.value, all);
      if signed.None? {
        if old(Safe(ids, log)) { QuietKeepsSafe(ids, old(log), log); }
        return;
      }
      var outcome := Call(Submit(signed.value));
      r := if outcome == Landed then Confirmed else Unknown;
      t := Some(Trace(x.value.preparation, x.value.shown, x.value.decision, f.value, signed.value, outcome));
      assert log == old(log) + TraceEvents(ids, policy, identity, original, burn, all, t.value);
      assert log[|old(log)|..] == TraceEvents(ids, policy, identity, original, burn, all, t.value);
      if Asks(policy, burn) { ApprovalWasTyped(ids, compiles, policy, identity, original, burn, all, t.value); }
      if old(Safe(ids, log)) {
        TraceKeepsSafe(old(log), ids, compiles, policy, identity, original, burn, all, t.value);
      }
    }
  }

  /** The approval of a complete trace is in it: the word itself, between white space. */
  lemma ApprovalWasTyped(ids: Programs, compiles: Message -> bool, policy: SecuritySettings, identity: Identity,
                         original: seq<Instruction>, burn: bool, all: Option<SpendAll>, t: Trace)
    requires TraceOk(ids, compiles, policy, identity, original, burn, all, t) && (burn || policy.confirm)
    ensures t.decision.answer.Some? && Text.Typed(t.decision.answer.value, if burn then "BURN" else "yes")
    ensures Exchange(Ask, AnswerReply(Some(t.decision.answer.value))) in TraceEvents(ids, policy, identity, original, burn, all, t)
  {
    hide TuneEvents, PriceEvents, RefreshEvents, TuneOk, PriceOk, RefreshOk, ApprovalCompiles, Text.Typed;
    var before := TuneEvents(ids, identity.address, original, t.preparation.context, t.preparation.probe, t.shown.limit)
      + PriceEvents(ids, identity.address, original, t.preparation.context, t.preparation.rent, t.shown) + [Shown(t.shown)];
    var at := |before| + if policy.simulate then 1 else 0;
    assert TraceEvents(ids, policy, identity, original, burn, all, t)[at] == Exchange(Ask, AnswerReply(t.decision.answer));
  }

  lemma CountShort()
    ensures Count([]) == 0
    ensures forall e: Event :: Count([e]) == if e.Exchange? then 1 else 0
    ensures forall e: Event, f: Event :: Count([e, f]) == (if e.Exchange? then 1 else 0) + (if f.Exchange? then 1 else 0)
  {
    forall e: Event ensures Count([e]) == if e.Exchange? then 1 else 0 {
      assert [e][..0] == [];
    }
    forall e: Event, f: Event ensures Count([e, f]) == (if e.Exchange? then 1 else 0) + (if f.Exchange? then 1 else 0) {
      assert [e, f][..1] == [e] && [e][..0] == [];
    }
  }

  lemma PriceKeepsLimit(ids: Programs, compiles: Message -> bool, source: Key32, context: Context, original: seq<Instruction>,
                        limit: Option<u32>, all: Option<SpendAll>, script: Script, from: nat)
    requires original != []
    ensures var r := PriceSpec(ids, compiles, source, context, original, limit, all, script, from);
      r.Some? ==> r.value.0.limit == limit
  {
    hide RentSpec, QuoteSpec, Finished;
  }

  // ---------------------------------------------------------------- what every log shows

  /** The moments behind the signature at `k`: the preview at `s`, then the blockhash at `h`, the fee, the
      rent up to `b`, for ALL the balance, then the simulation at `p` and the block height just before. */
  predicate Backed(ids: Programs, log: seq<Event>, k: nat, s: nat, h: nat, b: nat) {
    && s < h && h + 1 < b < k < |log|
    && log[k].Signed? && log[s].Shown?
    && var m, shown := log[k].message, log[s].preview;
    && var p := if shown.quote.Some? then b + 1 else b;
    && p + 3 == k
    && m.payer == log[k].key && m.instructions == shown.instructions
    && (forall i, j | 0 <= i < |m.instructions| && 0 <= j < |m.instructions[i].accounts| ::
          m.instructions[i].accounts[j].signer ==> m.instructions[i].accounts[j].pubkey == log[k].key)
    && log[h].Exchange? && log[h].request == LatestBlockhash
    && log[h].reply.HashReply? && log[h].reply.context.hash == m.hash
    && var context := log[h].reply.context;
    && log[h + 1] == Exchange(FeeFor(m), FeeReply(shown.fee))
    && RentTrace(ids, m.instructions, log[h + 2..b], shown.rent)
    && log[p].Exchange? && log[p].request == Simulate(m, context.slot)
    && log[p].reply.SimulationReply? && !log[p].reply.simulation.failed
    && (shown.quote.Some? ==>
          && log[b] == Exchange(BalanceOf(m.payer), BalanceReply(shown.quote.value.balance))
          && shown.quote.value.amount > 0
          && shown.quote.value.amount + shown.quote.value.fee == shown.quote.value.balance
          && log[p].reply.simulation.remaining == Some(0))
    && log[k - 2].Exchange? && log[k - 2].request.LoadSigner? && log[k - 2].reply == SignerReply(log[k].key)
    && log[k - 1].Exchange? && log[k - 1].request == BlockHeight(context)
    && log[k - 1].reply.HeightReply? && log[k - 1].reply.height + 5 < context.lastValid
  }

  /** Every signature in the log is over instructions that had been displayed, with a blockhash fetched
      after that, the displayed fee and rent quoted again for that very message, a passing simulation of
      it, and a block height safely before expiry; for ALL, also with the quoted balance found again and
      a simulated remainder of 0. */
  ghost predicate Safe(ids: Programs, log: seq<Event>) {
    forall k: nat :: k < |log| && log[k].Signed? ==> exists s: nat, h: nat, b: nat :: Backed(ids, log, k, s, h, b)
  }

  lemma BackedStays(ids: Programs, log: seq<Event>, more: seq<Event>, k: nat, s: nat, h: nat, b: nat)
    requires Backed(ids, log, k, s, h, b) && log <= more
    ensures Backed(ids, more, k, s, h, b)
  {
    hide RequiredSigners, RentTrace;
    assert forall i :: 0 <= i <= k ==> more[i] == log[i];
    assert more[h + 2..b] == log[h + 2..b];
  }

  lemma {:induction false} NoneSigned(log: seq<Event>, more: seq<Event>, k: nat)
    requires log <= more && Signatures(log) == Signatures(more) && |log| <= k < |more|
    ensures !more[k].Signed?
  {
    SignaturesGrow(log, more[..|more| - 1]);
    if k < |more| - 1 {
      NoneSigned(log, more[..|more| - 1], k);
    }
  }

  lemma {:induction false} SignaturesGrow(log: seq<Event>, more: seq<Event>)
    requires log <= more
    ensures |Signatures(log)| <= |Signatures(more)| && Signatures(log) <= Signatures(more)
  {
    if log == more {
    } else {
      SignaturesGrow(log, more[..|more| - 1]);
    }
  }

  lemma QuietKeepsSafe(ids: Programs, log: seq<Event>, more: seq<Event>)
    requires Safe(ids, log) && Quiet(log, more)
    ensures Safe(ids, more)
  {
    hide Signatures, Backed;
    forall k: nat | k < |more| && more[k].Signed?
      ensures exists s: nat, h: nat, b: nat :: Backed(ids, more, k, s, h, b)
    {
      if k >= |log| { NoneSigned(log, more, k); }
      var s: nat, h: nat, b: nat :| Backed(ids, log, k, s, h, b);
      BackedStays(ids, log, more, k, s, h, b);
    }
  }

  lemma SignedKeepsSafe(ids: Programs, log: seq<Event>, e: Event, s: nat, h: nat, b: nat)
    requires Safe(ids, log) && Backed(ids, log + [e], |log|, s, h, b)
    ensures Safe(ids, log + [e])
  {
    hide Backed;
    var more := log + [e];
    forall k: nat | k < |more| && more[k].Signed?
      ensures exists s: nat, h: nat, b: nat :: Backed(ids, more, k, s, h, b)
    {
      if k < |log| {
        var s: nat, h: nat, b: nat :| Backed(ids, log, k, s, h, b);
        BackedStays(ids, log, more, k, s, h, b);
      } else {
        assert Backed(ids, more, k, s, h, b);
      }
    }
  }

  // Where the events of a refresh stand
  lemma RefreshPlaces(identity: Identity, shown: Preview, all: Option<SpendAll>, m: Message, f: Refresh)
    ensures var events := RefreshEvents(identity, shown, all, m, f); var n, b := |events|, 2 + |f.rent|;
      && n == b + (if all.Some? then 4 else 3)
      && events[0] == Exchange(LatestBlockhash, HashReply(f.context))
      && events[1] == Exchange(FeeFor(m), FeeReply(shown.fee))
      && events[2..b] == f.rent
      && (all.Some? ==> events[b] == Exchange(BalanceOf(identity.address), BalanceReply(all.value.balance)))
      && events[n - 3] == Exchange(Simulate(m, f.context.slot), SimulationReply(f.simulation))
      && events[n - 2] == Exchange(LoadSigner(identity.name), SignerReply(identity.address))
      && events[n - 1] == Exchange(BlockHeight(f.context), HeightReply(f.height))
  {
  }

  lemma ShownPlace(ids: Programs, policy: SecuritySettings, identity: Identity, original: seq<Instruction>,
                   burn: bool, p: Preparation, shown: Preview, d: Decision) returns (s: nat)
    ensures var events := ApprovalEvents(ids, policy, identity, original, burn, p, shown, d);
      s < |events| && events[s] == Shown(shown)
  {
    hide TuneEvents, PriceEvents, DecisionEvents;
    s := |TuneEvents(ids, identity.address, original, p.context, p.probe, shown.limit)
          + PriceEvents(ids, identity.address, original, p.context, p.rent, shown)|;
  }

  lemma TraceIsBacked(log: seq<Event>, ids: Programs, compiles: Message -> bool, identity: Identity, approval: seq<Event>,
                      shown: Preview, s: nat, all: Option<SpendAll>, m: Message, f: Refresh)
    requires RefreshOk(ids, compiles, identity, shown, all, m, f) && QuoteOk(all, shown.quote)
    requires s < |approval| && approval[s] == Shown(shown)
    ensures var before := log + (approval + RefreshEvents(identity, shown, all, m, f));
      var h := |log| + |approval|;
      Backed(ids, before + [Signed(m, identity.address)], |before|, |log| + s, h, h + 2 + |f.rent|)
  {
    hide RequiredSigners, RefreshEvents, RentTrace;
    SignersIff(m);
    RefreshPlaces(identity, shown, all, m, f);
    var events := RefreshEvents(identity, shown, all, m, f);
    var before := log + (approval + events);
    var whole, h := before + [Signed(m, identity.address)], |log| + |approval|;
    assert whole[|log| + s] == approval[s];
    assert forall i :: 0 <= i < |events| ==> whole[h + i] == events[i];
    assert whole[h + 2..h + 2 + |f.rent|] == events[2..2 + |f.rent|];
  }

  lemma SameBefore(a: seq<Message>, b: seq<Message>, m: Message)
    requires a + [m] + [] == b + [m] || a + [m] == b + [m]
    ensures a == b
  {
    assert a + [m] == b + [m];
    assert (a + [m])[..|a|] == a && (b + [m])[..|b|] == b;
  }

  /** A completed transaction keeps the log safe. */
  lemma TraceKeepsSafe(log: seq<Event>, ids: Programs, compiles: Message -> bool, policy: SecuritySettings,
                       identity: Identity, original: seq<Instruction>, burn: bool, all: Option<SpendAll>, t: Trace)
    requires Safe(ids, log) && TraceOk(ids, compiles, policy, identity, original, burn, all, t)
    requires var now := log + TraceEvents(ids, policy, identity, original, burn, all, t);
      Signatures(now) == Signatures(log) + [t.message]
    ensures Safe(ids, log + TraceEvents(ids, policy, identity, original, burn, all, t))
  {
    hide Safe, Backed, Signatures, ApprovalEvents, RefreshEvents, TuneOk, RefreshOk, DecisionOk, RentTrace, ApprovalCompiles;
    var approval := ApprovalEvents(ids, policy, identity, original, burn, t.preparation, t.shown, t.decision);
    var before := log + (approval + RefreshEvents(identity, t.shown, all, t.message, t.refresh));
    var signed, submit := Signed(t.message, identity.address), Exchange(Submit(t.message), t.outcome);
    assert log + TraceEvents(ids, policy, identity, original, burn, all, t) == before + [signed] + [submit];
    SignaturesSnoc(before, signed);
    SignaturesSnoc(before + [signed], submit);
    SameBefore(Signatures(before), Signatures(log), t.message);
    QuietKeepsSafe(ids, log, before);
    var s := ShownPlace(ids, policy, identity, original, burn, t.preparation, t.shown, t.decision);
    TraceIsBacked(log, ids, compiles, identity, approval, t.shown, s, all, t.message, t.refresh);
    SignedKeepsSafe(ids, before, signed, |log| + s, |log| + |approval|, |log| + |approval| + 2 + |t.refresh.rent|);
    QuietKeepsSafe(ids, before + [signed], before + [signed] + [submit]);
  }

  lemma BalanceIsReadAgain(identity: Identity, shown: Preview, all: SpendAll, m: Message, f: Refresh)
    ensures Exchange(BalanceOf(identity.address), BalanceReply(all.balance)) in RefreshEvents(identity, shown, Some(all), m, f)
  {
    var asked := Exchange(BalanceOf(identity.address), BalanceReply(all.balance));
    var requoted := RequoteEvents(identity, shown, Some(all), m, f.rent);
    assert requoted[|requoted| - 1] == asked;
    assert RefreshEvents(identity, shown, Some(all), m, f)[|requoted|] == asked;
  }

  /** ALL sends exactly what the quoted balance leaves after the fee quoted with it, a positive amount,
      in place of the command's first instruction, whether or not a compute limit precedes it; the other
      instructions are the command's own, the balance was found unchanged, and the final simulation of the
      signed message leaves nothing behind. */
  lemma AllDrainsTheWallet(ids: Programs, compiles: Message -> bool, policy: SecuritySettings, identity: Identity,
                           original: seq<Instruction>, burn: bool, all: SpendAll, t: Trace)
    requires TraceOk(ids, compiles, policy, identity, original, burn, Some(all), t)
    ensures t.shown.quote.Some? && t.shown.quote.value.balance == all.balance
    ensures t.shown.quote.value.amount > 0 && t.shown.quote.value.amount + t.shown.quote.value.fee == all.balance
    ensures var at := if policy.simulate && policy.optimizeCompute then 1 else 0;
      && |t.message.instructions| == at + |original|
      && t.message.instructions[at] == SystemTransfer(ids, identity.address, all.target, t.shown.quote.value.amount)
      && (forall i :: 1 <= i < |original| ==> t.message.instructions[at + i] == original[i])
    ensures Exchange(BalanceOf(identity.address), BalanceReply(all.balance)) in RefreshEvents(identity, t.shown, Some(all), t.message, t.refresh)
    ensures t.refresh.simulation.remaining == Some(0) && !t.refresh.simulation.failed
  {
    hide RentTrace, SystemTransfer, SetComputeUnitLimit, RequiredSigners, TunedLimit, RefreshEvents;
    BalanceIsReadAgain(identity, t.shown, all, t.message, t.refresh);
  }

  /** Without ALL the signed instructions are the command's own, after at most a compute limit, which
      covers the probed usage and stays within the network's maximum. */
  lemma OnlyALimitIsAdded(ids: Programs, compiles: Message -> bool, policy: SecuritySettings, identity: Identity,
                          original: seq<Instruction>, burn: bool, t: Trace)
    requires TraceOk(ids, compiles, policy, identity, original, burn, None, t)
    ensures if policy.simulate && policy.optimizeCompute
            then exists limit: u32 ::
              && t.message.instructions == [SetComputeUnitLimit(ids, limit)] + original
              && t.preparation.probe.units.Some? && t.preparation.probe.units.value <= limit <= MAX_COMPUTE_UNITS
            else t.message.instructions == original
  {
    hide RentTrace, SystemTransfer, SetComputeUnitLimit, RequiredSigners, TunedLimit;
    if Optimizes(policy) {
      TunedLimitCovers(t.preparation.probe.units.value, policy.margin);
      assert t.message.instructions == [SetComputeUnitLimit(ids, t.shown.limit.value)] + original;
    } else {
      assert [] + original == original;
    }
  }

  // ---------------------------------------------------------------- the fee that is displayed

  // Where the replies of a trace stand that quote fees before the display
  lemma FeePlaces(ids: Programs, compiles: Message -> bool, policy: SecuritySettings, identity: Identity,
                  original: seq<Instruction>, burn: bool, all: SpendAll, script: Script, from: nat, t: Trace)
    requires SendSpec(ids, compiles, policy, identity, original, burn, Some(all), script, from) == Some(t)
    ensures TraceOk(ids, compiles, policy, identity, original, burn, Some(all), t) && t.shown.quote.Some?
    ensures var q := from + if Optimizes(policy) then 2 else 1;
      && script(q) == FeeReply(t.shown.quote.value.fee)
      && script(q + 1) == FeeReply(t.shown.fee)
      && script(q + 2 + Count(t.preparation.rent)) == FeeReply(t.shown.quote.value.fee)
  {
    hide Hears, Count, SendSpec, TraceEvents, ApprovalEvents, TuneEvents, PriceEvents, RefreshOk, DecisionOk, ApprovalCompiles, RentTrace;
    SendIff(ids, compiles, policy, identity, original, burn, Some(all), script, from, t);
    TraceHears(ids, policy, identity, original, burn, Some(all), t, script, from);
    ApprovalHears(ids, policy, identity, original, burn, Approval(t.preparation, t.shown, t.decision), script, from);
    var p, shown := t.preparation, t.shown;
    TuneHears(ids, identity.address, original, script, from, Tuned(p.context, p.probe, shown.limit));
    PriceHears(ids, identity.address, original, p.context, p.rent, shown, script,
               from + Count(TuneEvents(ids, identity.address, original, p.context, p.probe, shown.limit)));
  }

  /** In any run of ALL that signs, amount and displayed fee make up the balance exactly when the reply
      that quoted the displayed fee equals the one before it, from which the amount was computed. */
  lemma ApprovedFeeAddsUp(ids: Programs, compiles: Message -> bool, policy: SecuritySettings, identity: Identity,
                          original: seq<Instruction>, burn: bool, all: SpendAll, script: Script, from: nat, t: Trace)
    requires SendSpec(ids, compiles, policy, identity, original, burn, Some(all), script, from) == Some(t)
    ensures var q := from + if Optimizes(policy) then 2 else 1;
      && t.shown.quote.Some?
      && (t.shown.quote.value.amount + t.shown.fee == all.balance <==> script(q + 1) == script(q))
  {
    hide SendSpec, RentTrace, Finished, RefreshOk, DecisionOk, ApprovalCompiles, Count;
    FeePlaces(ids, compiles, policy, identity, original, burn, all, script, from, t);
  }

  lemma OnlyThePayerSigns(ids: Programs, source: Key32, target: Key32, amount: u64, hash: Key32)
    ensures RequiredSigners(Message(source, [SystemTransfer(ids, source, target, amount)], hash)) == {source}
  {
    hide LE;
    var ixs := [SystemTransfer(ids, source, target, amount)];
    assert ixs[0].accounts[0].signer && ixs[0].accounts[0].pubkey == source && !ixs[0].accounts[1].signer;
  }

  lemma TransferIsNoRent(ids: Programs, source: Key32, target: Key32, amount: u64)
    requires ids.system != ids.associatedToken
    ensures RentTrace(ids, [SystemTransfer(ids, source, target, amount)], [], 0)
  {
    RentTracePlain(ids, [], SystemTransfer(ids, source, target, amount), [], 0);
    assert [] + [SystemTransfer(ids, source, target, amount)] == [SystemTransfer(ids, source, target, amount)];
  }

  const QUIET_POLICY: SecuritySettings := SecuritySettings(false, false, false, false, false, 0, false)

  // ALL of 10,000: the fee is quoted as 5,000, then as 7,000 for the display, then as 5,000 again.
  function FeeScript(identity: Identity, hash: Key32): Script {
    var context := Context(hash, 100, 0);
    var replies := [HashReply(context), FeeReply(5_000), FeeReply(7_000), FeeReply(5_000), Unlocked,
                    HashReply(context), FeeReply(7_000), BalanceReply(10_000), SimulationReply(Simulation(false, None, Some(0))),
                    SignerReply(identity.address), HeightReply(0), Landed];
    (n: nat) => if n < |replies| then replies[n] else Bad
  }

  function FeeTrace(ids: Programs, identity: Identity, target: Key32, hash: Key32): Trace {
    var transfer := [SystemTransfer(ids, identity.address, target, 5_000)];
    var context := Context(hash, 100, 0);
    Trace(Preparation(context, NO_SIMULATION, []), Preview(transfer, 7_000, 0, Some(Quote(10_000, 5_000, 5_000)), None),
          Decision(NO_SIMULATION, None), Refresh(context, [], Simulation(false, None, Some(0)), 0),
          Message(identity.address, transfer, hash), Landed)
  }

  lemma FeeTraceOk(ids: Programs, identity: Identity, target: Key32, hash: Key32)
    requires ids.system != ids.associatedToken
    ensures TraceOk(ids, _ => true, QUIET_POLICY, identity, [SystemTransfer(ids, identity.address, target, 0)], false,
                    Some(SpendAll(10_000, target)), FeeTrace(ids, identity, target, hash))
  {
    hide SystemTransfer, RequiredSigners, Limited;
    OnlyThePayerSigns(ids, identity.address, target, 5_000, hash);
    TransferIsNoRent(ids, identity.address, target, 5_000);
    var transfer := SystemTransfer(ids, identity.address, target, 5_000);
    assert Finished(ids, identity.address, [SystemTransfer(ids, identity.address, target, 0)],
                    Some(SpendAll(10_000, target)), 5_000, None) == [transfer];
  }

  lemma FeeTraceHeard(ids: Programs, identity: Identity, target: Key32, hash: Key32)
    ensures Hears(FeeScript(identity, hash), 0,
                  TraceEvents(ids, QUIET_POLICY, identity, [SystemTransfer(ids, identity.address, target, 0)], false,
                              Some(SpendAll(10_000, target)), FeeTrace(ids, identity, target, hash)))
  {
    hide Hears, Count, TraceEvents, ApprovalEvents, TuneEvents, PriceEvents, DecisionEvents, RefreshEvents, RecheckEvents,
      RequoteEvents, SystemTransfer;
    var script, t := FeeScript(identity, hash), FeeTrace(ids, identity, target, hash);
    var original, all := [SystemTransfer(ids, identity.address, target, 0)], Some(SpendAll(10_000, target));
    var p, shown, f := t.preparation, t.shown, t.refresh;
    CountShort();
    HearsOne(script, 3, Shown(shown));
    HearsOne(script, 7, Shown(shown));
    TraceHears(ids, QUIET_POLICY, identity, original, false, all, t, script, 0);
    ApprovalHears(ids, QUIET_POLICY, identity, original, false, Approval(p, shown, t.decision), script, 0);
    TuneHears(ids, identity.address, original, script, 0, Tuned(p.context, p.probe, shown.limit));
    PriceHears(ids, identity.address, original, p.context, p.rent, shown, script, 1);
    DecideHears(QUIET_POLICY, Message(identity.address, shown.instructions, p.context.hash), false, t.decision, script, 4);
    RefreshHears(identity, shown, all, t.message, f, script, 5);
    RecheckHears(identity, shown, all, t.message, Rechecked(f.context, f.rent, f.simulation), script, 5);
    RequoteHears(identity, shown, all, t.message, f.rent, script, 6);
  }

  /** A run that signs although the displayed fee is not the one ALL was computed from: the two are
      separate quotes, and only the latter is asked again before the display. */
  method ApprovedFeeMayDiffer(ids: Programs, identity: Identity, target: Key32, hash: Key32)
    returns (wallet: Wallet, r: SendResult, shown: Preview)
    requires ids.system != ids.associatedToken
    ensures r == Confirmed
    ensures Shown(shown) in wallet.log && shown.quote.Some? && shown.quote.value.balance == 10_000
    ensures shown.quote.value.amount + shown.fee == 12_000
    ensures Signatures(wallet.log) == [Message(identity.address, shown.instructions, hash)]
  {
    hide Hears, Count, TraceOk, SendSpec, ApprovalEvents, RefreshEvents;
    var original, all := [SystemTransfer(ids, identity.address, target, 0)], Some(SpendAll(10_000, target));
    wallet := new Wallet(FeeScript(identity, hash));
    ghost var expected := FeeTrace(ids, identity, target, hash);
    FeeTraceOk(ids, identity, target, hash);
    FeeTraceHeard(ids, identity, target, hash);
    ghost var t;
    r, t := wallet.SendTransaction(ids, _ => true, QUIET_POLICY, identity, original, false, all);
    assert t == Some(expected);
    ghost var s := ShownPlace(ids, QUIET_POLICY, identity, original, false, expected.preparation, expected.shown, expected.decision);
    assert wallet.log[s] == Shown(expected.shown);
    shown := FeeTrace(ids, identity, target, hash).shown;
  }
}
