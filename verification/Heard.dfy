/** Which replies make a complete trace. The coming replies are a script, any sequence at all; what the
    program makes of them at each stage is a function, and the function finds a trace exactly when the
    script contains one. */
module Heard {
  import opened Prelude
  import opened Configuration
  import opened Instructions
  import opened Traces
  import Text

  // The n-th reply that the program will get, from the network or from the user
  type Script = nat -> Reply

  function Count(events: seq<Event>): nat {
    if events == [] then 0 else Count(events[..|events| - 1]) + if events[|events| - 1].Exchange? then 1 else 0
  }

  /** The replies in `events`, in order, are those of the script from position `from` on. */
  predicate Hears(script: Script, from: nat, events: seq<Event>) {
    events == [] ||
      var front, last := events[..|events| - 1], events[|events| - 1];
      Hears(script, from, front) && (last.Exchange? ==> last.reply == script(from + Count(front)))
  }

  lemma HearsSnoc(script: Script, from: nat, events: seq<Event>, e: Event)
    ensures Count(events + [e]) == Count(events) + if e.Exchange? then 1 else 0
    ensures Hears(script, from, events + [e]) <==>
      Hears(script, from, events) && (e.Exchange? ==> e.reply == script(from + Count(events)))
  {
    assert (events + [e])[..|events|] == events;
  }

  lemma {:induction false} HearsAppend(script: Script, from: nat, a: seq<Event>, b: seq<Event>)
    ensures Count(a + b) == Count(a) + Count(b)
    ensures Hears(script, from, a + b) <==> Hears(script, from, a) && Hears(script, from + Count(a), b)
  {
    if b == [] {
      assert a + b == a;
    } else {
      var front := b[..|b| - 1];
      assert (a + b)[..|a + b| - 1] == a + front;
      HearsAppend(script, from, a, front);
    }
  }

  lemma HearsOne(script: Script, from: nat, e: Event)
    ensures Count([e]) == (if e.Exchange? then 1 else 0) && Count([]) == 0 && Hears(script, from, [])
    ensures Hears(script, from, [e]) <==> (e.Exchange? ==> e.reply == script(from))
  {
    HearsSnoc(script, from, [], e);
    assert [] + [e] == [e];
  }

  // ---------------------------------------------------------------- rent

  function RentOneSpec(ids: Programs, ix: Instruction, script: Script, from: nat): Option<(seq<Event>, u64)> {
    if ix.program != ids.associatedToken then Some(([], 0))
    else if |ix.accounts| <= 1 then None
    else
      var lookup := Exchange(AccountInfo(ix.accounts[1].pubkey), script(from));
      if script(from) == InfoReply(true) then Some(([lookup], 0))
      else if script(from) == InfoReply(false) && script(from + 1).RentReply?
      then Some(([lookup, Exchange(RentExemption, script(from + 1))], script(from + 1).rent))
      else None
  }

  function RentSpec(ids: Programs, ixs: seq<Instruction>, script: Script, from: nat): Option<(seq<Event>, u64)> {
    if ixs == [] then Some(([], 0))
    else
      var (events, rent) :- RentSpec(ids, ixs[..|ixs| - 1], script, from);
      var (more, price) :- RentOneSpec(ids, ixs[|ixs| - 1], script, from + Count(events));
      if rent + price < U64_LIMIT then Some((events + more, rent + price)) else None
  }

  lemma {:induction false} RentIsNotNegative(ids: Programs, ixs: seq<Instruction>, events: seq<Event>, rent: int)
    requires RentTrace(ids, ixs, events, rent)
    ensures rent >= 0
  {
    if ixs != [] {
      var rest := ixs[..|ixs| - 1];
      if RentTrace(ids, rest, events, rent) {
        RentIsNotNegative(ids, rest, events, rent);
      } else if events != [] && RentTrace(ids, rest, events[..|events| - 1], rent) {
        RentIsNotNegative(ids, rest, events[..|events| - 1], rent);
      } else {
        RentIsNotNegative(ids, rest, events[..|events| - 2], rent - events[|events| - 1].reply.rent);
      }
    }
  }

  lemma OneTraced(ids: Programs, ixs: seq<Instruction>, ix: Instruction, script: Script, from: nat, events: seq<Event>, rent: int)
    requires RentTrace(ids, ixs, events, rent) && RentOneSpec(ids, ix, script, from).Some?
    ensures var (more, price) := RentOneSpec(ids, ix, script, from).value;
      RentTrace(ids, ixs + [ix], events + more, rent + price) && Hears(script, from, more)
  {
    hide RentTrace, Hears, Count;
    var (more, price) := RentOneSpec(ids, ix, script, from).value;
    if ix.program != ids.associatedToken {
      RentTracePlain(ids, ixs, ix, events, rent);
      assert events + [] == events;
      HearsOne(script, from, Signed(Message(ix.program, [], ix.program), ix.program));
    } else {
      HearsOne(script, from, more[0]);
      if script(from) == InfoReply(true) {
        RentTraceFound(ids, ixs, ix, events, rent);
      } else {
        RentTraceMissing(ids, ixs, ix, events, rent, price);
        assert events + more == events + [more[0]] + [more[1]] && more == [more[0]] + [more[1]];
        HearsSnoc(script, from, [more[0]], more[1]);
      }
    }
  }

  // The last instruction's part of a trace that the script contains
  lemma OneHeard(ids: Programs, ixs: seq<Instruction>, script: Script, from: nat, events: seq<Event>, rent: u64)
    returns (front: seq<Event>, before: u64)
    requires ixs != [] && RentTrace(ids, ixs, events, rent) && Hears(script, from, events)
    ensures RentTrace(ids, ixs[..|ixs| - 1], front, before) && Hears(script, from, front)
    ensures var one := RentOneSpec(ids, ixs[|ixs| - 1], script, from + Count(front));
      one.Some? && events == front + one.value.0 && rent == before + one.value.1
  {
    var ix, rest := ixs[|ixs| - 1], ixs[..|ixs| - 1];
    if ix.program != ids.associatedToken {
      front, before := events, rent;
    } else if events[|events| - 1].request != RentExemption {
      front, before := events[..|events| - 1], rent;
      assert events == front + [events[|events| - 1]];
    } else {
      front := events[..|events| - 2];
      RentIsNotNegative(ids, rest, front, rent - events[|events| - 1].reply.rent);
      before := rent - events[|events| - 1].reply.rent;
      assert events[..|events| - 1][..|events| - 2] == front;
      assert events == front + [events[|events| - 2], events[|events| - 1]];
    }
  }

  lemma NoRent(ids: Programs, script: Script, from: nat, events: seq<Event>, rent: int)
    ensures RentTrace(ids, [], events, rent) <==> events == [] && rent == 0
    ensures Hears(script, from, [])
  {
  }

  lemma {:induction false} RentIsTraced(ids: Programs, ixs: seq<Instruction>, script: Script, from: nat)
    requires RentSpec(ids, ixs, script, from).Some?
    ensures var (events, rent) := RentSpec(ids, ixs, script, from).value;
      RentTrace(ids, ixs, events, rent) && Hears(script, from, events)
  {
    hide RentTrace, RentOneSpec, Hears, Count;
    if ixs == [] {
      NoRent(ids, script, from, [], 0);
    } else {
      var rest, ix := ixs[..|ixs| - 1], ixs[|ixs| - 1];
      var (front, before) := RentSpec(ids, rest, script, from).value;
      RentIsTraced(ids, rest, script, from);
      OneTraced(ids, rest, ix, script, from + Count(front), front, before);
      HearsAppend(script, from, front, RentOneSpec(ids, ix, script, from + Count(front)).value.0);
      assert rest + [ix] == ixs;
    }
  }

  lemma {:induction false} RentIsFound(ids: Programs, ixs: seq<Instruction>, script: Script, from: nat, events: seq<Event>, rent: u64)
    requires RentTrace(ids, ixs, events, rent) && Hears(script, from, events)
    ensures RentSpec(ids, ixs, script, from) == Some((events, rent))
  {
    hide RentTrace, RentOneSpec, Hears, Count;
    if ixs == [] {
      NoRent(ids, script, from, events, rent);
    } else {
      var front, before := OneHeard(ids, ixs, script, from, events, rent);
      RentIsFound(ids, ixs[..|ixs| - 1], script, from, front, before);
    }
  }

  /** The rent quote found in the replies is the only rent trace they contain. */
  lemma RentIff(ids: Programs, ixs: seq<Instruction>, script: Script, from: nat, events: seq<Event>, rent: u64)
    ensures RentSpec(ids, ixs, script, from) == Some((events, rent)) <==>
      RentTrace(ids, ixs, events, rent) && Hears(script, from, events)
  {
    hide RentTrace, RentSpec, Hears;
    if RentSpec(ids, ixs, script, from) == Some((events, rent)) {
      RentIsTraced(ids, ixs, script, from);
    }
    if RentTrace(ids, ixs, events, rent) && Hears(script, from, events) {
      RentIsFound(ids, ixs, script, from, events, rent);
    }
  }

  lemma {:induction false} RentFailsEarly(ids: Programs, ixs: seq<Instruction>, script: Script, from: nat, k: nat)
    requires k <= |ixs| && RentSpec(ids, ixs[..k], script, from).None?
    ensures RentSpec(ids, ixs, script, from).None?
  {
    if k == |ixs| {
      assert ixs[..k] == ixs;
    } else {
      assert ixs[..|ixs| - 1][..k] == ixs[..k];
      RentFailsEarly(ids, ixs[..|ixs| - 1], script, from, k);
    }
  }

  // ---------------------------------------------------------------- up to the approval

  lemma HearsIf(script: Script, from: nat, c: bool, e: Event)
    requires e.Exchange?
    ensures var events := if c then [e] else [];
      Count(events) == (if c then 1 else 0) && (Hears(script, from, events) <==> (c ==> e.reply == script(from)))
  {
    HearsOne(script, from, e);
  }

  datatype Tuned = Tuned(context: Context, probe: Simulation, limit: Option<u32>)

  function ProbeMessage(ids: Programs, source: Key32, original: seq<Instruction>, context: Context): Message {
    Message(source, Limited(ids, original, Some(MAX_COMPUTE_UNITS)), context.hash)
  }

  function TuneSpec(ids: Programs, compiles: Message -> bool, policy: SecuritySettings, source: Key32,
                    original: seq<Instruction>, script: Script, from: nat): (r: Option<Tuned>)
    ensures r.Some? ==> original != []
  {
    if original == [] || !script(from).HashReply? then None
    else
      var context := script(from).context;
      if !Optimizes(policy) then Some(Tuned(context, NO_SIMULATION, None))
      else if !compiles(ProbeMessage(ids, source, original, context)) || !script(from + 1).SimulationReply? then None
      else
        var probe := script(from + 1).simulation;
        if probe.failed || probe.units.None? then None
        else
          var limit := TunedLimit(probe.units.value, policy.margin);
          if limit.None? then None else Some(Tuned(context, probe, limit))
  }

  lemma TuneHears(ids: Programs, source: Key32, original: seq<Instruction>, script: Script, from: nat, x: Tuned)
    ensures var events := TuneEvents(ids, source, original, x.context, x.probe, x.limit);
      && Count(events) == (if x.limit.Some? then 2 else 1)
      && (Hears(script, from, events) <==>
            script(from) == HashReply(x.context) && (x.limit.Some? ==> script(from + 1) == SimulationReply(x.probe)))
  {
    hide Hears, Count, Limited;
    var first := Exchange(LatestBlockhash, HashReply(x.context));
    var probe := Exchange(Simulate(ProbeMessage(ids, source, original, x.context), 0), SimulationReply(x.probe));
    HearsOne(script, from, first);
    HearsIf(script, from + 1, x.limit.Some?, probe);
    HearsAppend(script, from, [first], if x.limit.Some? then [probe] else []);
  }

  lemma TuneIff(ids: Programs, compiles: Message -> bool, policy: SecuritySettings, source: Key32,
                original: seq<Instruction>, script: Script, from: nat, x: Tuned)
    ensures TuneSpec(ids, compiles, policy, source, original, script, from) == Some(x) <==>
      && TuneOk(policy, original, x.probe, x.limit)
      && (x.limit.Some? ==> compiles(ProbeMessage(ids, source, original, x.context)))
      && Hears(script, from, TuneEvents(ids, source, original, x.context, x.probe, x.limit))
  {
    hide Hears, TuneEvents, ProbeMessage, TunedLimit;
    TuneHears(ids, source, original, script, from, x);
  }

  function QuoteSpec(ids: Programs, compiles: Message -> bool, source: Key32, original: seq<Instruction>, context: Context,
                     limit: Option<u32>, all: Option<SpendAll>, script: Script, from: nat): Option<Option<Quote>>
  {
    if all.None? then Some(None)
    else if !compiles(Message(source, Limited(ids, original, limit), context.hash)) || !script(from).FeeReply? then None
    else
      var amount :- SpendAllLamports(all.value.balance, script(from).fee);
      Some(Some(Quote(all.value.balance, script(from).fee, amount)))
  }

  function PriceSpec(ids: Programs, compiles: Message -> bool, source: Key32, context: Context, original: seq<Instruction>,
                     limit: Option<u32>, all: Option<SpendAll>, script: Script, from: nat): Option<(Preview, seq<Event>)>
    requires original != []
  {
    var quote :- QuoteSpec(ids, compiles, source, original, context, limit, all, script, from);
    var at := if quote.Some? then from + 1 else from;
    var instructions := Finished(ids, source, original, all, Amount(quote), limit);
    if !compiles(Message(source, instructions, context.hash)) || !script(at).FeeReply? then None
    else
      var (events, rent) :- RentSpec(ids, instructions, script, at + 1);
      if quote.Some? && script(at + 1 + Count(events)) != FeeReply(quote.value.fee) then None
      else Some((Preview(instructions, script(at).fee, rent, quote, limit), events))
  }

  lemma PriceHears(ids: Programs, source: Key32, original: seq<Instruction>, context: Context, rent: seq<Event>,
                   shown: Preview, script: Script, from: nat)
    ensures var events := PriceEvents(ids, source, original, context, rent, shown);
      var at := if shown.quote.Some? then from + 1 else from;
      && from + Count(events) == at + 1 + Count(rent) + (if shown.quote.Some? then 1 else 0)
      && (Hears(script, from, events) <==>
            && (shown.quote.Some? ==> script(from) == FeeReply(shown.quote.value.fee))
            && script(at) == FeeReply(shown.fee)
            && Hears(script, at + 1, rent)
            && (shown.quote.Some? ==> script(at + 1 + Count(rent)) == FeeReply(shown.quote.value.fee)))
  {
    hide Hears, Count, Limited;
    var final := Message(source, shown.instructions, context.hash);
    var quoted := shown.quote.Some?;
    var at := if quoted then from + 1 else from;
    var fee := if quoted then shown.quote.value.fee else 0;
    var first := Exchange(FeeFor(Message(source, Limited(ids, original, shown.limit), context.hash)), FeeReply(fee));
    var second, third := Exchange(FeeFor(final), FeeReply(shown.fee)), Exchange(FeeFor(final), FeeReply(fee));
    var a, b, c := if quoted then [first] else [], [second], if quoted then [third] else [];
    HearsIf(script, from, quoted, first);
    HearsOne(script, at, second);
    HearsIf(script, at + 1 + Count(rent), quoted, third);
    HearsAppend(script, at, b, rent);
    HearsAppend(script, from, a, b + rent);
    HearsAppend(script, from, a + (b + rent), c);
  }

  lemma PriceIff(ids: Programs, compiles: Message -> bool, source: Key32, context: Context, original: seq<Instruction>,
                 limit: Option<u32>, all: Option<SpendAll>, script: Script, from: nat, shown: Preview, rent: seq<Event>)
    requires original != []
    ensures PriceSpec(ids, compiles, source, context, original, limit, all, script, from) == Some((shown, rent)) <==>
      && shown.limit == limit && PriceOk(ids, source, original, all, rent, shown)
      && (shown.quote.Some? ==> compiles(Message(source, Limited(ids, original, limit), context.hash)))
      && compiles(Message(source, shown.instructions, context.hash))
      && Hears(script, from, PriceEvents(ids, source, original, context, rent, shown))
  {
    hide Hears, Count, PriceEvents, RentSpec, RentTrace, Finished, Limited;
    PriceHears(ids, source, original, context, rent, shown, script, from);
    var at := if shown.quote.Some? then from + 1 else from;
    RentIff(ids, shown.instructions, script, at + 1, rent, shown.rent);
    var quote := RentSpec(ids, shown.instructions, script, at + 1);
    assert quote.Some? ==> quote == Some((quote.value.0, quote.value.1));
  }

  // The line that was read, trimmed; the end of the input counts as an empty line.
  function Answered(line: Option<string>): string { if line.Some? then Text.Trim(line.value) else "" }

  function DecideSpec(policy: SecuritySettings, burn: bool, all: Option<SpendAll>, script: Script, from: nat): Option<Decision> {
    var asked := if policy.simulate then from + 1 else from;
    var unlock := if Asks(policy, burn) then asked + 1 else asked;
    if policy.simulate && (!script(from).SimulationReply? || script(from).simulation.failed) then None
    else if policy.simulate && all.Some? && !Drains(script(from).simulation) then None
    else if Asks(policy, burn) && !script(asked).AnswerReply? then None
    else if Asks(policy, burn) && Answered(script(asked).line) != ApprovalWord(burn) then None
    else if script(unlock) != Unlocked then None
    else Some(Decision(if policy.simulate then script(from).simulation else NO_SIMULATION,
                       if Asks(policy, burn) then script(asked).line else None))
  }

  lemma DecideHears(policy: SecuritySettings, preview: Message, burn: bool, d: Decision, script: Script, from: nat)
    ensures var events := DecisionEvents(policy, preview, burn, d);
      var asked := if policy.simulate then from + 1 else from;
      var unlock := if Asks(policy, burn) then asked + 1 else asked;
      && from + Count(events) == unlock + 1
      && (Hears(script, from, events) <==>
            && (policy.simulate ==> script(from) == SimulationReply(d.simulation))
            && (Asks(policy, burn) ==> script(asked) == AnswerReply(d.answer))
            && script(unlock) == Unlocked)
  {
    hide Hears, Count;
    var asked := if policy.simulate then from + 1 else from;
    var unlock := if Asks(policy, burn) then asked + 1 else asked;
    var first, second, third :=
      Exchange(Simulate(preview, 0), SimulationReply(d.simulation)), Exchange(Ask, AnswerReply(d.answer)), Exchange(Unlock, Unlocked);
    var a, b := if policy.simulate then [first] else [], if Asks(policy, burn) then [second] else [];
    HearsIf(script, from, policy.simulate, first);
    HearsIf(script, asked, Asks(policy, burn), second);
    HearsOne(script, unlock, third);
    HearsAppend(script, from, a, b);
    HearsAppend(script, from, a + b, [third]);
  }

  lemma DecideIff(policy: SecuritySettings, preview: Message, burn: bool, all: Option<SpendAll>, script: Script, from: nat, d: Decision)
    ensures DecideSpec(policy, burn, all, script, from) == Some(d) <==>
      DecisionOk(policy, burn, all, d) && Hears(script, from, DecisionEvents(policy, preview, burn, d))
  {
    hide Hears, DecisionEvents, Answered;
    DecideHears(policy, preview, burn, d, script, from);
    var asked := if policy.simulate then from + 1 else from;
    if script(asked).AnswerReply? { AnsweredIff(script(asked).line, burn); }
  }

  lemma AnsweredIff(line: Option<string>, burn: bool)
    ensures Answered(line) == ApprovalWord(burn) <==> line.Some? && Text.Typed(line.value, ApprovalWord(burn))
  {
    hide Text.Trim, Text.Typed;
    if line.Some? { Text.TrimIff(line.value, ApprovalWord(burn)); }
  }

  /** Where an approval is asked for, the only answer that approves is a line with the word between white
      space: any other line, the end of the input, or no answer ends the command. */
  lemma OnlyTheWordApproves(policy: SecuritySettings, burn: bool, all: Option<SpendAll>, script: Script, from: nat)
    requires Asks(policy, burn) && DecideSpec(policy, burn, all, script, from).Some?
    ensures var reply := script(if policy.simulate then from + 1 else from);
      reply.AnswerReply? && reply.line.Some? && Text.Typed(reply.line.value, if burn then "BURN" else "yes")
  {
    hide Answered, Text.Typed;
    var asked := if policy.simulate then from + 1 else from;
    AnsweredIff(script(asked).line, burn);
  }

  // ---------------------------------------------------------------- the refresh

  function RequoteSpec(ids: Programs, shown: Preview, all: Option<SpendAll>, script: Script, from: nat): Option<seq<Event>> {
    if script(from) != FeeReply(shown.fee) then None
    else
      var (events, rent) :- RentSpec(ids, shown.instructions, script, from + 1);
      if rent != shown.rent then None
      else if all.Some? && script(from + 1 + Count(events)) != BalanceReply(all.value.balance) then None
      else Some(events)
  }

  lemma RequoteHears(identity: Identity, shown: Preview, all: Option<SpendAll>, m: Message, rent: seq<Event>, script: Script, from: nat)
    ensures var events := RequoteEvents(identity, shown, all, m, rent);
      && Count(events) == 1 + Count(rent) + (if all.Some? then 1 else 0)
      && (Hears(script, from, events) <==>
            && script(from) == FeeReply(shown.fee) && Hears(script, from + 1, rent)
            && (all.Some? ==> script(from + 1 + Count(rent)) == BalanceReply(all.value.balance)))
  {
    hide Hears, Count;
    var first := Exchange(FeeFor(m), FeeReply(shown.fee));
    var last := Exchange(BalanceOf(identity.address), BalanceReply(if all.Some? then all.value.balance else 0));
    HearsOne(script, from, first);
    HearsIf(script, from + 1 + Count(rent), all.Some?, last);
    HearsAppend(script, from, [first], rent);
    HearsAppend(script, from, [first] + rent, if all.Some? then [last] else []);
  }

  lemma RequoteIff(ids: Programs, identity: Identity, shown: Preview, all: Option<SpendAll>, m: Message, script: Script, from: nat, rent: seq<Event>)
    ensures RequoteSpec(ids, shown, all, script, from) == Some(rent) <==>
      RentTrace(ids, shown.instructions, rent, shown.rent) && Hears(script, from, RequoteEvents(identity, shown, all, m, rent))
  {
    hide Hears, Count, RequoteEvents, RentSpec, RentTrace;
    RequoteHears(identity, shown, all, m, rent, script, from);
    var quote := RentSpec(ids, shown.instructions, script, from + 1);
    assert quote.Some? ==> quote == Some((quote.value.0, quote.value.1));
    RentIff(ids, shown.instructions, script, from + 1, rent, shown.rent);
  }

  datatype Rechecked = Rechecked(context: Context, rent: seq<Event>, simulation: Simulation)

  function RecheckSpec(ids: Programs, compiles: Message -> bool, identity: Identity, shown: Preview, all: Option<SpendAll>,
                       script: Script, from: nat): Option<Rechecked>
  {
    if !script(from).HashReply? then None
    else
      var context := script(from).context;
      var m := Message(identity.address, shown.instructions, context.hash);
      if !compiles(m) then None
      else
        var rent :- RequoteSpec(ids, shown, all, script, from + 1);
        var at := from + 1 + Count(RequoteEvents(identity, shown, all, m, rent));
        if !script(at).SimulationReply? || script(at).simulation.failed then None
        else if all.Some? && !Drains(script(at).simulation) then None
        else Some(Rechecked(context, rent, script(at).simulation))
  }

  lemma RecheckHears(identity: Identity, shown: Preview, all: Option<SpendAll>, m: Message, x: Rechecked, script: Script, from: nat)
    ensures var events := RecheckEvents(identity, shown, all, m, x.context, x.rent, x.simulation);
      var quotes := RequoteEvents(identity, shown, all, m, x.rent);
      && Count(events) == 2 + Count(quotes)
      && (Hears(script, from, events) <==>
            && script(from) == HashReply(x.context) && Hears(script, from + 1, quotes)
            && script(from + 1 + Count(quotes)) == SimulationReply(x.simulation))
  {
    hide Hears, Count, RequoteEvents;
    var first, last := Exchange(LatestBlockhash, HashReply(x.context)), Exchange(Simulate(m, x.context.slot), SimulationReply(x.simulation));
    var quotes := RequoteEvents(identity, shown, all, m, x.rent);
    HearsOne(script, from, first);
    HearsOne(script, from + 1 + Count(quotes), last);
    HearsAppend(script, from, [first], quotes);
    HearsAppend(script, from, [first] + quotes, [last]);
  }

  lemma RecheckIff(ids: Programs, compiles: Message -> bool, identity: Identity, shown: Preview, all: Option<SpendAll>,
                   script: Script, from: nat, x: Rechecked)
    ensures var m := Message(identity.address, shown.instructions, x.context.hash);
      RecheckSpec(ids, compiles, identity, shown, all, script, from) == Some(x) <==>
        && compiles(m) && RentTrace(ids, shown.instructions, x.rent, shown.rent)
        && !x.simulation.failed && (all.Some? ==> Drains(x.simulation))
        && Hears(script, from, RecheckEvents(identity, shown, all, m, x.context, x.rent, x.simulation))
  {
    hide Hears, Count, RecheckEvents, RequoteEvents, RequoteSpec, RentTrace;
    var m := Message(identity.address, shown.instructions, x.context.hash);
    RecheckHears(identity, shown, all, m, x, script, from);
    RequoteIff(ids, identity, shown, all, m, script, from + 1, x.rent);
  }

  function RefreshSpec(ids: Programs, compiles: Message -> bool, identity: Identity, shown: Preview, all: Option<SpendAll>,
                       script: Script, from: nat): Option<Refresh>
  {
    var x :- RecheckSpec(ids, compiles, identity, shown, all, script, from);
    var m := Message(identity.address, shown.instructions, x.context.hash);
    var at := from + Count(RecheckEvents(identity, shown, all, m, x.context, x.rent, x.simulation));
    if script(at) != SignerReply(identity.address) || RequiredSigners(m) != {identity.address} then None
    else if !script(at + 1).HeightReply? || script(at + 1).height + 5 >= x.context.lastValid then None
    else Some(Refresh(x.context, x.rent, x.simulation, script(at + 1).height))
  }

  lemma RefreshHears(identity: Identity, shown: Preview, all: Option<SpendAll>, m: Message, f: Refresh, script: Script, from: nat)
    ensures var events := RefreshEvents(identity, shown, all, m, f);
      var checks := RecheckEvents(identity, shown, all, m, f.context, f.rent, f.simulation);
      && Count(events) == Count(checks) + 2
      && (Hears(script, from, events) <==>
            && Hears(script, from, checks) && script(from + Count(checks)) == SignerReply(identity.address)
            && script(from + Count(checks) + 1) == HeightReply(f.height))
  {
    hide Hears, Count, RecheckEvents;
    var checks := RecheckEvents(identity, shown, all, m, f.context, f.rent, f.simulation);
    var first, last := Exchange(LoadSigner(identity.name), SignerReply(identity.address)), Exchange(BlockHeight(f.context), HeightReply(f.height));
    HearsSnoc(script, from, checks, first);
    HearsSnoc(script, from, checks + [first], last);
    assert checks + [first] + [last] == checks + [first, last];
  }

  lemma RefreshIff(ids: Programs, compiles: Message -> bool, identity: Identity, shown: Preview, all: Option<SpendAll>,
                   script: Script, from: nat, f: Refresh)
    ensures var m := Message(identity.address, shown.instructions, f.context.hash);
      RefreshSpec(ids, compiles, identity, shown, all, script, from) == Some(f) <==>
        RefreshOk(ids, compiles, identity, shown, all, m, f) && Hears(script, from, RefreshEvents(identity, shown, all, m, f))
  {
    hide Hears, Count, RefreshEvents, RecheckEvents, RecheckSpec, RentTrace, RequiredSigners;
    var m := Message(identity.address, shown.instructions, f.context.hash);
    RefreshHears(identity, shown, all, m, f, script, from);
    RecheckIff(ids, compiles, identity, shown, all, script, from, Rechecked(f.context, f.rent, f.simulation));
  }

  // ---------------------------------------------------------------- the whole

  datatype Approval = Approval(preparation: Preparation, shown: Preview, decision: Decision)

  function ApprovalSpec(ids: Programs, compiles: Message -> bool, policy: SecuritySettings, identity: Identity,
                        original: seq<Instruction>, burn: bool, all: Option<SpendAll>, script: Script, from: nat): Option<Approval>
  {
    var tuned :- TuneSpec(ids, compiles, policy, identity.address, original, script, from);
    var at := from + Count(TuneEvents(ids, identity.address, original, tuned.context, tuned.probe, tuned.limit));
    var (shown, rent) :- PriceSpec(ids, compiles, identity.address, tuned.context, original, tuned.limit, all, script, at);
    var decision :- DecideSpec(policy, burn, all, script,
                               at + Count(PriceEvents(ids, identity.address, original, tuned.context, rent, shown)));
    Some(Approval(Preparation(tuned.context, tuned.probe, rent), shown, decision))
  }

  lemma ApprovalHears(ids: Programs, policy: SecuritySettings, identity: Identity, original: seq<Instruction>, burn: bool,
                      x: Approval, script: Script, from: nat)
    ensures var (p, shown) := (x.preparation, x.shown);
      var preview := Message(identity.address, shown.instructions, p.context.hash);
      var tune := TuneEvents(ids, identity.address, original, p.context, p.probe, shown.limit);
      var price := PriceEvents(ids, identity.address, original, p.context, p.rent, shown);
      var decide := DecisionEvents(policy, preview, burn, x.decision);
      var events := ApprovalEvents(ids, policy, identity, original, burn, p, shown, x.decision);
      && Count(events) == Count(tune) + Count(price) + Count(decide)
      && (Hears(script, from, events) <==>
            && Hears(script, from, tune) && Hears(script, from + Count(tune), price)
            && Hears(script, from + Count(tune) + Count(price), decide))
  {
    hide Hears, Count, TuneEvents, PriceEvents, DecisionEvents;
    var (p, shown) := (x.preparation, x.shown);
    var preview := Message(identity.address, shown.instructions, p.context.hash);
    var tune := TuneEvents(ids, identity.address, original, p.context, p.probe, shown.limit);
    var price := PriceEvents(ids, identity.address, original, p.context, p.rent, shown);
    var decide := DecisionEvents(policy, preview, burn, x.decision);
    HearsAppend(script, from, tune, price);
    HearsSnoc(script, from, tune + price, Shown(shown));
    HearsAppend(script, from, tune + price + [Shown(shown)], decide);
  }

  lemma ApprovalIff(ids: Programs, compiles: Message -> bool, policy: SecuritySettings, identity: Identity,
                    original: seq<Instruction>, burn: bool, all: Option<SpendAll>, script: Script, from: nat, x: Approval)
    ensures ApprovalSpec(ids, compiles, policy, identity, original, burn, all, script, from) == Some(x) <==>
      && ApprovalOk(ids, policy, identity, original, burn, all, x.preparation, x.shown, x.decision)
      && ApprovalCompiles(ids, compiles, identity.address, original, x.preparation, x.shown)
      && Hears(script, from, ApprovalEvents(ids, policy, identity, original, burn, x.preparation, x.shown, x.decision))
  {
    hide Hears, Count, TuneEvents, PriceEvents, DecisionEvents, ApprovalEvents, TuneSpec, PriceSpec, DecideSpec,
      PriceOk, DecisionOk, RentTrace, Limited;
    var (p, shown) := (x.preparation, x.shown);
    var source := identity.address;
    ApprovalHears(ids, policy, identity, original, burn, x, script, from);
    TuneIff(ids, compiles, policy, source, original, script, from, Tuned(p.context, p.probe, shown.limit));
    var at := from + Count(TuneEvents(ids, source, original, p.context, p.probe, shown.limit));
    var tuned := TuneSpec(ids, compiles, policy, source, original, script, from);
    if tuned.Some? {
      TuneIff(ids, compiles, policy, source, original, script, from, tuned.value);
      var start := from + Count(TuneEvents(ids, source, original, tuned.value.context, tuned.value.probe, tuned.value.limit));
      var priced := PriceSpec(ids, compiles, source, tuned.value.context, original, tuned.value.limit, all, script, start);
      assert priced.Some? ==> priced == Some((priced.value.0, priced.value.1));
      PriceIff(ids, compiles, source, tuned.value.context, original, tuned.value.limit, all, script, start, shown, p.rent);
    }
    DecideIff(policy, Message(source, shown.instructions, p.context.hash), burn, all, script,
              at + Count(PriceEvents(ids, source, original, p.context, p.rent, shown)), x.decision);
  }

  /** What the program makes of the coming replies: the trace it completes, or None if it stops without a
      signature. */
  function SendSpec(ids: Programs, compiles: Message -> bool, policy: SecuritySettings, identity: Identity,
                    original: seq<Instruction>, burn: bool, all: Option<SpendAll>, script: Script, from: nat): Option<Trace>
  {
    var x :- ApprovalSpec(ids, compiles, policy, identity, original, burn, all, script, from);
    var at := from + Count(ApprovalEvents(ids, policy, identity, original, burn, x.preparation, x.shown, x.decision));
    var f :- RefreshSpec(ids, compiles, identity, x.shown, all, script, at);
    var m := Message(identity.address, x.shown.instructions, f.context.hash);
    Some(Trace(x.preparation, x.shown, x.decision, f, m, script(at + Count(RefreshEvents(identity, x.shown, all, m, f)))))
  }

  lemma TraceHears(ids: Programs, policy: SecuritySettings, identity: Identity, original: seq<Instruction>,
                   burn: bool, all: Option<SpendAll>, t: Trace, script: Script, from: nat)
    ensures var approval := ApprovalEvents(ids, policy, identity, original, burn, t.preparation, t.shown, t.decision);
      var refresh := RefreshEvents(identity, t.shown, all, t.message, t.refresh);
      var events := TraceEvents(ids, policy, identity, original, burn, all, t);
      && Count(events) == Count(approval) + Count(refresh) + 1
      && (Hears(script, from, events) <==>
            && Hears(script, from, approval) && Hears(script, from + Count(approval), refresh)
            && script(from + Count(approval) + Count(refresh)) == t.outcome)
  {
    hide Hears, Count, ApprovalEvents, RefreshEvents;
    var approval := ApprovalEvents(ids, policy, identity, original, burn, t.preparation, t.shown, t.decision);
    var refresh := RefreshEvents(identity, t.shown, all, t.message, t.refresh);
    var signed, submit := Signed(t.message, identity.address), Exchange(Submit(t.message), t.outcome);
    HearsAppend(script, from, approval, refresh);
    HearsSnoc(script, from, approval + refresh, signed);
    HearsSnoc(script, from, approval + refresh + [signed], submit);
  }

  /** The program signs exactly when the coming replies make a complete trace, and then it is that one:
      there is never more than one, and no trace that the replies make is missed. */
  lemma SendIff(ids: Programs, compiles: Message -> bool, policy: SecuritySettings, identity: Identity,
                original: seq<Instruction>, burn: bool, all: Option<SpendAll>, script: Script, from: nat, t: Trace)
    ensures SendSpec(ids, compiles, policy, identity, original, burn, all, script, from) == Some(t) <==>
      && TraceOk(ids, compiles, policy, identity, original, burn, all, t)
      && Hears(script, from, TraceEvents(ids, policy, identity, original, burn, all, t))
  {
    hide Hears, Count, ApprovalEvents, RefreshEvents, TraceEvents, ApprovalSpec, RefreshSpec, ApprovalOk, ApprovalCompiles,
      RentTrace, RequiredSigners;
    TraceHears(ids, policy, identity, original, burn, all, t, script, from);
    var approval := ApprovalEvents(ids, policy, identity, original, burn, t.preparation, t.shown, t.decision);
    ApprovalIff(ids, compiles, policy, identity, original, burn, all, script, from, Approval(t.preparation, t.shown, t.decision));
    RefreshIff(ids, compiles, identity, t.shown, all, script, from + Count(approval), t.refresh);
  }
}
