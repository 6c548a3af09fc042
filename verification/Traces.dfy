/** What it takes to sign: requests, replies, and the trace of one completed transaction, from preview and
    approval through refresh to the signature. */
module Traces {
  import opened Prelude
  import opened Configuration
  import opened Instructions
  import Text

  // A v0 message is a function of its payer, its instructions and the blockhash.
  datatype Message = Message(payer: Key32, instructions: seq<Instruction>, hash: Key32)

  datatype Context = Context(hash: Key32, lastValid: u64, slot: u64)

  datatype Simulation = Simulation(failed: bool, units: Option<u64>, remaining: Option<u64>)

  // Stands where no simulation was asked for
  const NO_SIMULATION: Simulation := Simulation(true, None, None)

  datatype Request =
    | LatestBlockhash
    | FeeFor(message: Message)
    | AccountInfo(account: Key32)
    | RentExemption
    | BalanceOf(owner: Key32)
    | Simulate(message: Message, minSlot: u64)
    | BlockHeight(context: Context)
    | Ask
    | Unlock
    | LoadSigner(name: string)
    | Submit(message: Message)

  datatype Reply =
    | HashReply(context: Context)
    | FeeReply(fee: u64)
    | InfoReply(found: bool)
    | RentReply(rent: u64)
    | BalanceReply(balance: u64)
    | SimulationReply(simulation: Simulation)
    | HeightReply(height: u64)
    | AnswerReply(line: Option<string>)
    | Unlocked
    | SignerReply(address: Key32)
    | Landed
    | Bad

  // What ALL will send: `amount` is what a balance leaves after `fee`.
  datatype Quote = Quote(balance: u64, fee: u64, amount: u64)

  // What the user is shown before approving
  datatype Preview = Preview(instructions: seq<Instruction>, fee: u64, rent: u64, quote: Option<Quote>, limit: Option<u32>)

  datatype Event = Exchange(request: Request, reply: Reply) | Shown(preview: Preview) | Signed(message: Message, key: Key32)

  datatype SpendAll = SpendAll(balance: u64, target: Key32)

  datatype Identity = Identity(name: string, address: Key32)

  datatype SendResult = Confirmed | Unknown | Failed

  // ---------------------------------------------------------------- arithmetic

  function SpendAllLamports(balance: u64, fee: u64): Option<u64> {
    if fee < balance then Some(balance - fee) else None
  }

  function TunedLimit(used: u64, margin: byte): Option<u32> {
    if used == 0 || used > MAX_COMPUTE_UNITS then None
    else
      var share := if used * margin < U64_LIMIT then used * margin else U64_LIMIT - 1;
      var extra := Max((share + 99) / 100, 1000);
      Some(if used + extra < MAX_COMPUTE_UNITS then used + extra else MAX_COMPUTE_UNITS)
  }

  function Max(a: int, b: int): int { if a < b then b else a }

  /** The tuned limit exists exactly for a plausible usage; it covers that usage with the margin and
      with at least 1000 units, unless the network's maximum comes first. */
  lemma TunedLimitCovers(used: u64, margin: byte)
    ensures TunedLimit(used, margin).Some? <==> 1 <= used <= MAX_COMPUTE_UNITS
    ensures TunedLimit(used, margin).Some? ==>
      var limit := TunedLimit(used, margin).value;
      && used <= limit <= MAX_COMPUTE_UNITS
      && (limit < MAX_COMPUTE_UNITS ==> limit >= used + 1000 && 100 * limit >= used * (100 + margin))
      && (limit < MAX_COMPUTE_UNITS && limit > used + 1000 ==> 100 * limit < used * (100 + margin) + 100)
  {
    if 1 <= used <= MAX_COMPUTE_UNITS {
      MarginIsSmall(used, margin);
      assert used * (100 + margin) == 100 * used + used * margin;
    }
  }

  lemma MarginIsSmall(used: u64, margin: byte)
    requires used <= MAX_COMPUTE_UNITS
    ensures 0 <= used * margin <= 255 * MAX_COMPUTE_UNITS
  {
    assert used * margin <= used * 255;
  }

  // ---------------------------------------------------------------- rent

  /** `events` is a complete rent quote for `ixs`: for every associated-token instruction the account
      was looked up, and each one found missing was priced; the prices add up to `rent`. */
  predicate RentTrace(ids: Programs, ixs: seq<Instruction>, events: seq<Event>, rent: int) {
    if ixs == [] then events == [] && rent == 0
    else
      var ix, rest := ixs[|ixs| - 1], ixs[..|ixs| - 1];
      if ix.program != ids.associatedToken then RentTrace(ids, rest, events, rent)
      else
        && |ix.accounts| > 1
        && var ask := AccountInfo(ix.accounts[1].pubkey);
        ((events != [] && events[|events| - 1] == Exchange(ask, InfoReply(true))
          && RentTrace(ids, rest, events[..|events| - 1], rent))
         || (|events| >= 2 && events[|events| - 2] == Exchange(ask, InfoReply(false))
             && events[|events| - 1].Exchange? && events[|events| - 1].request == RentExemption
             && events[|events| - 1].reply.RentReply?
             && RentTrace(ids, rest, events[..|events| - 2], rent - events[|events| - 1].reply.rent)))
  }

  lemma RentTracePlain(ids: Programs, ixs: seq<Instruction>, ix: Instruction, events: seq<Event>, rent: int)
    requires RentTrace(ids, ixs, events, rent) && ix.program != ids.associatedToken
    ensures RentTrace(ids, ixs + [ix], events, rent)
  {
    assert (ixs + [ix])[..|ixs|] == ixs;
  }

  lemma RentTraceFound(ids: Programs, ixs: seq<Instruction>, ix: Instruction, events: seq<Event>, rent: int)
    requires RentTrace(ids, ixs, events, rent) && ix.program == ids.associatedToken && |ix.accounts| > 1
    ensures RentTrace(ids, ixs + [ix], events + [Exchange(AccountInfo(ix.accounts[1].pubkey), InfoReply(true))], rent)
  {
    var found := Exchange(AccountInfo(ix.accounts[1].pubkey), InfoReply(true));
    assert (ixs + [ix])[..|ixs|] == ixs;
    assert (events + [found])[..|events|] == events;
  }

  lemma RentTraceMissing(ids: Programs, ixs: seq<Instruction>, ix: Instruction, events: seq<Event>, rent: int, price: u64)
    requires RentTrace(ids, ixs, events, rent) && ix.program == ids.associatedToken && |ix.accounts| > 1
    ensures var missing := Exchange(AccountInfo(ix.accounts[1].pubkey), InfoReply(false));
      RentTrace(ids, ixs + [ix], events + [missing] + [Exchange(RentExemption, RentReply(price))], rent + price)
  {
    var missing, priced := Exchange(AccountInfo(ix.accounts[1].pubkey), InfoReply(false)), Exchange(RentExemption, RentReply(price));
    assert (ixs + [ix])[..|ixs|] == ixs;
    assert (events + [missing] + [priced])[..|events|] == events;
  }

  // What the rent replies in a log add up to
  function RentIn(events: seq<Event>): nat {
    if events == [] then 0
    else
      var last := events[|events| - 1];
      RentIn(events[..|events| - 1]) + (if last.Exchange? && last.reply.RentReply? then last.reply.rent else 0)
  }

  // The event at `k` looks an account up, or prices the missing one just looked up.
  predicate LooksUpOrPrices(events: seq<Event>, k: nat)
    requires k < |events|
  {
    && events[k].Exchange?
    && ((events[k].request.AccountInfo? && events[k].reply == InfoReply(true))
        || (events[k].request.AccountInfo? && events[k].reply == InfoReply(false)
            && k + 1 < |events| && events[k + 1].Exchange? && events[k + 1].request == RentExemption)
        || (events[k].request == RentExemption && events[k].reply.RentReply?
            && k > 0 && events[k - 1].Exchange? && events[k - 1].reply == InfoReply(false)))
  }

  // The accounts looked up, in order
  function LookedUp(events: seq<Event>): seq<Key32> {
    if events == [] then []
    else
      var last := events[|events| - 1];
      LookedUp(events[..|events| - 1]) + (if last.Exchange? && last.request.AccountInfo? then [last.request.account] else [])
  }

  // The associated accounts that instructions may create, in order
  function Destinations(ids: Programs, ixs: seq<Instruction>): seq<Key32> {
    if ixs == [] then []
    else
      var ix := ixs[|ixs| - 1];
      Destinations(ids, ixs[..|ixs| - 1])
      + (if ix.program == ids.associatedToken && |ix.accounts| > 1 then [ix.accounts[1].pubkey] else [])
  }

  /** What a rent quote is worth: every account that the instructions may create was looked up, in order and
      no other; each was there or was priced right after; and the quote is the sum of the prices. */
  lemma {:induction false} RentAddsUp(ids: Programs, ixs: seq<Instruction>, events: seq<Event>, rent: int)
    requires RentTrace(ids, ixs, events, rent)
    ensures rent == RentIn(events) && LookedUp(events) == Destinations(ids, ixs)
    ensures forall k :: 0 <= k < |events| ==> LooksUpOrPrices(events, k)
    ensures forall i :: 0 <= i < |ixs| && ixs[i].program == ids.associatedToken ==> |ixs[i].accounts| > 1
  {
    hide RentTrace, LooksUpOrPrices, RentIn, LookedUp, Destinations;
    if ixs == [] {
      RentTraceOfNone(ids, events, rent);
      NoLookups(ids);
    } else {
      var ix, rest, n := ixs[|ixs| - 1], ixs[..|ixs| - 1], |events|;
      assert ixs == rest + [ix];
      DestinationsSnoc(ids, rest, ix);
      RentTraceCases(ids, rest, ix, events, rent);
      if ix.program != ids.associatedToken {
        RentAddsUp(ids, rest, events, rent);
      } else if n > 0 && events[n - 1] == Exchange(AccountInfo(ix.accounts[1].pubkey), InfoReply(true))
                && RentTrace(ids, rest, events[..n - 1], rent) {
        RentAddsUp(ids, rest, events[..n - 1], rent);
        LookupsSnoc(events[..n - 1], events[n - 1]);
        OneMoreEvent(events[..n - 1], [events[n - 1]]);
        assert events[..n - 1] + [events[n - 1]] == events;
      } else {
        var front := events[..n - 2];
        RentAddsUp(ids, rest, front, rent - events[n - 1].reply.rent);
        LookupsSnoc(front, events[n - 2]);
        LookupsSnoc(front + [events[n - 2]], events[n - 1]);
        OneMoreEvent(front, [events[n - 2], events[n - 1]]);
        assert front + [events[n - 2]] + [events[n - 1]] == events == front + [events[n - 2], events[n - 1]];
      }
    }
  }

  lemma RentTraceOfNone(ids: Programs, events: seq<Event>, rent: int)
    requires RentTrace(ids, [], events, rent)
    ensures events == [] && rent == 0
  {
  }

  // How the quote for the last instruction ends
  lemma RentTraceCases(ids: Programs, ixs: seq<Instruction>, ix: Instruction, events: seq<Event>, rent: int)
    requires RentTrace(ids, ixs + [ix], events, rent)
    ensures ix.program != ids.associatedToken ==> RentTrace(ids, ixs, events, rent)
    ensures var n := |events|; ix.program == ids.associatedToken ==>
      && |ix.accounts| > 1 && n > 0
      && var ask := AccountInfo(ix.accounts[1].pubkey);
      || (events[n - 1] == Exchange(ask, InfoReply(true)) && RentTrace(ids, ixs, events[..n - 1], rent))
      || (n >= 2 && events[n - 2] == Exchange(ask, InfoReply(false))
          && events[n - 1].Exchange? && events[n - 1].request == RentExemption && events[n - 1].reply.RentReply?
          && RentTrace(ids, ixs, events[..n - 2], rent - events[n - 1].reply.rent))
  {
    assert (ixs + [ix])[..|ixs|] == ixs;
  }

  lemma NoLookups(ids: Programs)
    ensures RentIn([]) == 0 && LookedUp([]) == [] && Destinations(ids, []) == []
  {
  }

  lemma LookupsSnoc(events: seq<Event>, e: Event)
    ensures RentIn(events + [e]) == RentIn(events) + (if e.Exchange? && e.reply.RentReply? then e.reply.rent else 0)
    ensures LookedUp(events + [e]) == LookedUp(events) + (if e.Exchange? && e.request.AccountInfo? then [e.request.account] else [])
  {
    assert (events + [e])[..|events|] == events;
  }

  lemma DestinationsSnoc(ids: Programs, ixs: seq<Instruction>, ix: Instruction)
    ensures Destinations(ids, ixs + [ix]) ==
      Destinations(ids, ixs) + (if ix.program == ids.associatedToken && |ix.accounts| > 1 then [ix.accounts[1].pubkey] else [])
  {
    assert (ixs + [ix])[..|ixs|] == ixs;
  }

  // A lookup that found the account, or one that did not and its price
  lemma OneMoreEvent(front: seq<Event>, more: seq<Event>)
    requires forall k :: 0 <= k < |front| ==> LooksUpOrPrices(front, k)
    requires 1 <= |more| <= 2 && more[0].Exchange? && more[0].request.AccountInfo? && more[0].reply == InfoReply(|more| == 1)
    requires |more| == 2 ==> more[1].Exchange? && more[1].request == RentExemption && more[1].reply.RentReply?
    ensures forall k :: 0 <= k < |front + more| ==> LooksUpOrPrices(front + more, k)
  {
    forall k | 0 <= k < |front| ensures LooksUpOrPrices(front + more, k) {
      assert LooksUpOrPrices(front, k);
    }
  }

  // ---------------------------------------------------------------- what a completed run looks like

  predicate Optimizes(policy: SecuritySettings) { policy.simulate && policy.optimizeCompute }

  /** The instructions the user approves: the command's own, with the transfer of ALL put in the place
      of its first one, and after the compute limit if there is one. */
  function Finished(ids: Programs, source: Key32, original: seq<Instruction>, all: Option<SpendAll>,
                    amount: u64, limit: Option<u32>): seq<Instruction>
    requires original != []
  {
    (if limit.Some? then [SetComputeUnitLimit(ids, limit.value)] else [])
    + (if all.Some? then original[0 := SystemTransfer(ids, source, all.value.target, amount)] else original)
  }

  function Limited(ids: Programs, original: seq<Instruction>, limit: Option<u32>): seq<Instruction> {
    (if limit.Some? then [SetComputeUnitLimit(ids, limit.value)] else []) + original
  }

  lemma FinishedInPlace(ids: Programs, source: Key32, original: seq<Instruction>, all: SpendAll, amount: u64, limit: Option<u32>)
    requires original != []
    ensures Limited(ids, original, limit)[(if limit.Some? then 1 else 0) := SystemTransfer(ids, source, all.target, amount)]
         == Finished(ids, source, original, Some(all), amount, limit)
  {
    hide SystemTransfer, SetComputeUnitLimit;
  }

  datatype Preparation = Preparation(context: Context, probe: Simulation, rent: seq<Event>)

  datatype Decision = Decision(simulation: Simulation, answer: Option<string>)

  datatype Refresh = Refresh(context: Context, rent: seq<Event>, simulation: Simulation, height: u64)

  function TuneEvents(ids: Programs, source: Key32, original: seq<Instruction>, context: Context, probe: Simulation, limit: Option<u32>): seq<Event> {
    [Exchange(LatestBlockhash, HashReply(context))]
    + (if limit.Some?
       then [Exchange(Simulate(Message(source, Limited(ids, original, Some(MAX_COMPUTE_UNITS)), context.hash), 0), SimulationReply(probe))]
       else [])
  }

  function QuoteEvents(ids: Programs, source: Key32, original: seq<Instruction>, context: Context, limit: Option<u32>,
                       quote: Option<Quote>): seq<Event>
  {
    if quote.Some?
    then [Exchange(FeeFor(Message(source, Limited(ids, original, limit), context.hash)), FeeReply(quote.value.fee))]
    else []
  }

  function BillEvents(m: Message, fee: u64, rent: seq<Event>): seq<Event> { [Exchange(FeeFor(m), FeeReply(fee))] + rent }

  function PriceEvents(ids: Programs, source: Key32, original: seq<Instruction>, context: Context, rent: seq<Event>,
                       shown: Preview): seq<Event>
  {
    var final := Message(source, shown.instructions, context.hash);
    QuoteEvents(ids, source, original, context, shown.limit, shown.quote)
    + BillEvents(final, shown.fee, rent)
    + (if shown.quote.Some? then [Exchange(FeeFor(final), FeeReply(shown.quote.value.fee))] else [])
  }

  predicate TuneOk(policy: SecuritySettings, original: seq<Instruction>, probe: Simulation, limit: Option<u32>) {
    && original != []
    && limit.Some? == Optimizes(policy)
    && (limit.None? ==> probe == NO_SIMULATION)
    && (limit.Some? ==> !probe.failed && probe.units.Some? && limit == TunedLimit(probe.units.value, policy.margin))
  }

  predicate QuoteOk(all: Option<SpendAll>, quote: Option<Quote>) {
    && quote.Some? == all.Some?
    && (all.Some? ==>
          && quote.value.balance == all.value.balance
          && SpendAllLamports(all.value.balance, quote.value.fee) == Some(quote.value.amount))
  }

  predicate PriceOk(ids: Programs, source: Key32, original: seq<Instruction>, all: Option<SpendAll>, rent: seq<Event>, shown: Preview)
    requires original != []
  {
    && QuoteOk(all, shown.quote)
    && shown.instructions == Finished(ids, source, original, all, Amount(shown.quote), shown.limit)
    && RentTrace(ids, shown.instructions, rent, shown.rent)
  }

  function Amount(quote: Option<Quote>): u64 { if quote.Some? then quote.value.amount else 0 }

  predicate Drains(s: Simulation) { s.remaining == Some(0) }

  function DecisionEvents(policy: SecuritySettings, preview: Message, burn: bool, d: Decision): seq<Event> {
    (if policy.simulate then [Exchange(Simulate(preview, 0), SimulationReply(d.simulation))] else [])
    + (if Asks(policy, burn) then [Exchange(Ask, AnswerReply(d.answer))] else [])
    + [Exchange(Unlock, Unlocked)]
  }

  // What has to be typed to approve
  function ApprovalWord(burn: bool): string { if burn then "BURN" else "yes" }

  predicate Asks(policy: SecuritySettings, burn: bool) { burn || policy.confirm }

  predicate DecisionOk(policy: SecuritySettings, burn: bool, all: Option<SpendAll>, d: Decision) {
    && (if policy.simulate then !d.simulation.failed && (all.Some? ==> Drains(d.simulation)) else d.simulation == NO_SIMULATION)
    && (if Asks(policy, burn) then d.answer.Some? && Text.Typed(d.answer.value, ApprovalWord(burn)) else d.answer == None)
  }

  function RequoteEvents(identity: Identity, shown: Preview, all: Option<SpendAll>, m: Message, rent: seq<Event>): seq<Event> {
    [Exchange(FeeFor(m), FeeReply(shown.fee))]
    + rent
    + (if all.Some? then [Exchange(BalanceOf(identity.address), BalanceReply(all.value.balance))] else [])
  }

  function RecheckEvents(identity: Identity, shown: Preview, all: Option<SpendAll>, m: Message,
                         context: Context, rent: seq<Event>, simulation: Simulation): seq<Event>
  {
    [Exchange(LatestBlockhash, HashReply(context))]
    + RequoteEvents(identity, shown, all, m, rent)
    + [Exchange(Simulate(m, context.slot), SimulationReply(simulation))]
  }

  function RefreshEvents(identity: Identity, shown: Preview, all: Option<SpendAll>, m: Message, f: Refresh): seq<Event> {
    RecheckEvents(identity, shown, all, m, f.context, f.rent, f.simulation)
    + [Exchange(LoadSigner(identity.name), SignerReply(identity.address)), Exchange(BlockHeight(f.context), HeightReply(f.height))]
  }

  // The accounts whose signature a message requires
  function RequiredSigners(m: Message): set<Key32> {
    {m.payer} + SignersOf(m.instructions)
  }

  function SignersOf(ixs: seq<Instruction>): set<Key32> {
    set i, j | 0 <= i < |ixs| && 0 <= j < |ixs[i].accounts| && ixs[i].accounts[j].signer :: ixs[i].accounts[j].pubkey
  }

  predicate RefreshOk(ids: Programs, compiles: Message -> bool, identity: Identity, shown: Preview,
                      all: Option<SpendAll>, m: Message, f: Refresh)
  {
    && m == Message(identity.address, shown.instructions, f.context.hash)
    && compiles(m)
    && RentTrace(ids, shown.instructions, f.rent, shown.rent)
    && !f.simulation.failed
    && (all.Some? ==> Drains(f.simulation))
    && RequiredSigners(m) == {identity.address}
    && f.height + 5 < f.context.lastValid
  }

  datatype Trace = Trace(preparation: Preparation, shown: Preview, decision: Decision, refresh: Refresh, message: Message, outcome: Reply)

  function ApprovalEvents(ids: Programs, policy: SecuritySettings, identity: Identity, original: seq<Instruction>,
                          burn: bool, p: Preparation, shown: Preview, d: Decision): seq<Event>
  {
    TuneEvents(ids, identity.address, original, p.context, p.probe, shown.limit)
    + PriceEvents(ids, identity.address, original, p.context, p.rent, shown)
    + [Shown(shown)]
    + DecisionEvents(policy, Message(identity.address, shown.instructions, p.context.hash), burn, d)
  }

  predicate ApprovalOk(ids: Programs, policy: SecuritySettings, identity: Identity, original: seq<Instruction>,
                       burn: bool, all: Option<SpendAll>, p: Preparation, shown: Preview, d: Decision)
  {
    && TuneOk(policy, original, p.probe, shown.limit)
    && PriceOk(ids, identity.address, original, all, p.rent, shown)
    && DecisionOk(policy, burn, all, d)
  }

  /** One signed transaction, from the first request to the answer about its submission. */
  function TraceEvents(ids: Programs, policy: SecuritySettings, identity: Identity, original: seq<Instruction>,
                       burn: bool, all: Option<SpendAll>, t: Trace): seq<Event>
  {
    ApprovalEvents(ids, policy, identity, original, burn, t.preparation, t.shown, t.decision)
    + RefreshEvents(identity, t.shown, all, t.message, t.refresh)
    + [Signed(t.message, identity.address)]
    + [Exchange(Submit(t.message), t.outcome)]
  }

  // The messages that are compiled on the way; `RefreshOk` has the one that is signed.
  predicate ApprovalCompiles(ids: Programs, compiles: Message -> bool, source: Key32, original: seq<Instruction>,
                             p: Preparation, shown: Preview)
  {
    && (shown.limit.Some? ==> compiles(Message(source, Limited(ids, original, Some(MAX_COMPUTE_UNITS)), p.context.hash)))
    && (shown.quote.Some? ==> compiles(Message(source, Limited(ids, original, shown.limit), p.context.hash)))
    && compiles(Message(source, shown.instructions, p.context.hash))
  }

  predicate TraceOk(ids: Programs, compiles: Message -> bool, policy: SecuritySettings, identity: Identity,
                    original: seq<Instruction>, burn: bool, all: Option<SpendAll>, t: Trace)
  {
    && ApprovalOk(ids, policy, identity, original, burn, all, t.preparation, t.shown, t.decision)
    && ApprovalCompiles(ids, compiles, identity.address, original, t.preparation, t.shown)
    && RefreshOk(ids, compiles, identity, t.shown, all, t.message, t.refresh)
  }

  lemma OnePayer(m: Message)
    ensures |RequiredSigners(m)| == 1 <==> RequiredSigners(m) == {m.payer}
  {
    if |RequiredSigners(m)| == 1 {
      var other :| other in RequiredSigners(m);
      assert |RequiredSigners(m) - {m.payer}| == 0;
    }
  }

  /** A message needs only its payer's signature exactly when its instructions name no other signer. */
  lemma SignersIff(m: Message)
    ensures RequiredSigners(m) == {m.payer} <==>
      forall i, j | 0 <= i < |m.instructions| && 0 <= j < |m.instructions[i].accounts| ::
        m.instructions[i].accounts[j].signer ==> m.instructions[i].accounts[j].pubkey == m.payer
  {
    forall i, j | 0 <= i < |m.instructions| && 0 <= j < |m.instructions[i].accounts| && m.instructions[i].accounts[j].signer
      ensures m.instructions[i].accounts[j].pubkey in RequiredSigners(m)
    {
    }
  }
}
