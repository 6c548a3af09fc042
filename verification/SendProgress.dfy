/** The signing protocol is not safe by refusing: replies that agree with each other, and the right word where
    one is asked for, always lead to a signature. */
module SendProgress {
  import opened Prelude
  import opened Configuration
  import opened Instructions
  import opened Traces
  import opened Heard
  import Text

  // The replies in a log, in order
  function RepliesIn(events: seq<Event>): seq<Reply> {
    if events == [] then []
    else
      var last := events[|events| - 1];
      RepliesIn(events[..|events| - 1]) + (if last.Exchange? then [last.reply] else [])
  }

  lemma {:induction false} RepliesAppend(a: seq<Event>, b: seq<Event>)
    ensures RepliesIn(a + b) == RepliesIn(a) + RepliesIn(b)
  {
    if b == [] {
      assert a + b == a;
    } else {
      assert (a + b)[..|a + b| - 1] == a + b[..|b| - 1];
      RepliesAppend(a, b[..|b| - 1]);
    }
  }

  lemma RepliesOfFew(a: Event, b: Event)
    ensures RepliesIn([]) == [] && RepliesIn([a]) == if a.Exchange? then [a.reply] else []
    ensures RepliesIn([a, b]) == RepliesIn([a]) + RepliesIn([b])
  {
    assert [a][..0] == [] && [b][..0] == [] && [a, b][..1] == [a];
  }

  lemma {:induction false} HearsReplies(script: Script, events: seq<Event>)
    requires forall n: nat :: n < |RepliesIn(events)| ==> script(n) == RepliesIn(events)[n]
    ensures Hears(script, 0, events) && Count(events) == |RepliesIn(events)|
  {
    if events != [] {
      var front := events[..|events| - 1];
      forall n: nat | n < |RepliesIn(front)| ensures script(n) == RepliesIn(front)[n] {
        assert RepliesIn(front)[n] == RepliesIn(events)[n];
      }
      HearsReplies(script, front);
    }
  }

  lemma {:induction false} NoRentOwed(ids: Programs, ixs: seq<Instruction>)
    requires forall i :: 0 <= i < |ixs| ==> ixs[i].program != ids.associatedToken
    ensures RentTrace(ids, ixs, [], 0)
  {
    if ixs != [] { NoRentOwed(ids, ixs[..|ixs| - 1]); }
  }

  /** What agreeing replies say: the blockhashes before and after the approval, one fee throughout, the units a
      passing simulation uses, the block height, and the line the user types. */
  datatype Replies = Replies(first: Context, second: Context, fee: u64, units: u64, height: u64, line: string) {
    function Passing(): Simulation { Simulation(false, Some(units), Some(0)) }
  }

  // Those replies in the order in which the program asks
  function InOrder(policy: SecuritySettings, identity: Identity, burn: bool, all: Option<SpendAll>, q: Replies): seq<Reply> {
    ([HashReply(q.first)] + (if policy.simulate && policy.optimizeCompute then [SimulationReply(q.Passing())] else []))
    + ((if all.Some? then [FeeReply(q.fee)] else []) + [FeeReply(q.fee)] + (if all.Some? then [FeeReply(q.fee)] else []))
    + ((if policy.simulate then [SimulationReply(q.Passing())] else [])
       + (if burn || policy.confirm then [AnswerReply(Some(q.line))] else []) + [Unlocked])
    + ([HashReply(q.second), FeeReply(q.fee)] + (if all.Some? then [BalanceReply(all.value.balance)] else [])
       + [SimulationReply(q.Passing()), SignerReply(identity.address), HeightReply(q.height)])
    + [Landed]
  }

  function Replay(replies: seq<Reply>): Script { (n: nat) => if n < |replies| then replies[n] else Bad }

  /** The instructions create no account and name no signer but the wallet, the units are plausible, ALL leaves
      something after the fee, the height is more than 5 before expiry, and the right word is typed. */
  predicate Agreeable(ids: Programs, policy: SecuritySettings, identity: Identity, original: seq<Instruction>,
                      burn: bool, all: Option<SpendAll>, q: Replies)
  {
    && original != []
    && ids.associatedToken !in {ids.system, ids.computeBudget}
    && (forall i :: 0 <= i < |original| ==> original[i].program != ids.associatedToken)
    && (forall i, j | 0 <= i < |original| && 0 <= j < |original[i].accounts| ::
          original[i].accounts[j].signer ==> original[i].accounts[j].pubkey == identity.address)
    && 1 <= q.units <= 1_400_000
    && (all.Some? ==> q.fee < all.value.balance)
    && q.height + 5 < q.second.lastValid
    && (burn || policy.confirm ==> Text.Typed(q.line, if burn then "BURN" else "yes"))
  }

  function TraceOf(ids: Programs, policy: SecuritySettings, identity: Identity, original: seq<Instruction>,
                   burn: bool, all: Option<SpendAll>, q: Replies): Trace
    requires Agreeable(ids, policy, identity, original, burn, all, q)
  {
    var limit := if Optimizes(policy) then TunedLimit(q.units, policy.margin) else None;
    var quote := if all.Some? then Some(Quote(all.value.balance, q.fee, all.value.balance - q.fee)) else None;
    var instructions := Finished(ids, identity.address, original, all, Amount(quote), limit);
    Trace(Preparation(q.first, if Optimizes(policy) then q.Passing() else NO_SIMULATION, []),
          Preview(instructions, q.fee, 0, quote, limit),
          Decision(if policy.simulate then q.Passing() else NO_SIMULATION, if Asks(policy, burn) then Some(q.line) else None),
          Refresh(q.second, [], q.Passing(), q.height),
          Message(identity.address, instructions, q.second.hash), Landed)
  }

  // The instructions that are signed need no rent and no other signer.
  lemma FinishedIsPlain(ids: Programs, policy: SecuritySettings, identity: Identity, original: seq<Instruction>,
                        burn: bool, all: Option<SpendAll>, q: Replies)
    requires Agreeable(ids, policy, identity, original, burn, all, q)
    ensures var m := TraceOf(ids, policy, identity, original, burn, all, q).message;
      RentTrace(ids, m.instructions, [], 0) && RequiredSigners(m) == {identity.address}
  {
    hide TunedLimit, LE, RentTrace, RequiredSigners, Text.Typed;
    var m := TraceOf(ids, policy, identity, original, burn, all, q).message;
    NoRentOwed(ids, m.instructions);
    SignersIff(m);
  }

  lemma TraceOfIsOk(ids: Programs, compiles: Message -> bool, policy: SecuritySettings, identity: Identity,
                    original: seq<Instruction>, burn: bool, all: Option<SpendAll>, q: Replies)
    requires Agreeable(ids, policy, identity, original, burn, all, q) && forall m: Message :: compiles(m)
    ensures TraceOk(ids, compiles, policy, identity, original, burn, all, TraceOf(ids, policy, identity, original, burn, all, q))
  {
    hide TunedLimit, RentTrace, RequiredSigners, Text.Typed, Limited, Finished;
    FinishedIsPlain(ids, policy, identity, original, burn, all, q);
    TunedLimitCovers(q.units, policy.margin);
  }

  lemma TuneReplies(ids: Programs, source: Key32, original: seq<Instruction>, x: Tuned)
    ensures RepliesIn(TuneEvents(ids, source, original, x.context, x.probe, x.limit))
         == [HashReply(x.context)] + (if x.limit.Some? then [SimulationReply(x.probe)] else [])
  {
    hide RepliesIn, Limited;
    var hash, probe := Exchange(LatestBlockhash, HashReply(x.context)),
      Exchange(Simulate(Message(source, Limited(ids, original, Some(MAX_COMPUTE_UNITS)), x.context.hash), 0), SimulationReply(x.probe));
    RepliesOfFew(hash, probe);
    RepliesOfFew(probe, hash);
    RepliesAppend([hash], if x.limit.Some? then [probe] else []);
  }

  lemma PriceReplies(ids: Programs, source: Key32, original: seq<Instruction>, context: Context, shown: Preview)
    ensures RepliesIn(PriceEvents(ids, source, original, context, [], shown))
         == (if shown.quote.Some? then [FeeReply(shown.quote.value.fee)] else []) + [FeeReply(shown.fee)]
            + (if shown.quote.Some? then [FeeReply(shown.quote.value.fee)] else [])
  {
    hide RepliesIn, Limited;
    var final := Message(source, shown.instructions, context.hash);
    var bill := Exchange(FeeFor(final), FeeReply(shown.fee));
    RepliesOfFew(bill, bill);
    assert BillEvents(final, shown.fee, []) == [bill];
    if shown.quote.Some? {
      var quote := Exchange(FeeFor(Message(source, Limited(ids, original, shown.limit), context.hash)), FeeReply(shown.quote.value.fee));
      var again := Exchange(FeeFor(final), FeeReply(shown.quote.value.fee));
      RepliesOfFew(quote, bill);
      RepliesOfFew(again, bill);
      RepliesAppend([quote], [bill]);
      RepliesAppend([quote] + [bill], [again]);
    } else {
      assert PriceEvents(ids, source, original, context, [], shown) == [bill];
    }
  }

  lemma DecisionReplies(policy: SecuritySettings, preview: Message, burn: bool, d: Decision)
    ensures RepliesIn(DecisionEvents(policy, preview, burn, d))
         == (if policy.simulate then [SimulationReply(d.simulation)] else [])
            + (if burn || policy.confirm then [AnswerReply(d.answer)] else []) + [Unlocked]
  {
    hide RepliesIn;
    var first, second, third :=
      Exchange(Simulate(preview, 0), SimulationReply(d.simulation)), Exchange(Ask, AnswerReply(d.answer)), Exchange(Unlock, Unlocked);
    var a, b := if policy.simulate then [first] else [], if Asks(policy, burn) then [second] else [];
    RepliesOfFew(first, second);
    RepliesOfFew(second, third);
    RepliesOfFew(third, third);
    RepliesAppend(a, b);
    RepliesAppend(a + b, [third]);
  }

  lemma RefreshReplies(identity: Identity, shown: Preview, all: Option<SpendAll>, m: Message, f: Refresh)
    requires f.rent == []
    ensures RepliesIn(RefreshEvents(identity, shown, all, m, f))
         == [HashReply(f.context), FeeReply(shown.fee)] + (if all.Some? then [BalanceReply(all.value.balance)] else [])
            + [SimulationReply(f.simulation), SignerReply(identity.address), HeightReply(f.height)]
  {
    hide RepliesIn;
    var hash, fee := Exchange(LatestBlockhash, HashReply(f.context)), Exchange(FeeFor(m), FeeReply(shown.fee));
    var balance := if all.Some? then [Exchange(BalanceOf(identity.address), BalanceReply(all.value.balance))] else [];
    var run, signer, height := Exchange(Simulate(m, f.context.slot), SimulationReply(f.simulation)),
      Exchange(LoadSigner(identity.name), SignerReply(identity.address)), Exchange(BlockHeight(f.context), HeightReply(f.height));
    RepliesOfFew(hash, fee);
    RepliesOfFew(fee, hash);
    RepliesOfFew(signer, height);
    RepliesOfFew(height, run);
    RepliesOfFew(run, run);
    if all.Some? { RepliesOfFew(balance[0], run); }
    assert RefreshEvents(identity, shown, all, m, f) == [hash, fee] + balance + [run] + [signer, height];
    RepliesAppend([hash, fee], balance);
    RepliesAppend([hash, fee] + balance, [run]);
    RepliesAppend([hash, fee] + balance + [run], [signer, height]);
  }

  lemma TraceReplies(ids: Programs, policy: SecuritySettings, identity: Identity, original: seq<Instruction>,
                     burn: bool, all: Option<SpendAll>, t: Trace)
    ensures var source, p, shown, d := identity.address, t.preparation, t.shown, t.decision;
      var preview := Message(source, shown.instructions, p.context.hash);
      RepliesIn(TraceEvents(ids, policy, identity, original, burn, all, t))
      == RepliesIn(TuneEvents(ids, source, original, p.context, p.probe, shown.limit))
         + RepliesIn(PriceEvents(ids, source, original, p.context, p.rent, shown))
         + RepliesIn(DecisionEvents(policy, preview, burn, d))
         + RepliesIn(RefreshEvents(identity, shown, all, t.message, t.refresh)) + [t.outcome]
  {
    hide RepliesIn, TuneEvents, PriceEvents, DecisionEvents, RefreshEvents;
    var source, p, shown, d := identity.address, t.preparation, t.shown, t.decision;
    var preview := Message(source, shown.instructions, p.context.hash);
    var tune, price := TuneEvents(ids, source, original, p.context, p.probe, shown.limit),
      PriceEvents(ids, source, original, p.context, p.rent, shown);
    var decision, refresh := DecisionEvents(policy, preview, burn, d), RefreshEvents(identity, shown, all, t.message, t.refresh);
    var sign, submit := Signed(t.message, source), Exchange(Submit(t.message), t.outcome);
    var approval := tune + price + [Shown(shown)] + decision;
    RepliesOfFew(sign, submit);
    RepliesOfFew(submit, sign);
    RepliesOfFew(Shown(shown), sign);
    RepliesAppend(tune, price);
    RepliesAppend(tune + price, [Shown(shown)]);
    RepliesAppend(tune + price + [Shown(shown)], decision);
    RepliesAppend(approval, refresh);
    RepliesAppend(approval + refresh, [sign]);
    RepliesAppend(approval + refresh + [sign], [submit]);
  }

  lemma TraceRepliesInOrder(ids: Programs, policy: SecuritySettings, identity: Identity, original: seq<Instruction>,
                            burn: bool, all: Option<SpendAll>, q: Replies)
    requires Agreeable(ids, policy, identity, original, burn, all, q)
    ensures RepliesIn(TraceEvents(ids, policy, identity, original, burn, all, TraceOf(ids, policy, identity, original, burn, all, q)))
         == InOrder(policy, identity, burn, all, q)
  {
    hide RepliesIn, TuneEvents, PriceEvents, DecisionEvents, RefreshEvents, TraceEvents, Finished, TunedLimit, Text.Typed;
    var t := TraceOf(ids, policy, identity, original, burn, all, q);
    var source, p, shown := identity.address, t.preparation, t.shown;
    TunedLimitCovers(q.units, policy.margin);
    TraceReplies(ids, policy, identity, original, burn, all, t);
    TuneReplies(ids, source, original, Tuned(p.context, p.probe, shown.limit));
    PriceReplies(ids, source, original, p.context, shown);
    DecisionReplies(policy, Message(source, shown.instructions, p.context.hash), burn, t.decision);
    RefreshReplies(identity, shown, all, t.message, t.refresh);
  }

  /** If the message compiles and the replies agree, they are signed over: the program signs the finished
      instructions with the second blockhash, whatever the policy, with or without ALL. */
  lemma AgreeingRepliesSign(ids: Programs, compiles: Message -> bool, policy: SecuritySettings, identity: Identity,
                            original: seq<Instruction>, burn: bool, all: Option<SpendAll>, q: Replies)
    requires Agreeable(ids, policy, identity, original, burn, all, q) && forall m: Message :: compiles(m)
    ensures var sent := SendSpec(ids, compiles, policy, identity, original, burn, all, Replay(InOrder(policy, identity, burn, all, q)), 0);
      && sent.Some? && sent.value.message.payer == identity.address && sent.value.message.hash == q.second.hash
      && sent.value.shown.fee == q.fee && sent.value.outcome == Landed
  {
    hide InOrder, Agreeable, TraceOk, TraceEvents, SendSpec, RepliesIn, Hears, Count;
    var t := TraceOf(ids, policy, identity, original, burn, all, q);
    var replies := InOrder(policy, identity, burn, all, q);
    TraceOfIsOk(ids, compiles, policy, identity, original, burn, all, q);
    TraceRepliesInOrder(ids, policy, identity, original, burn, all, q);
    HearsReplies(Replay(replies), TraceEvents(ids, policy, identity, original, burn, all, t));
    SendIff(ids, compiles, policy, identity, original, burn, all, Replay(replies), 0, t);
  }
}
