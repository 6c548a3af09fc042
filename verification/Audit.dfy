/** The authenticated record of settings edits kept in the vault. */
module Audit {
  import opened Prelude

  const LAST_TIME: int := 253_402_300_799   // the end of the year 9999

  datatype AuditError = InvalidHistory | ClockTooEarly | CounterExhausted

  datatype Audit = Audit(edits: u64, lastEdit: u64) {
    predicate Valid() { (edits == 0 <==> lastEdit == 0) && lastEdit <= LAST_TIME }

    function RecordEdit(now: u64): Result<Audit, AuditError> {
      if now == 0 || now < lastEdit then Err(ClockTooEarly)
      else if edits == U64_LIMIT - 1 then Err(CounterExhausted)
      else
        var next := Audit(edits + 1, now);
        if next.Valid() then Ok(next) else Err(InvalidHistory)
    }
  }

  const NO_EDITS: Audit := Audit(0, 0)

  /** The audit that a save writes: `saved` is what the vault held, if it was ever saved. */
  function NextAudit<S(==)>(audit: Audit, saved: Option<S>, settings: S, now: u64): Result<Audit, AuditError> {
    if saved.Some? && saved.value != settings then audit.RecordEdit(now) else Ok(audit)
  }

  /** One save as seen by the next reader: the counter counts exactly the changed saves, and the clock
      of the record never runs backwards. */
  ghost predicate AuditStep<S>(before: Audit, saved: S, after: Audit, settings: S) {
    if saved == settings then after == before
    else after.edits == before.edits + 1 && after.lastEdit >= before.lastEdit
  }

  /** An edit is recorded exactly when the clock is set, not before the last edit and not past the year 9999,
      and the counter can still count; it then counts one more and records that time. */
  lemma RecordEditIff(audit: Audit, now: u64)
    ensures audit.RecordEdit(now).Ok? <==>
      1 <= now <= 253_402_300_799 && now >= audit.lastEdit && audit.edits + 1 < 0x1_0000_0000_0000_0000
    ensures audit.RecordEdit(now).Ok? ==> audit.RecordEdit(now).value == Audit(audit.edits + 1, now)
  {
  }

  /** A save records an edit exactly when the vault was saved before with other settings. */
  lemma NextAuditIff<S>(audit: Audit, saved: Option<S>, settings: S, now: u64)
    ensures NextAudit(audit, saved, settings, now)
         == if saved == None || saved == Some(settings) then Ok(audit) else audit.RecordEdit(now)
  {
  }

  // A vault without edits has no time, one with edits has one, up to the year 9999.
  lemma ValidIff(audit: Audit)
    ensures audit.Valid() <==> audit == Audit(0, 0) || (audit.edits > 0 && 1 <= audit.lastEdit <= 253_402_300_799)
  {
  }
}
