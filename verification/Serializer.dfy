/** `encode_with_audit` and `decode` as the program runs them: a bounded secret buffer that is filled
    piece by piece, and a reader whose position moves through the bytes. */
module Serializer {
  import opened Prelude
  import opened Configuration
  import opened VaultValue
  import opened Audit
  import opened LockedBytes
  import opened Codec
  import V = Vault

  // ---------------------------------------------------------------- sizes

  function MastersSize(ms: seq<Master>): (n: nat)
    ensures n == |MastersBytes(ms)|
  {
    if ms == [] then 0 else (1 + |ms[0].entropy| + 4) + MastersSize(ms[1..])
  }

  function AccountsSize(xs: seq<Account>): nat {
    if xs == [] then 0
    else (1 + |xs[0].name| + 32 + 1 + if xs[0].kind.Derived? then 5 else 64) + AccountsSize(xs[1..])
  }

  // The size computed before anything is written; 64-byte keypairs are part of the invariant.
  function PlainSize(c: Contents, json: Bytes): nat {
    1 + MastersSize(c.masters) + 2 + AccountsSize(c.accounts) + 2 + |c.recipients| * 32 + 4 + |json| + 16
  }

  lemma {:induction false} AccountsSizeIsExact(w: World, masters: seq<Master>, xs: seq<Account>)
    requires forall i :: 0 <= i < |xs| ==> AccountOk(w, masters, xs[i])
    ensures AccountsSize(xs) == |AccountsBytes(xs)|
    ensures |AccountsBytes(xs)| <= 130 * |xs|
  {
    if xs != [] {
      assert AccountOk(w, masters, xs[0]);
      AccountsSizeIsExact(w, masters, xs[1..]);
    }
  }

  lemma {:induction false} MastersSizeIsBounded(ms: seq<Master>)
    requires forall i :: 0 <= i < |ms| ==> MasterOk(ms[i])
    ensures |MastersBytes(ms)| <= 37 * |ms|
  {
    if ms != [] {
      assert MasterOk(ms[0]);
      MastersSizeIsBounded(ms[1..]);
    }
  }

  /** The computed size is the written size, and with header and tag it stays far below the 1 MiB that
      a reader accepts. */
  lemma SizeIsExact(w: World, c: Contents, json: Bytes, audit: Audit)
    requires Shape(w, c) && |json| <= MAX_SETTINGS_BYTES
    ensures PlainSize(c, json) == |Wire(c, json, audit)|
    ensures 48 + |Wire(c, json, audit)| + 16 < 1024 * 1024
  {
    hide LE;
    AccountsSizeIsExact(w, c.masters, c.accounts);
    MastersSizeIsBounded(c.masters);
  }

  // ---------------------------------------------------------------- encoding

  // Append `b`, the next piece of `total`.
  method Emit(out: LockedBytes, b: Bytes, ghost rest: Bytes, ghost total: Bytes)
    requires out.Valid() && out.Text() + (b + rest) == total && |total| <= out.region.Length
    modifies out`len, out.region
    ensures out.Valid() && out.Text() + rest == total
  {
    Assoc(out.Text(), b, rest);
    assert |out.Text() + (b + rest)| == |out.Text()| + |b| + |rest|;
    var ok := out.ExtendFromSlice(b);
    assert ok;
  }

  method EmitMaster(out: LockedBytes, m: Master, ghost rest: Bytes, ghost total: Bytes)
    requires out.Valid() && out.Text() + (MasterBytes(m) + rest) == total && |total| <= out.region.Length
    modifies out`len, out.region
    ensures out.Valid() && out.Text() + rest == total
  {
    hide LE;
    Assoc(LE(|m.entropy|, 1) + m.entropy, LE(m.next, 4), rest);
    Assoc(LE(|m.entropy|, 1), m.entropy, LE(m.next, 4) + rest);
    Emit(out, LE(|m.entropy|, 1), m.entropy + (LE(m.next, 4) + rest), total);
    Emit(out, m.entropy, LE(m.next, 4) + rest, total);
    Emit(out, LE(m.next, 4), rest, total);
  }

  method EmitKind(out: LockedBytes, k: Kind, ghost rest: Bytes, ghost total: Bytes)
    requires out.Valid() && out.Text() + (KindBytes(k) + rest) == total && |total| <= out.region.Length
    modifies out`len, out.region
    ensures out.Valid() && out.Text() + rest == total
  {
    hide LE;
    match k
    case Derived(m, i) =>
      Assoc([0] + LE(m, 1), LE(i, 4), rest);
      Assoc([0], LE(m, 1), LE(i, 4) + rest);
      Emit(out, [0], LE(m, 1) + (LE(i, 4) + rest), total);
      Emit(out, LE(m, 1), LE(i, 4) + rest, total);
      Emit(out, LE(i, 4), rest, total);
    case Imported(keypair) =>
      Assoc([1], keypair, rest);
      Emit(out, [1], keypair + rest, total);
      Emit(out, keypair, rest, total);
  }

  method EmitAccount(out: LockedBytes, a: Account, ghost rest: Bytes, ghost total: Bytes)
    requires out.Valid() && out.Text() + (AccountBytes(a) + rest) == total && |total| <= out.region.Length
    modifies out`len, out.region
    ensures out.Valid() && out.Text() + rest == total
  {
    hide LE, KindBytes, NameBytes;
    var size, name, kind := LE(|a.name|, 1), NameBytes(a.name), KindBytes(a.kind);
    Assoc(size + name + a.pubkey, kind, rest);
    Assoc(size + name, a.pubkey, kind + rest);
    Assoc(size, name, a.pubkey + (kind + rest));
    Emit(out, size, name + (a.pubkey + (kind + rest)), total);
    Emit(out, name, a.pubkey + (kind + rest), total);
    Emit(out, a.pubkey, kind + rest, total);
    EmitKind(out, a.kind, rest, total);
  }

  method EmitMasters(out: LockedBytes, ms: seq<Master>, ghost rest: Bytes, ghost total: Bytes)
    requires out.Valid() && out.Text() + MasterListThen(ms, rest) == total && |total| <= out.region.Length
    modifies out`len, out.region
    ensures out.Valid() && out.Text() + rest == total
  {
    hide LE, MasterBytes;
    Emit(out, LE(|ms|, 1), MastersBytes(ms) + rest, total);
    assert ms[0..] == ms;
    for i := 0 to |ms|
      invariant out.Valid() && out.Text() + (MastersBytes(ms[i..]) + rest) == total
    {
      assert ms[i..][1..] == ms[i + 1..];
      Assoc(MasterBytes(ms[i]), MastersBytes(ms[i + 1..]), rest);
      EmitMaster(out, ms[i], MastersBytes(ms[i + 1..]) + rest, total);
    }
    assert MastersBytes(ms[|ms|..]) + rest == rest;
  }

  method EmitAccounts(out: LockedBytes, xs: seq<Account>, ghost rest: Bytes, ghost total: Bytes)
    requires out.Valid() && out.Text() + AccountListThen(xs, rest) == total && |total| <= out.region.Length
    modifies out`len, out.region
    ensures out.Valid() && out.Text() + rest == total
  {
    hide LE, AccountBytes;
    Emit(out, LE(|xs|, 2), AccountsBytes(xs) + rest, total);
    assert xs[0..] == xs;
    for i := 0 to |xs|
      invariant out.Valid() && out.Text() + (AccountsBytes(xs[i..]) + rest) == total
    {
      assert xs[i..][1..] == xs[i + 1..];
      Assoc(AccountBytes(xs[i]), AccountsBytes(xs[i + 1..]), rest);
      EmitAccount(out, xs[i], AccountsBytes(xs[i + 1..]) + rest, total);
    }
    assert AccountsBytes(xs[|xs|..]) + rest == rest;
  }

  method EmitRecipients(out: LockedBytes, ks: seq<Key32>, ghost rest: Bytes, ghost total: Bytes)
    requires out.Valid() && out.Text() + RecipientListThen(ks, rest) == total && |total| <= out.region.Length
    modifies out`len, out.region
    ensures out.Valid() && out.Text() + rest == total
  {
    hide LE;
    Emit(out, LE(|ks|, 2), RecipientsBytes(ks) + rest, total);
    assert ks[0..] == ks;
    for i := 0 to |ks|
      invariant out.Valid() && out.Text() + (RecipientsBytes(ks[i..]) + rest) == total
    {
      assert ks[i..][1..] == ks[i + 1..];
      Assoc(ks[i], RecipientsBytes(ks[i + 1..]), rest);
      Emit(out, ks[i], RecipientsBytes(ks[i + 1..]) + rest, total);
    }
    assert RecipientsBytes(ks[|ks|..]) + rest == rest;
  }

  method EmitTail(out: LockedBytes, json: Bytes, audit: Audit, ghost total: Bytes)
    requires out.Valid() && out.Text() + (ConfigBytes(json) + (AuditBytes(audit) + [])) == total
    requires |total| <= out.region.Length
    modifies out`len, out.region
    ensures out.Valid() && out.Text() == total
  {
    hide LE;
    Assoc(LE(|json|, 4), json, AuditBytes(audit) + []);
    Emit(out, LE(|json|, 4), json + (AuditBytes(audit) + []), total);
    Emit(out, json, AuditBytes(audit) + [], total);
    assert AuditBytes(audit) + [] == LE(audit.edits, 8) + LE(audit.lastEdit, 8);
    Emit(out, LE(audit.edits, 8), LE(audit.lastEdit, 8), total);
    assert LE(audit.lastEdit, 8) == LE(audit.lastEdit, 8) + [];
    Emit(out, LE(audit.lastEdit, 8), [], total);
    assert out.Text() + [] == out.Text();
  }

  /** The plaintext of a vault in a buffer that it fills up to exactly 16 spare bytes, the room the
      cipher needs for its tag; nothing is ever reallocated and no write can overflow. */
  method EncodeWithAudit(w: World, vault: V.Vault, audit: Audit) returns (r: Result<LockedBytes, EncodeError>)
    requires Shape(w, vault.Value())
    ensures match EncodeValue(w, vault.Value(), audit)
      case Err(e) => r == Err(e)
      case Ok(plain) =>
        && r.Ok? && fresh(r.value) && fresh(r.value.region) && r.value.Valid()
        && r.value.Text() == plain
        && r.value.region.Length == |plain| + 16
        && 48 + r.value.region.Length < 1024 * 1024
  {
    hide Shape, ValidSettings, LE, MasterListThen, AccountListThen, RecipientListThen;
    ghost var c := vault.Value();
    if !audit.Valid() { return Err(BadAudit); }
    if !ValidSettings(w, vault.config.settings) { return Err(BadSettings); }
    var config := new LockedBytes(MAX_SETTINGS_BYTES);
    var json := w.toJson(vault.config.settings);
    var fits := config.ExtendFromSlice(json);
    if !fits { return Err(SettingsTooLong); }
    if |vault.masters| > MAX_MASTERS || |vault.accounts| > MAX_ACCOUNTS || |vault.recipients| > MAX_RECIPIENTS {
      return Err(LimitsExceeded);
    }
    var size := 1 + MastersSize(vault.masters) + 2 + AccountsSize(vault.accounts) + 2
                + |vault.recipients| * 32 + 4 + |json| + 16;
    SizeIsExact(w, c, json, audit);
    var out := new LockedBytes(size + 16);
    ghost var total := Wire(c, json, audit);
    ghost var tail := ConfigBytes(json) + (AuditBytes(audit) + []);
    WireThenIsWire(c, json, audit, []);
    assert total + [] == total && out.Text() + total == total;
    EmitMasters(out, vault.masters, AccountListThen(c.accounts, RecipientListThen(c.recipients, tail)), total);
    EmitAccounts(out, vault.accounts, RecipientListThen(c.recipients, tail), total);
    EmitRecipients(out, vault.recipients, tail, total);
    EmitTail(out, json, audit, total);
    return Ok(out);
  }

  // ---------------------------------------------------------------- decoding

  class Reader {
    const data: Bytes
    var pos: nat

    ghost predicate Valid()
      reads this
    {
      pos <= |data|
    }

    ghost function Rest(): Bytes
      reads this
      requires Valid()
    {
      data[pos..]
    }

    constructor (data: Bytes)
      ensures Valid() && Rest() == data && this.data == data
    {
      this.data := data;
      pos := 0;
    }

    method Take(length: nat) returns (r: Result<Bytes, DecodeError>)
      requires Valid()
      modifies this`pos
      ensures Valid()
      ensures match Codec.Take(old(Rest()), length)
              case Ok((b, rest)) => r == Ok(b) && Rest() == rest
              case Err(e) => r == Err(e)
    {
      var end := pos + length;
      if end > |data| { return Err(Truncated); }
      var slice := data[pos..end];
      assert slice == Rest()[..length] && data[end..] == Rest()[length..];
      pos := end;
      return Ok(slice);
    }

    method Number(width: nat) returns (r: Result<nat, DecodeError>)
      requires Valid()
      modifies this`pos
      ensures Valid()
      ensures match TakeNumber(old(Rest()), width)
              case Ok((n, rest)) => r == Ok(n) && Rest() == rest && n < Pow256(width)
              case Err(e) => r == Err(e)
    {
      var field :- Take(width);
      return Ok(FromLE(field));
    }
  }

  method DecodeMaster(reader: Reader) returns (r: Result<Master, DecodeError>)
    requires reader.Valid()
    modifies reader`pos
    ensures reader.Valid()
    ensures match ParseMaster(old(reader.Rest()))
            case Ok((m, rest)) => r == Ok(m) && reader.Rest() == rest
            case Err(e) => r == Err(e)
  {
    hide FromLE;
    FieldWidths();
    var length :- reader.Number(1);
    if length !in {16, 20, 24, 28, 32} { return Err(BadEntropySize); }
    var entropy :- reader.Take(length);
    var next :- reader.Number(4);
    if next == 0 || next > INDEX_LIMIT { return Err(BadNextIndex); }
    return Ok(Master(entropy, next));
  }

  method DecodeMasters(reader: Reader) returns (r: Result<seq<Master>, DecodeError>)
    requires reader.Valid()
    modifies reader`pos
    ensures reader.Valid()
    ensures match ParseMasterList(old(reader.Rest()))
            case Ok((ms, rest)) => r == Ok(ms) && reader.Rest() == rest
            case Err(e) => r == Err(e)
  {
    hide FromLE, ParseMaster;
    var count :- reader.Number(1);
    if count > MAX_MASTERS { return Err(TooManyMasters); }
    ghost var all := ParseMasters(count, reader.Rest(), []);
    var masters := [];
    for i := 0 to count
      invariant reader.Valid() && all == ParseMasters(count - i, reader.Rest(), masters)
    {
      var m :- DecodeMaster(reader);
      masters := masters + [m];
    }
    return Ok(masters);
  }

  method DecodeKind(w: World, masters: seq<Master>, pubkey: Key32, reader: Reader) returns (r: Result<Kind, DecodeError>)
    requires reader.Valid()
    modifies reader`pos
    ensures reader.Valid()
    ensures match ParseKind(w, masters, pubkey, old(reader.Rest()))
            case Ok((k, rest)) => r == Ok(k) && reader.Rest() == rest
            case Err(e) => r == Err(e)
  {
    hide FromLE;
    FieldWidths();
    var tag :- reader.Number(1);
    if tag == 0 {
      var master :- reader.Number(1);
      var index :- reader.Number(4);
      if master >= |masters| || index >= INDEX_LIMIT { return Err(BadMasterReference); }
      if index >= masters[master].next { return Err(IndexReuse); }
      return Ok(Derived(master, index));
    } else if tag == 1 {
      var keypair :- reader.Take(64);
      if KeypairAddress(w, keypair) != Some(pubkey) { return Err(BadImported); }
      return Ok(Imported(keypair));
    } else {
      return Err(BadKind);
    }
  }

  method DecodeAccount(w: World, masters: seq<Master>, done: seq<Account>, reader: Reader)
    returns (r: Result<Account, DecodeError>)
    requires reader.Valid()
    modifies reader`pos
    ensures reader.Valid()
    ensures match ParseAccount(w, masters, done, old(reader.Rest()))
            case Ok((a, rest)) => r == Ok(a) && reader.Rest() == rest
            case Err(e) => r == Err(e)
  {
    hide FromLE, ParseKind, NameOf, ValidName;
    var length :- reader.Number(1);
    var raw :- reader.Take(length);
    var name := NameOf(raw);
    if !ValidName(name) || HasName(done, name) { return Err(BadAccountName); }
    var pubkey :- reader.Take(32);
    var kind :- DecodeKind(w, masters, pubkey, reader);
    return Ok(Account(name, pubkey, kind));
  }

  method DecodeAccounts(w: World, masters: seq<Master>, reader: Reader) returns (r: Result<seq<Account>, DecodeError>)
    requires reader.Valid()
    modifies reader`pos
    ensures reader.Valid()
    ensures match ParseAccountList(w, masters, old(reader.Rest()))
            case Ok((xs, rest)) => r == Ok(xs) && reader.Rest() == rest
            case Err(e) => r == Err(e)
  {
    hide FromLE, ParseAccount;
    var count :- reader.Number(2);
    if count > MAX_ACCOUNTS { return Err(TooManyAccounts); }
    ghost var all := ParseAccounts(w, masters, count, reader.Rest(), []);
    var accounts := [];
    for i := 0 to count
      invariant reader.Valid() && all == ParseAccounts(w, masters, count - i, reader.Rest(), accounts)
    {
      var a :- DecodeAccount(w, masters, accounts, reader);
      accounts := accounts + [a];
    }
    return Ok(accounts);
  }

  method DecodeRecipients(reader: Reader) returns (r: Result<seq<Key32>, DecodeError>)
    requires reader.Valid()
    modifies reader`pos
    ensures reader.Valid()
    ensures match ParseRecipientList(old(reader.Rest()))
            case Ok((ks, rest)) => r == Ok(ks) && reader.Rest() == rest
            case Err(e) => r == Err(e)
  {
    hide FromLE;
    var count :- reader.Number(2);
    if count > MAX_RECIPIENTS { return Err(TooManyRecipients); }
    ghost var all := ParseRecipients(count, reader.Rest(), []);
    var recipients: seq<Key32> := [];
    for i := 0 to count
      invariant reader.Valid() && all == ParseRecipients(count - i, reader.Rest(), recipients)
    {
      var key :- reader.Take(32);
      recipients := recipients + [key];
    }
    return Ok(recipients);
  }

  method DecodeSettings(w: World, reader: Reader) returns (r: Result<Settings, DecodeError>)
    requires reader.Valid()
    modifies reader`pos
    ensures reader.Valid()
    ensures match ParseConfig(w, old(reader.Rest()))
            case Ok((settings, rest)) => r == Ok(settings) && reader.Rest() == rest
            case Err(e) => r == Err(e)
  {
    hide FromLE, ValidSettings;
    var length :- reader.Number(4);
    if length == 0 || length > MAX_SETTINGS_BYTES { return Err(BadConfigLength); }
    var json :- reader.Take(length);
    var settings := w.fromJson(json);
    if settings.None? || !ValidSettings(w, settings.value) { return Err(BadConfig); }
    return Ok(settings.value);
  }

  method DecodeAudit(reader: Reader) returns (r: Result<Audit, DecodeError>)
    requires reader.Valid()
    modifies reader`pos
    ensures reader.Valid()
    ensures match ParseAudit(old(reader.Rest()))
            case Ok((audit, rest)) => r == Ok(audit) && reader.Rest() == rest
            case Err(e) => r == Err(e)
  {
    hide FromLE;
    FieldWidths();
    var edits :- reader.Number(8);
    var lastEdit :- reader.Number(8);
    var audit := Audit(edits, lastEdit);
    if !audit.Valid() { return Err(BadHistory); }
    return Ok(audit);
  }

  /** `decode`: the moving reader computes `DecodeValue`. */
  method Decode(w: World, data: Bytes) returns (r: Result<(Contents, Audit), DecodeError>)
    ensures r == DecodeValue(w, data)
  {
    hide FromLE, ValidSettings, ParseMasterList, ParseAccountList, ParseRecipientList, ParseConfig, ParseAudit;
    var reader := new Reader(data);
    var masters :- DecodeMasters(reader);
    var accounts :- DecodeAccounts(w, masters, reader);
    var recipients :- DecodeRecipients(reader);
    var settings :- DecodeSettings(w, reader);
    var audit :- DecodeAudit(reader);
    assert reader.Rest() == data[reader.pos..];
    if reader.pos != |data| { return Err(TrailingData); }
    return Ok((Contents(settings, masters, accounts, recipients), audit));
  }
}
