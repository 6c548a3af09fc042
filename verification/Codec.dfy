/** The plaintext vault format: `encode_with_audit`, `decode`, and what they promise each other. */
module Codec {
  import opened Prelude
  import opened Configuration
  import opened VaultValue
  import opened Audit
  import opened LockedBytes
  import Utf8

  datatype EncodeError = BadAudit | BadSettings | SettingsTooLong | LimitsExceeded

  datatype DecodeError =
    | Truncated | TooManyMasters | BadEntropySize | BadNextIndex
    | TooManyAccounts | BadAccountName | BadMasterReference | IndexReuse | BadImported | BadKind
    | TooManyRecipients | BadConfigLength | BadConfig | BadHistory | TrailingData

  // ---------------------------------------------------------------- the layout

  function NameBytes(name: string): (b: Bytes)
    ensures |b| == |name|
  {
    seq(|name|, i requires 0 <= i < |name| => if name[i] as int < 256 then name[i] as int else 0)
  }

  function NameOf(b: Bytes): string {
    seq(|b|, i requires 0 <= i < |b| => b[i] as char)
  }

  function MasterBytes(m: Master): Bytes {
    LE(|m.entropy|, 1) + m.entropy + LE(m.next, 4)
  }

  function KindBytes(k: Kind): Bytes {
    match k
    case Derived(m, i) => [0] + LE(m, 1) + LE(i, 4)
    case Imported(keypair) => [1] + keypair
  }

  function AccountBytes(a: Account): Bytes {
    LE(|a.name|, 1) + NameBytes(a.name) + a.pubkey + KindBytes(a.kind)
  }

  function MastersBytes(ms: seq<Master>): Bytes {
    if ms == [] then [] else MasterBytes(ms[0]) + MastersBytes(ms[1..])
  }

  function AccountsBytes(xs: seq<Account>): Bytes {
    if xs == [] then [] else AccountBytes(xs[0]) + AccountsBytes(xs[1..])
  }

  function RecipientsBytes(ks: seq<Key32>): (b: Bytes)
    ensures |b| == 32 * |ks|
  {
    if ks == [] then [] else ks[0] + RecipientsBytes(ks[1..])
  }

  function AuditBytes(a: Audit): Bytes { LE(a.edits, 8) + LE(a.lastEdit, 8) }

  // Everything before the settings block
  function Front(c: Contents): Bytes {
    LE(|c.masters|, 1) + MastersBytes(c.masters)
    + LE(|c.accounts|, 2) + AccountsBytes(c.accounts)
    + LE(|c.recipients|, 2) + RecipientsBytes(c.recipients)
  }

  function ConfigBytes(json: Bytes): Bytes { LE(|json|, 4) + json }

  function Wire(c: Contents, json: Bytes, audit: Audit): Bytes {
    Front(c) + ConfigBytes(json) + AuditBytes(audit)
  }

  /** The layout, byte by byte, of a vault of one phrase, one derived and one imported wallet, and one
      recipient: counts before lists, lengths before bytes, the kind before its fields, then the settings
      text and the two audit numbers. */
  lemma LayoutOfSmallVault(c: Contents, json: Bytes, audit: Audit, m: Master, a: Account, b: Account)
    requires c.masters == [m] && c.accounts == [a, b] && |c.recipients| == 1
    requires a.kind.Derived? && a.kind.master == 0 && b.kind.Imported? && |m.entropy| < 256 && |a.name| < 256 && |b.name| < 256
    ensures Wire(c, json, audit) ==
      ([1] + ([|m.entropy|] + m.entropy + LE(m.next, 4))
       + [2, 0] + (([|a.name|] + NameBytes(a.name) + a.pubkey + ([0] + [0] + LE(a.kind.index, 4)))
                   + ([|b.name|] + NameBytes(b.name) + b.pubkey + ([1] + b.kind.keypair)))
       + [1, 0] + c.recipients[0])
      + (LE(|json|, 4) + json) + (LE(audit.edits, 8) + LE(audit.lastEdit, 8))
  {
    OneByte(1);
    OneByte(0);
    OneByte(|m.entropy|);
    OneByte(|a.name|);
    OneByte(|b.name|);
    TwoBytes(1);
    TwoBytes(2);
    hide LE, MasterBytes, AccountBytes, NameBytes, RecipientsBytes;
    SmallLists(m, a, b, c.recipients);
    SmallParts(m, a, b);
  }

  lemma SmallParts(m: Master, a: Account, b: Account)
    requires a.kind.Derived? && a.kind.master == 0 && b.kind.Imported? && |m.entropy| < 256 && |a.name| < 256 && |b.name| < 256
    ensures MasterBytes(m) == [|m.entropy|] + m.entropy + LE(m.next, 4)
    ensures AccountBytes(a) == [|a.name|] + NameBytes(a.name) + a.pubkey + ([0] + [0] + LE(a.kind.index, 4))
    ensures AccountBytes(b) == [|b.name|] + NameBytes(b.name) + b.pubkey + ([1] + b.kind.keypair)
  {
    OneByte(0);
    OneByte(|m.entropy|);
    OneByte(|a.name|);
    OneByte(|b.name|);
  }

  lemma SmallLists(m: Master, a: Account, b: Account, keys: seq<Key32>)
    requires |keys| == 1
    ensures MastersBytes([m]) == MasterBytes(m) && AccountsBytes([a, b]) == AccountBytes(a) + AccountBytes(b)
    ensures RecipientsBytes(keys) == keys[0]
  {
    hide MasterBytes, AccountBytes;
    assert [m][1..] == [] && [a, b][1..] == [b] && [b][1..] == [];
    assert AccountsBytes([b]) == AccountBytes(b) + [];
  }

  lemma OneByte(n: nat)
    requires n < 256
    ensures LE(n, 1) == [n as byte]
  {
  }

  lemma TwoBytes(n: nat)
    requires n < 256
    ensures LE(n, 2) == [n as byte, 0]
  {
    OneByte(0);
  }

  // ---------------------------------------------------------------- decoding, as a function

  // A parsed value and the bytes after it
  type Parsed<+T> = Result<(T, Bytes), DecodeError>

  function Take(d: Bytes, n: nat): Parsed<Bytes> {
    if n <= |d| then Ok((d[..n], d[n..])) else Err(Truncated)
  }

  function TakeNumber(d: Bytes, width: nat): Parsed<nat> {
    var (field, rest) :- Take(d, width);
    Ok((FromLE(field), rest))
  }

  function ParseMaster(d: Bytes): Parsed<Master> {
    FieldWidths();
    var (length, d1) :- TakeNumber(d, 1);
    if !EntropyLength(length) then Err(BadEntropySize)
    else
      var (entropy, d2) :- Take(d1, length);
      var (next, d3) :- TakeNumber(d2, 4);
      if next == 0 || next > INDEX_LIMIT then Err(BadNextIndex)
      else Ok((Master(entropy, next), d3))
  }

  function ParseMasters(n: nat, d: Bytes, done: seq<Master>): Parsed<seq<Master>> {
    if n == 0 then Ok((done, d))
    else
      var (m, rest) :- ParseMaster(d);
      ParseMasters(n - 1, rest, done + [m])
  }

  function ParseKind(w: World, masters: seq<Master>, pubkey: Key32, d: Bytes): Parsed<Kind> {
    FieldWidths();
    var (tag, d1) :- TakeNumber(d, 1);
    if tag == 0 then
      var (master, d2) :- TakeNumber(d1, 1);
      var (index, d3) :- TakeNumber(d2, 4);
      if master >= |masters| || index >= INDEX_LIMIT then Err(BadMasterReference)
      else if index >= masters[master].next then Err(IndexReuse)
      else Ok((Derived(master, index), d3))
    else if tag == 1 then
      var (keypair, d2) :- Take(d1, 64);
      if KeypairAddress(w, keypair) != Some(pubkey) then Err(BadImported)
      else Ok((Imported(keypair), d2))
    else Err(BadKind)
  }

  predicate HasName(xs: seq<Account>, name: string) {
    exists i :: 0 <= i < |xs| && xs[i].name == name
  }

  function ParseAccount(w: World, masters: seq<Master>, done: seq<Account>, d: Bytes): Parsed<Account> {
    var (length, d1) :- TakeNumber(d, 1);
    var (raw, d2) :- Take(d1, length);
    // a name that is not UTF-8 is not ASCII either, so it fails here too
    if !ValidName(NameOf(raw)) || HasName(done, NameOf(raw)) then Err(BadAccountName)
    else
      var (pubkey, d3) :- Take(d2, 32);
      var (kind, d4) :- ParseKind(w, masters, pubkey, d3);
      Ok((Account(NameOf(raw), pubkey, kind), d4))
  }

  function ParseAccounts(w: World, masters: seq<Master>, n: nat, d: Bytes, done: seq<Account>): Parsed<seq<Account>> {
    if n == 0 then Ok((done, d))
    else
      var (a, rest) :- ParseAccount(w, masters, done, d);
      ParseAccounts(w, masters, n - 1, rest, done + [a])
  }

  function ParseRecipients(n: nat, d: Bytes, done: seq<Key32>): Parsed<seq<Key32>> {
    if n == 0 then Ok((done, d))
    else
      var (key, rest) :- Take(d, 32);
      ParseRecipients(n - 1, rest, done + [key])
  }

  function ParseConfig(w: World, d: Bytes): Parsed<Settings> {
    var (length, d1) :- TakeNumber(d, 4);
    if length == 0 || length > MAX_SETTINGS_BYTES then Err(BadConfigLength)
    else
      var (json, d2) :- Take(d1, length);
      var settings := w.fromJson(json);
      if settings.None? || !ValidSettings(w, settings.value) then Err(BadConfig)
      else Ok((settings.value, d2))
  }

  function ParseAudit(d: Bytes): Parsed<Audit> {
    FieldWidths();
    var (edits, d1) :- TakeNumber(d, 8);
    var (lastEdit, d2) :- TakeNumber(d1, 8);
    if !Audit(edits, lastEdit).Valid() then Err(BadHistory) else Ok((Audit(edits, lastEdit), d2))
  }

  function ParseMasterList(d: Bytes): Parsed<seq<Master>> {
    var (count, rest) :- TakeNumber(d, 1);
    if count > MAX_MASTERS then Err(TooManyMasters) else ParseMasters(count, rest, [])
  }

  function ParseAccountList(w: World, masters: seq<Master>, d: Bytes): Parsed<seq<Account>> {
    var (count, rest) :- TakeNumber(d, 2);
    if count > MAX_ACCOUNTS then Err(TooManyAccounts) else ParseAccounts(w, masters, count, rest, [])
  }

  function ParseRecipientList(d: Bytes): Parsed<seq<Key32>> {
    var (count, rest) :- TakeNumber(d, 2);
    if count > MAX_RECIPIENTS then Err(TooManyRecipients) else ParseRecipients(count, rest, [])
  }

  function ParseVault(w: World, d: Bytes): Parsed<(Contents, Audit)> {
    var (masters, d1) :- ParseMasterList(d);
    var (accounts, d2) :- ParseAccountList(w, masters, d1);
    var (recipients, d3) :- ParseRecipientList(d2);
    var (settings, d4) :- ParseConfig(w, d3);
    var (audit, d5) :- ParseAudit(d4);
    Ok(((Contents(settings, masters, accounts, recipients), audit), d5))
  }

  function DecodeValue(w: World, d: Bytes): Result<(Contents, Audit), DecodeError> {
    var (vault, rest) :- ParseVault(w, d);
    if rest != [] then Err(TrailingData) else Ok(vault)
  }

  // ---------------------------------------------------------------- what is written is read back

  lemma Assoc(a: Bytes, b: Bytes, c: Bytes)
    ensures (a + b) + c == a + (b + c)
  {
  }

  lemma NumberReads(n: nat, width: nat, x: Bytes)
    requires n < Pow256(width)
    ensures TakeNumber(LE(n, width) + x, width) == Ok((n, x))
  {
    FieldRoundTrip(n, width);
    assert (LE(n, width) + x)[..width] == LE(n, width);
    assert (LE(n, width) + x)[width..] == x;
  }

  lemma TakeReads(b: Bytes, x: Bytes)
    ensures Take(b + x, |b|) == Ok((b, x))
  {
    assert (b + x)[..|b|] == b && (b + x)[|b|..] == x;
  }

  lemma NumberWrites(d: Bytes, width: nat)
    requires TakeNumber(d, width).Ok?
    ensures d == LE(TakeNumber(d, width).value.0, width) + TakeNumber(d, width).value.1
    ensures TakeNumber(d, width).value.0 < Pow256(width)
  {
    hide LE, FromLE, Pow256;
    FieldIsCanonical(d[..width]);
    assert d == d[..width] + d[width..];
  }

  lemma TakeWrites(d: Bytes, n: nat)
    requires Take(d, n).Ok?
    ensures d == Take(d, n).value.0 + Take(d, n).value.1 && |Take(d, n).value.0| == n
  {
    assert d == d[..n] + d[n..];
  }

  lemma MasterReads(m: Master, x: Bytes)
    requires MasterOk(m)
    ensures ParseMaster(MasterBytes(m) + x) == Ok((m, x))
  {
    hide LE, FromLE, Pow256;
    FieldWidths();
    assert MasterBytes(m) + x == LE(|m.entropy|, 1) + (m.entropy + (LE(m.next, 4) + x));
    NumberReads(|m.entropy|, 1, m.entropy + (LE(m.next, 4) + x));
    TakeReads(m.entropy, LE(m.next, 4) + x);
    NumberReads(m.next, 4, x);
  }

  lemma MasterWrites(d: Bytes)
    requires ParseMaster(d).Ok?
    ensures var (m, x) := ParseMaster(d).value; MasterOk(m) && d == MasterBytes(m) + x
  {
    hide LE, FromLE, Pow256;
    FieldWidths();
    var (m, x) := ParseMaster(d).value;
    NumberWrites(d, 1);
    var (length, d1) := TakeNumber(d, 1).value;
    TakeWrites(d1, length);
    var (entropy, d2) := Take(d1, length).value;
    NumberWrites(d2, 4);
    assert d == LE(|m.entropy|, 1) + (m.entropy + (LE(m.next, 4) + x));
  }

  lemma {:induction false} MastersRead(ms: seq<Master>, x: Bytes, done: seq<Master>)
    requires forall i :: 0 <= i < |ms| ==> MasterOk(ms[i])
    ensures ParseMasters(|ms|, MastersBytes(ms) + x, done) == Ok((done + ms, x))
  {
    hide LE, FromLE, Pow256, MasterBytes, ParseMaster;
    if ms == [] {
      assert done + ms == done && MastersBytes(ms) + x == x;
    } else {
      Assoc(MasterBytes(ms[0]), MastersBytes(ms[1..]), x);
      MasterReads(ms[0], MastersBytes(ms[1..]) + x);
      MastersRead(ms[1..], x, done + [ms[0]]);
      assert done + [ms[0]] + ms[1..] == done + ms;
    }
  }

  lemma {:induction false} MastersWrite(n: nat, d: Bytes, done: seq<Master>)
    requires ParseMasters(n, d, done).Ok?
    requires forall i :: 0 <= i < |done| ==> MasterOk(done[i])
    ensures var (ms, x) := ParseMasters(n, d, done).value;
      && |ms| == |done| + n && done <= ms
      && d == MastersBytes(ms[|done|..]) + x
      && forall i :: 0 <= i < |ms| ==> MasterOk(ms[i])
  {
    hide LE, FromLE, Pow256;
    if n > 0 {
      MasterWrites(d);
      var (m, rest) := ParseMaster(d).value;
      MastersWrite(n - 1, rest, done + [m]);
      var (ms, x) := ParseMasters(n, d, done).value;
      assert ms[|done|..][1..] == ms[|done + [m]|..];
      Assoc(MasterBytes(m), MastersBytes(ms[|done|..][1..]), x);
    }
  }

  lemma NamesRead(name: string)
    requires ValidName(name)
    ensures NameOf(NameBytes(name)) == name
  {
  }

  lemma NamesWrite(b: Bytes)
    ensures NameBytes(NameOf(b)) == b
  {
  }

  // A name is written as UTF-8.
  lemma {:induction false} NamesAreUtf8(name: string)
    requires forall i :: 0 <= i < |name| ==> AsciiAlphanumeric(name[i]) || name[i] == '_' || name[i] == '-'
    ensures NameBytes(name) == Utf8.EncodeAll(name)
  {
    if name != "" {
      NamesAreUtf8(name[1..]);
      assert Utf8.Encode(name[0]) == [name[0] as int];
      assert NameBytes(name) == [name[0] as int] + NameBytes(name[1..]);
    }
  }

  lemma KindReads(w: World, masters: seq<Master>, a: Account, x: Bytes)
    requires |masters| <= MAX_MASTERS && AccountOk(w, masters, a)
    ensures ParseKind(w, masters, a.pubkey, KindBytes(a.kind) + x) == Ok((a.kind, x))
  {
    assert LE(0, 1) == [0] && LE(1, 1) == [1];
    hide LE, FromLE, Pow256;
    FieldWidths();
    match a.kind
    case Derived(m, i) =>
      assert KindBytes(a.kind) + x == LE(0, 1) + (LE(m, 1) + (LE(i, 4) + x));
      NumberReads(0, 1, LE(m, 1) + (LE(i, 4) + x));
      NumberReads(m, 1, LE(i, 4) + x);
      NumberReads(i, 4, x);
    case Imported(k) =>
      assert KindBytes(a.kind) + x == LE(1, 1) + (k + x);
      NumberReads(1, 1, k + x);
      TakeReads(k, x);
  }

  lemma KindWrites(w: World, masters: seq<Master>, pubkey: Key32, d: Bytes)
    requires ParseKind(w, masters, pubkey, d).Ok?
    ensures var (k, x) := ParseKind(w, masters, pubkey, d).value;
      && d == KindBytes(k) + x
      && forall name :: ValidName(name) ==> AccountOk(w, masters, Account(name, pubkey, k))
  {
    hide LE, FromLE, Pow256, ValidName, KeypairAddress;
    FieldWidths();
    OneByte(0);
    OneByte(1);
    var (k, x) := ParseKind(w, masters, pubkey, d).value;
    NumberWrites(d, 1);
    var (tag, d1) := TakeNumber(d, 1).value;
    if tag == 0 {
      NumberWrites(d1, 1);
      var (m, d2) := TakeNumber(d1, 1).value;
      NumberWrites(d2, 4);
      assert d == LE(0, 1) + (LE(k.master, 1) + (LE(k.index, 4) + x));
    } else {
      TakeWrites(d1, 64);
      assert d == LE(1, 1) + (k.keypair + x);
    }
  }

  lemma AccountReads(w: World, masters: seq<Master>, done: seq<Account>, a: Account, x: Bytes)
    requires |masters| <= MAX_MASTERS && AccountOk(w, masters, a) && !HasName(done, a.name)
    ensures ParseAccount(w, masters, done, AccountBytes(a) + x) == Ok((a, x))
  {
    hide LE, FromLE, Pow256;
    FieldWidths();
    NamesRead(a.name);
    var d3 := KindBytes(a.kind) + x;
    assert AccountBytes(a) + x == LE(|a.name|, 1) + (NameBytes(a.name) + (a.pubkey + d3));
    NumberReads(|a.name|, 1, NameBytes(a.name) + (a.pubkey + d3));
    TakeReads(NameBytes(a.name), a.pubkey + d3);
    TakeReads(a.pubkey, d3);
    KindReads(w, masters, a, x);
  }

  lemma AccountWrites(w: World, masters: seq<Master>, done: seq<Account>, d: Bytes)
    requires ParseAccount(w, masters, done, d).Ok?
    ensures var (a, x) := ParseAccount(w, masters, done, d).value;
      AccountOk(w, masters, a) && !HasName(done, a.name) && d == AccountBytes(a) + x
  {
    hide LE, FromLE, Pow256;
    var (a, x) := ParseAccount(w, masters, done, d).value;
    NumberWrites(d, 1);
    var (length, d1) := TakeNumber(d, 1).value;
    TakeWrites(d1, length);
    var (raw, d2) := Take(d1, length).value;
    NamesWrite(raw);
    TakeWrites(d2, 32);
    var (pubkey, d3) := Take(d2, 32).value;
    KindWrites(w, masters, pubkey, d3);
    var kind := KindBytes(a.kind);
    Assoc(LE(length, 1) + raw + pubkey, kind, x);
    Assoc(LE(length, 1) + raw, pubkey, kind + x);
    Assoc(LE(length, 1), raw, pubkey + (kind + x));
  }

  ghost predicate AccountsOk(w: World, masters: seq<Master>, xs: seq<Account>) {
    DistinctNames(xs) && forall i :: 0 <= i < |xs| ==> AccountOk(w, masters, xs[i])
  }

  lemma NewNameStaysDistinct(w: World, masters: seq<Master>, xs: seq<Account>, a: Account)
    requires AccountsOk(w, masters, xs) && AccountOk(w, masters, a) && !HasName(xs, a.name)
    ensures AccountsOk(w, masters, xs + [a])
  {
  }

  lemma NextIsNew(w: World, masters: seq<Master>, done: seq<Account>, xs: seq<Account>)
    requires xs != [] && AccountsOk(w, masters, done + xs)
    ensures AccountOk(w, masters, xs[0]) && !HasName(done, xs[0].name)
  {
    hide LE, FromLE, Pow256;
    assert (done + xs)[|done|] == xs[0];
    assert forall i :: 0 <= i < |done| ==> (done + xs)[i] == done[i];
  }

  lemma {:induction false} AccountsRead(w: World, masters: seq<Master>, xs: seq<Account>, x: Bytes, done: seq<Account>)
    requires |masters| <= MAX_MASTERS && AccountsOk(w, masters, done + xs)
    ensures ParseAccounts(w, masters, |xs|, AccountsBytes(xs) + x, done) == Ok((done + xs, x))
  {
    hide LE, FromLE, Pow256, AccountBytes, ParseAccount;
    if xs == [] {
      assert done + xs == done && AccountsBytes(xs) + x == x;
    } else {
      NextIsNew(w, masters, done, xs);
      Assoc(AccountBytes(xs[0]), AccountsBytes(xs[1..]), x);
      AccountReads(w, masters, done, xs[0], AccountsBytes(xs[1..]) + x);
      assert done + [xs[0]] + xs[1..] == done + xs;
      AccountsRead(w, masters, xs[1..], x, done + [xs[0]]);
    }
  }

  lemma {:induction false} AccountsWrite(w: World, masters: seq<Master>, n: nat, d: Bytes, done: seq<Account>)
    requires ParseAccounts(w, masters, n, d, done).Ok?
    requires AccountsOk(w, masters, done)
    ensures var (xs, x) := ParseAccounts(w, masters, n, d, done).value;
      && |xs| == |done| + n && done <= xs
      && d == AccountsBytes(xs[|done|..]) + x
      && AccountsOk(w, masters, xs)
  {
    hide AccountOk, DistinctNames, HasName, ParseAccount, AccountBytes, LE, FromLE, Pow256;
    if n > 0 {
      AccountWrites(w, masters, done, d);
      var (a, rest) := ParseAccount(w, masters, done, d).value;
      NewNameStaysDistinct(w, masters, done, a);
      AccountsWrite(w, masters, n - 1, rest, done + [a]);
      var (xs, x) := ParseAccounts(w, masters, n, d, done).value;
      assert xs[|done|..][1..] == xs[|done + [a]|..];
      Assoc(AccountBytes(a), AccountsBytes(xs[|done|..][1..]), x);
    }
  }

  lemma {:induction false} RecipientsRead(ks: seq<Key32>, x: Bytes, done: seq<Key32>)
    ensures ParseRecipients(|ks|, RecipientsBytes(ks) + x, done) == Ok((done + ks, x))
  {
    hide LE, FromLE, Pow256;
    if ks == [] {
      assert done + ks == done && RecipientsBytes(ks) + x == x;
    } else {
      assert RecipientsBytes(ks) + x == ks[0] + (RecipientsBytes(ks[1..]) + x);
      TakeReads(ks[0], RecipientsBytes(ks[1..]) + x);
      RecipientsRead(ks[1..], x, done + [ks[0]]);
      assert done + [ks[0]] + ks[1..] == done + ks;
    }
  }

  lemma {:induction false} RecipientsWrite(n: nat, d: Bytes, done: seq<Key32>)
    requires ParseRecipients(n, d, done).Ok?
    ensures var (ks, x) := ParseRecipients(n, d, done).value;
      |ks| == |done| + n && done <= ks && d == RecipientsBytes(ks[|done|..]) + x
  {
    hide LE, FromLE, Pow256;
    if n > 0 {
      TakeWrites(d, 32);
      var (key, rest) := Take(d, 32).value;
      RecipientsWrite(n - 1, rest, done + [key]);
      var (ks, x) := ParseRecipients(n, d, done).value;
      assert ks[|done|..][1..] == ks[|done + [key]|..];
      assert d == key + (RecipientsBytes(ks[|done|..][1..]) + x);
    }
  }

  lemma ConfigReads(w: World, json: Bytes, settings: Settings, x: Bytes)
    requires 1 <= |json| <= MAX_SETTINGS_BYTES && w.fromJson(json) == Some(settings) && ValidSettings(w, settings)
    ensures ParseConfig(w, ConfigBytes(json) + x) == Ok((settings, x))
  {
    hide LE, FromLE, Pow256;
    FieldWidths();
    assert ConfigBytes(json) + x == LE(|json|, 4) + (json + x);
    NumberReads(|json|, 4, json + x);
    TakeReads(json, x);
  }

  lemma ConfigWrites(w: World, d: Bytes) returns (json: Bytes)
    requires ParseConfig(w, d).Ok?
    ensures var (settings, x) := ParseConfig(w, d).value;
      && 1 <= |json| <= MAX_SETTINGS_BYTES && w.fromJson(json) == Some(settings) && ValidSettings(w, settings)
      && d == ConfigBytes(json) + x
  {
    hide LE, FromLE, Pow256;
    var (settings, x) := ParseConfig(w, d).value;
    NumberWrites(d, 4);
    var (length, d1) := TakeNumber(d, 4).value;
    TakeWrites(d1, length);
    json := Take(d1, length).value.0;
    assert d == LE(|json|, 4) + (json + x);
  }

  lemma AuditReads(a: Audit, x: Bytes)
    requires a.Valid()
    ensures ParseAudit(AuditBytes(a) + x) == Ok((a, x))
  {
    hide LE, FromLE, Pow256;
    FieldWidths();
    assert AuditBytes(a) + x == LE(a.edits, 8) + (LE(a.lastEdit, 8) + x);
    NumberReads(a.edits, 8, LE(a.lastEdit, 8) + x);
    NumberReads(a.lastEdit, 8, x);
  }

  lemma AuditWrites(d: Bytes)
    requires ParseAudit(d).Ok?
    ensures var (a, x) := ParseAudit(d).value; a.Valid() && d == AuditBytes(a) + x
  {
    hide LE, FromLE, Pow256;
    FieldWidths();
    var (a, x) := ParseAudit(d).value;
    NumberWrites(d, 8);
    NumberWrites(TakeNumber(d, 8).value.1, 8);
    assert d == LE(a.edits, 8) + (LE(a.lastEdit, 8) + x);
  }

  // ---------------------------------------------------------------- the format as a whole

  /** A vault, a settings text and an audit that `decode` is meant to accept. */
  ghost predicate Acceptable(w: World, c: Contents, json: Bytes, audit: Audit) {
    && Shape(w, c)
    && 1 <= |json| <= MAX_SETTINGS_BYTES && w.fromJson(json) == Some(c.settings) && ValidSettings(w, c.settings)
    && audit.Valid()
  }

  // The layout, read from left to right with something after it.
  function MasterListThen(ms: seq<Master>, x: Bytes): Bytes { LE(|ms|, 1) + (MastersBytes(ms) + x) }
  function AccountListThen(xs: seq<Account>, x: Bytes): Bytes { LE(|xs|, 2) + (AccountsBytes(xs) + x) }
  function RecipientListThen(ks: seq<Key32>, x: Bytes): Bytes { LE(|ks|, 2) + (RecipientsBytes(ks) + x) }

  function WireThen(c: Contents, json: Bytes, audit: Audit, x: Bytes): Bytes {
    MasterListThen(c.masters, AccountListThen(c.accounts, RecipientListThen(c.recipients,
      ConfigBytes(json) + (AuditBytes(audit) + x))))
  }

  lemma Nest(a: Bytes, b: Bytes, c: Bytes, d: Bytes, e: Bytes, f: Bytes, g: Bytes, h: Bytes, x: Bytes)
    ensures (a + b + c + d + e + f) + g + h + x == a + (b + (c + (d + (e + (f + (g + (h + x)))))))
  {
    Assoc(a + b + c + d + e + f + g, h, x);
    Assoc(a + b + c + d + e + f, g, h + x);
    Assoc(a + b + c + d + e, f, g + (h + x));
    Assoc(a + b + c + d, e, f + (g + (h + x)));
    Assoc(a + b + c, d, e + (f + (g + (h + x))));
    Assoc(a + b, c, d + (e + (f + (g + (h + x)))));
    Assoc(a, b, c + (d + (e + (f + (g + (h + x))))));
  }

  lemma WireThenIsWire(c: Contents, json: Bytes, audit: Audit, x: Bytes)
    ensures Wire(c, json, audit) + x == WireThen(c, json, audit, x)
  {
    Nest(LE(|c.masters|, 1), MastersBytes(c.masters), LE(|c.accounts|, 2), AccountsBytes(c.accounts),
         LE(|c.recipients|, 2), RecipientsBytes(c.recipients), ConfigBytes(json), AuditBytes(audit), x);
  }

  lemma MasterListReads(ms: seq<Master>, x: Bytes)
    requires |ms| <= MAX_MASTERS && forall i :: 0 <= i < |ms| ==> MasterOk(ms[i])
    ensures ParseMasterList(MasterListThen(ms, x)) == Ok((ms, x))
  {
    hide LE, FromLE, Pow256;
    FieldWidths();
    NumberReads(|ms|, 1, MastersBytes(ms) + x);
    MastersRead(ms, x, []);
    assert [] + ms == ms;
  }

  lemma AccountListReads(w: World, masters: seq<Master>, xs: seq<Account>, x: Bytes)
    requires |masters| <= MAX_MASTERS && |xs| <= MAX_ACCOUNTS && AccountsOk(w, masters, xs)
    ensures ParseAccountList(w, masters, AccountListThen(xs, x)) == Ok((xs, x))
  {
    hide LE, FromLE, Pow256;
    FieldWidths();
    NumberReads(|xs|, 2, AccountsBytes(xs) + x);
    assert [] + xs == xs;
    AccountsRead(w, masters, xs, x, []);
  }

  lemma RecipientListReads(ks: seq<Key32>, x: Bytes)
    requires |ks| <= MAX_RECIPIENTS
    ensures ParseRecipientList(RecipientListThen(ks, x)) == Ok((ks, x))
  {
    hide LE, FromLE, Pow256;
    FieldWidths();
    NumberReads(|ks|, 2, RecipientsBytes(ks) + x);
    RecipientsRead(ks, x, []);
    assert [] + ks == ks;
  }

  lemma MasterListWrites(d: Bytes)
    requires ParseMasterList(d).Ok?
    ensures var (ms, x) := ParseMasterList(d).value;
      |ms| <= MAX_MASTERS && (forall i :: 0 <= i < |ms| ==> MasterOk(ms[i])) && d == MasterListThen(ms, x)
  {
    hide LE, FromLE, Pow256;
    NumberWrites(d, 1);
    var (count, rest) := TakeNumber(d, 1).value;
    MastersWrite(count, rest, []);
    var ms := ParseMasters(count, rest, []).value.0;
    assert ms[0..] == ms;
  }

  lemma AccountListWrites(w: World, masters: seq<Master>, d: Bytes)
    requires ParseAccountList(w, masters, d).Ok?
    ensures var (xs, x) := ParseAccountList(w, masters, d).value;
      |xs| <= MAX_ACCOUNTS && AccountsOk(w, masters, xs) && d == AccountListThen(xs, x)
  {
    hide LE, FromLE, Pow256;
    NumberWrites(d, 2);
    var (count, rest) := TakeNumber(d, 2).value;
    AccountsWrite(w, masters, count, rest, []);
    var xs := ParseAccounts(w, masters, count, rest, []).value.0;
    assert xs[0..] == xs;
  }

  lemma RecipientListWrites(d: Bytes)
    requires ParseRecipientList(d).Ok?
    ensures var (ks, x) := ParseRecipientList(d).value; |ks| <= MAX_RECIPIENTS && d == RecipientListThen(ks, x)
  {
    hide LE, FromLE, Pow256;
    NumberWrites(d, 2);
    var (count, rest) := TakeNumber(d, 2).value;
    RecipientsWrite(count, rest, []);
    var ks := ParseRecipients(count, rest, []).value.0;
    assert ks[0..] == ks;
  }

  lemma WireReads(w: World, c: Contents, json: Bytes, audit: Audit, x: Bytes)
    requires Acceptable(w, c, json, audit)
    ensures ParseVault(w, WireThen(c, json, audit, x)) == Ok(((c, audit), x))
  {
    hide LE, FromLE, Pow256;
    var d4 := AuditBytes(audit) + x;
    var d3 := ConfigBytes(json) + d4;
    var d2 := RecipientListThen(c.recipients, d3);
    MasterListReads(c.masters, AccountListThen(c.accounts, d2));
    AccountListReads(w, c.masters, c.accounts, d2);
    RecipientListReads(c.recipients, d3);
    ConfigReads(w, json, c.settings, d4);
    AuditReads(audit, x);
  }

  lemma WireWrites(w: World, d: Bytes) returns (json: Bytes)
    requires ParseVault(w, d).Ok?
    ensures var ((c, audit), x) := ParseVault(w, d).value;
      Acceptable(w, c, json, audit) && d == WireThen(c, json, audit, x)
  {
    hide ParseMasterList, ParseAccountList, ParseRecipientList, ParseConfig, ParseAudit,
      MasterListThen, AccountListThen, RecipientListThen, AccountOk, MasterOk, ValidSettings, LE, FromLE, Pow256;
    var ((c, audit), x) := ParseVault(w, d).value;
    MasterListWrites(d);
    var d1 := ParseMasterList(d).value.1;
    AccountListWrites(w, c.masters, d1);
    var d2 := ParseAccountList(w, c.masters, d1).value.1;
    RecipientListWrites(d2);
    var d3 := ParseRecipientList(d2).value.1;
    json := ConfigWrites(w, d3);
    AuditWrites(ParseConfig(w, d3).value.1);
  }

  /** `decode` accepts exactly the layout: nothing else, and everything that fits it. */
  lemma DecodeIsExact(w: World, d: Bytes, c: Contents, audit: Audit)
    ensures DecodeValue(w, d) == Ok((c, audit)) <==>
              exists json :: Acceptable(w, c, json, audit) && d == Wire(c, json, audit)
  {
    if DecodeValue(w, d) == Ok((c, audit)) {
      var json := WireWrites(w, d);
      WireThenIsWire(c, json, audit, []);
      assert Wire(c, json, audit) + [] == Wire(c, json, audit);
    }
    forall json | Acceptable(w, c, json, audit) && d == Wire(c, json, audit)
      ensures DecodeValue(w, d) == Ok((c, audit))
    {
      WireThenIsWire(c, json, audit, []);
      assert d + [] == d;
      WireReads(w, c, json, audit, []);
    }
  }

  /** No accepted file is a strict prefix of another. */
  lemma DecodeIsPrefixFree(w: World, d: Bytes, x: Bytes)
    requires DecodeValue(w, d).Ok? && DecodeValue(w, d + x).Ok?
    ensures x == []
  {
    var (c, audit) := DecodeValue(w, d).value;
    DecodeIsExact(w, d, c, audit);
    var json :| Acceptable(w, c, json, audit) && d == Wire(c, json, audit);
    WireThenIsWire(c, json, audit, x);
    WireReads(w, c, json, audit, x);
  }

  // ---------------------------------------------------------------- encoding

  function EncodeValue(w: World, c: Contents, audit: Audit): Result<Bytes, EncodeError> {
    if !audit.Valid() then Err(BadAudit)
    else if !ValidSettings(w, c.settings) then Err(BadSettings)
    else if !FitsOnDisk(w, c.settings) then Err(SettingsTooLong)
    else if |c.masters| > MAX_MASTERS || |c.accounts| > MAX_ACCOUNTS || |c.recipients| > MAX_RECIPIENTS
      then Err(LimitsExceeded)
    else Ok(Wire(c, w.toJson(c.settings), audit))
  }

  /** A vault that meets the invariant is written whenever its settings and audit are valid and its
      settings fit, and reading it back gives the same vault. */
  lemma EncodeRoundTrip(w: World, c: Contents, audit: Audit)
    requires w.Lawful() && Shape(w, c)
    ensures EncodeValue(w, c, audit).Ok? <==> audit.Valid() && ValidSettings(w, c.settings) && FitsOnDisk(w, c.settings)
    ensures EncodeValue(w, c, audit).Ok? ==> DecodeValue(w, EncodeValue(w, c, audit).value) == Ok((c, audit))
  {
    if EncodeValue(w, c, audit).Ok? {
      var json := w.toJson(c.settings);
      assert Acceptable(w, c, json, audit);
      DecodeIsExact(w, EncodeValue(w, c, audit).value, c, audit);
    }
  }

  /** Re-encoding an accepted file changes at most the settings text and its length field. */
  lemma ReencodeKeepsBytes(w: World, d: Bytes) returns (json: Bytes, post: Bytes)
    requires DecodeValue(w, d).Ok?
    ensures var (c, audit) := DecodeValue(w, d).value;
      && d == Front(c) + (LE(|json|, 4) + json) + post
      && w.fromJson(json) == Some(c.settings)
      && match EncodeValue(w, c, audit)
         case Ok(e) => e == Front(c) + (LE(|w.toJson(c.settings)|, 4) + w.toJson(c.settings)) + post
         case Err(error) => error == SettingsTooLong
  {
    var (c, audit) := DecodeValue(w, d).value;
    DecodeIsExact(w, d, c, audit);
    json :| Acceptable(w, c, json, audit) && d == Wire(c, json, audit);
    post := AuditBytes(audit);
  }
}
