/** The vault file: a 48-byte authenticated header, then the encrypted plaintext and its tag. */
module Envelope {
  import opened Prelude
  import opened Configuration
  import opened VaultValue
  import opened Audit
  import opened Codec
  import Serializer

  const MAGIC: Bytes := [0x53, 0x4F, 0x4C, 0x58]   // "SOLX"
  const VERSION: byte := 5
  const KDF_ID: byte := 1
  const ARGON2_VERSION: byte := 0x13
  const HEADER_LEN: int := 48
  const MAX_FILE: int := 1024 * 1024

  type Salt = b: Bytes | |b| == 16 witness seq(16, _ => 0)
  type Nonce = b: Bytes | |b| == 12 witness seq(12, _ => 0)

  datatype Params = Params(memoryKib: u32, passes: u32, lanes: u32)

  const PROFILE: Params := Params(65536, 3, 4)   // the only profile `from_costs` accepts

  datatype Header = Header(params: Params, salt: Salt, nonce: Nonce)

  datatype OpenError =
    | BadHeader | UnsupportedFormat | BadLength | UnsupportedKdf | UnsupportedProfile
    | NotAuthentic | BadContents(error: DecodeError)

  function ParseHeader(bytes: Bytes): Result<Header, OpenError> {
    FieldWidths();
    if |bytes| < 5 || bytes[..4] != MAGIC then Err(BadHeader)
    else if bytes[4] != VERSION then Err(UnsupportedFormat)
    else if |bytes| < HEADER_LEN + 16 || |bytes| > MAX_FILE then Err(BadLength)
    else if bytes[5] != KDF_ID || bytes[6] != ARGON2_VERSION || bytes[7] != 0 then Err(UnsupportedKdf)
    else
      var params := Params(FromLE(bytes[8..12]), FromLE(bytes[12..16]), FromLE(bytes[16..20]));
      if params != PROFILE then Err(UnsupportedProfile)
      else Ok(Header(params, bytes[20..36], bytes[36..48]))
  }

  function EncodeHeader(h: Header): (b: Bytes)
    ensures |b| == HEADER_LEN
  {
    MAGIC + [VERSION, KDF_ID, ARGON2_VERSION, 0]
    + LE(h.params.memoryKib, 4) + LE(h.params.passes, 4) + LE(h.params.lanes, 4)
    + h.salt + h.nonce
  }

  lemma HeaderSlices(h: Header, rest: Bytes)
    ensures var b := EncodeHeader(h) + rest;
      && b[..4] == MAGIC && b[4] == VERSION && b[5] == KDF_ID && b[6] == ARGON2_VERSION && b[7] == 0
      && b[8..12] == LE(h.params.memoryKib, 4) && b[12..16] == LE(h.params.passes, 4)
      && b[16..20] == LE(h.params.lanes, 4) && b[20..36] == h.salt && b[36..48] == h.nonce
      && b[..48] == EncodeHeader(h) && b[48..] == rest
  {
    hide LE;
  }

  /** Writing a header and parsing the file gives the header back. */
  lemma HeaderRoundTrip(h: Header, rest: Bytes)
    requires h.params == PROFILE && 16 <= |rest| <= MAX_FILE - HEADER_LEN
    ensures ParseHeader(EncodeHeader(h) + rest) == Ok(h)
  {
    hide LE, FromLE, EncodeHeader;
    FieldWidths();
    HeaderSlices(h, rest);
    FieldRoundTrip(h.params.memoryKib, 4);
    FieldRoundTrip(h.params.passes, 4);
    FieldRoundTrip(h.params.lanes, 4);
  }

  /** A parsed header is exactly the first 48 bytes of the file. */
  lemma HeaderIsCanonical(bytes: Bytes)
    requires ParseHeader(bytes).Ok?
    ensures EncodeHeader(ParseHeader(bytes).value) == bytes[..HEADER_LEN]
    ensures ParseHeader(bytes).value.params == PROFILE
  {
    hide LE, FromLE;
    FieldIsCanonical(bytes[8..12]);
    FieldIsCanonical(bytes[12..16]);
    FieldIsCanonical(bytes[16..20]);
    var b := bytes[..HEADER_LEN];
    assert b == b[..4] + b[4..8] + b[8..12] + b[12..16] + b[16..20] + b[20..36] + b[36..48];
    assert b[4..8] == [VERSION, KDF_ID, ARGON2_VERSION, 0];
  }

  /** The header, byte by byte: magic, version 5, Argon2id 1.3, 65536 KiB in 3 passes and 4 lanes, salt and nonce. */
  lemma HeaderBytes(salt: Salt, nonce: Nonce)
    ensures EncodeHeader(Header(PROFILE, salt, nonce)) ==
      [0x53, 0x4F, 0x4C, 0x58, 5, 1, 0x13, 0] + [0, 0, 1, 0, 3, 0, 0, 0, 4, 0, 0, 0] + salt + nonce
  {
    assert LE(0, 1) == [0] && LE(1, 1) == [1];
    assert LE(0, 2) == [0] + LE(0, 1) && LE(1, 2) == [1] + LE(0, 1);
    assert LE(0, 3) == [0] + LE(0, 2) && LE(256, 3) == [0] + LE(1, 2);
    assert LE(3, 4) == [3] + LE(0, 3) && LE(4, 4) == [4] + LE(0, 3) && LE(65536, 4) == [0] + LE(256, 3);
  }

  // ---------------------------------------------------------------- sealing and opening

  datatype Opened = Opened(salt: Salt, contents: Contents, audit: Audit)

  /** The bytes of a vault file: what `save` writes. */
  function Seal(w: World, salt: Salt, nonce: Nonce, c: Contents, audit: Audit): Result<Bytes, EncodeError> {
    var plain :- EncodeValue(w, c, audit);
    var header := EncodeHeader(Header(PROFILE, salt, nonce));
    Ok(header + w.encrypt(w.kdf(salt), nonce, header, plain))
  }

  /** What the owner of the password reads from a vault file. */
  function Open(w: World, file: Bytes): Result<Opened, OpenError> {
    var header :- ParseHeader(file);
    match w.decrypt(w.kdf(header.salt), header.nonce, file[..HEADER_LEN], file[HEADER_LEN..])
    case None => Err(NotAuthentic)
    case Some(plain) =>
      match DecodeValue(w, plain)
      case Err(e) => Err(BadContents(e))
      case Ok((c, audit)) => Ok(Opened(header.salt, c, audit))
  }

  /** A sealed vault opens to itself. */
  lemma SealedOpens(w: World, salt: Salt, nonce: Nonce, c: Contents, audit: Audit)
    requires w.Lawful() && Shape(w, c) && Seal(w, salt, nonce, c, audit).Ok?
    ensures Open(w, Seal(w, salt, nonce, c, audit).value) == Ok(Opened(salt, c, audit))
    ensures |Seal(w, salt, nonce, c, audit).value| < MAX_FILE
  {
    hide ParseHeader, EncodeHeader, EncodeValue, DecodeValue, Shape;
    EncodeRoundTrip(w, c, audit);
    var plain := EncodeValue(w, c, audit).value;
    PlainIsShort(w, c, audit);
    var h := Header(PROFILE, salt, nonce);
    var header := EncodeHeader(h);
    var cipher := w.encrypt(w.kdf(salt), nonce, header, plain);
    assert |cipher| == |plain| + 16 && w.decrypt(w.kdf(salt), nonce, header, cipher) == Some(plain);
    HeaderRoundTrip(h, cipher);
    assert (header + cipher)[..HEADER_LEN] == header && (header + cipher)[HEADER_LEN..] == cipher;
  }

  lemma PlainIsShort(w: World, c: Contents, audit: Audit)
    requires Shape(w, c) && EncodeValue(w, c, audit).Ok?
    ensures |EncodeValue(w, c, audit).value| + 64 < MAX_FILE
  {
    Serializer.SizeIsExact(w, c, w.toJson(c.settings), audit);
  }

  /** Two saves can only have produced the same bytes from equal vaults, whatever nonces they drew. */
  lemma EqualFilesEqualVaults(w: World, salt1: Salt, nonce1: Nonce, c1: Contents, audit1: Audit,
                              salt2: Salt, nonce2: Nonce, c2: Contents, audit2: Audit)
    requires w.Lawful() && Shape(w, c1) && Shape(w, c2)
    requires Seal(w, salt1, nonce1, c1, audit1).Ok?
    requires Seal(w, salt1, nonce1, c1, audit1) == Seal(w, salt2, nonce2, c2, audit2)
    ensures c1 == c2 && audit1 == audit2 && salt1 == salt2
  {
    SealedOpens(w, salt1, nonce1, c1, audit1);
    SealedOpens(w, salt2, nonce2, c2, audit2);
  }

  // ---------------------------------------------------------------- what opens

  /** `file` is a header of the supported profile, followed by a cipher text that authenticates under the
      key of its salt, its nonce and the header, and decrypts to the layout of the vault around `json`. */
  ghost predicate IsVaultFile(w: World, file: Bytes, salt: Salt, c: Contents, audit: Audit,
                              nonce: Nonce, cipher: Bytes, json: Bytes)
  {
    && file == EncodeHeader(Header(PROFILE, salt, nonce)) + cipher
    && HEADER_LEN + 16 <= |file| <= MAX_FILE
    && w.decrypt(w.kdf(salt), nonce, file[..HEADER_LEN], cipher) == Some(Wire(c, json, audit))
    && Acceptable(w, c, json, audit)
  }

  ghost predicate VaultFile(w: World, file: Bytes, salt: Salt, c: Contents, audit: Audit) {
    exists nonce: Nonce, cipher: Bytes, json: Bytes :: IsVaultFile(w, file, salt, c, audit, nonce, cipher, json)
  }

  lemma OpenedIsVaultFile(w: World, file: Bytes)
    requires Open(w, file).Ok?
    ensures var o := Open(w, file).value; VaultFile(w, file, o.salt, o.contents, o.audit)
  {
    hide ParseHeader, EncodeHeader, DecodeValue, Acceptable, Wire;
    var o, h := Open(w, file).value, ParseHeader(file).value;
    HeaderIsCanonical(file);
    LongEnough(file);
    var cipher := file[HEADER_LEN..];
    var plain := w.decrypt(w.kdf(h.salt), h.nonce, file[..HEADER_LEN], cipher).value;
    DecodeIsExact(w, plain, o.contents, o.audit);
    var json :| Acceptable(w, o.contents, json, o.audit) && plain == Wire(o.contents, json, o.audit);
    assert file == file[..HEADER_LEN] + cipher;
    assert IsVaultFile(w, file, o.salt, o.contents, o.audit, h.nonce, cipher, json);
  }

  lemma LongEnough(file: Bytes)
    requires ParseHeader(file).Ok?
    ensures HEADER_LEN + 16 <= |file| <= MAX_FILE
  {
  }

  lemma VaultFileOpens(w: World, file: Bytes, salt: Salt, c: Contents, audit: Audit)
    requires VaultFile(w, file, salt, c, audit)
    ensures Open(w, file) == Ok(Opened(salt, c, audit))
  {
    hide ParseHeader, EncodeHeader, DecodeValue, Acceptable, Wire;
    var nonce: Nonce, cipher: Bytes, json: Bytes :| IsVaultFile(w, file, salt, c, audit, nonce, cipher, json);
    var header := EncodeHeader(Header(PROFILE, salt, nonce));
    HeaderRoundTrip(Header(PROFILE, salt, nonce), cipher);
    assert file[..HEADER_LEN] == header && file[HEADER_LEN..] == cipher;
    DecodeIsExact(w, Wire(c, json, audit), c, audit);
  }

  /** A file opens to a vault exactly when it is an authentic file of that vault. A file that was changed
      anywhere so that it no longer authenticates, or is anything else, does not open. */
  lemma OpenIff(w: World, file: Bytes, salt: Salt, c: Contents, audit: Audit)
    ensures Open(w, file) == Ok(Opened(salt, c, audit)) <==> VaultFile(w, file, salt, c, audit)
  {
    hide Open, VaultFile;
    if Open(w, file).Ok? { OpenedIsVaultFile(w, file); }
    if VaultFile(w, file, salt, c, audit) { VaultFileOpens(w, file, salt, c, audit); }
  }

  /** What `Seal` writes is such a file, with the cipher text of the layout around the printed settings. */
  lemma SealWritesVaultFile(w: World, salt: Salt, nonce: Nonce, c: Contents, audit: Audit)
    requires w.Lawful() && Shape(w, c) && Seal(w, salt, nonce, c, audit).Ok?
    ensures var file, json := Seal(w, salt, nonce, c, audit).value, w.toJson(c.settings);
      var header := EncodeHeader(Header(PROFILE, salt, nonce));
      var cipher := w.encrypt(w.kdf(salt), nonce, header, Wire(c, json, audit));
      file == header + cipher && IsVaultFile(w, file, salt, c, audit, nonce, cipher, json)
  {
    hide EncodeHeader, Shape, Wire, ValidSettings;
    var json := w.toJson(c.settings);
    var header := EncodeHeader(Header(PROFILE, salt, nonce));
    var cipher := w.encrypt(w.kdf(salt), nonce, header, Wire(c, json, audit));
    PlainIsShort(w, c, audit);
    assert |cipher| == |Wire(c, json, audit)| + 16;
    assert (header + cipher)[..HEADER_LEN] == header;
  }
}
