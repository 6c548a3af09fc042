/** Reading a secret from the terminal without echo. */
module Secret {
  import opened Prelude
  import opened Utf8
  import opened Keys
  import L = LockedBytes
  import T = LineEditor

  datatype SecretError = InputFailed | InputClosed | InputCancelled | TooLong | NotUtf8

  // The text that the buffer ends up holding, given the bytes still to come
  function ReadSecretValue(capacity: nat, buffer: Bytes, events: seq<Event>): Result<string, SecretError>
    decreases |events|
  {
    ReadByteIsSuffix(events);
    var (read, rest) := ReadByte(events);
    match read
    case Err(_) => Err(InputFailed)
    case Ok(None) => Err(InputClosed)
    case Ok(Some(b)) =>
      if b == 10 || b == 13 then
        (match Decode(buffer) case Some(text) => Ok(text) case None => Err(NotUtf8))
      else if b == 3 || b == 4 then Err(InputCancelled)
      else if b == 8 || b == 127 then ReadSecretValue(capacity, buffer[..|buffer| - LastLength(buffer)], rest)
      else if |buffer| >= capacity then Err(TooLong)
      else ReadSecretValue(capacity, buffer + [b], rest)
  }

  /** `read_secret`: bytes are appended to locked storage, a backspace takes bytes off until it has taken
      one that starts a character, and nothing that was taken off remains in the storage. */
  method ReadSecret(terminal: T.Terminal, bytes: L.LockedBytes) returns (r: Result<string, SecretError>)
    requires bytes.Valid() && bytes.Text() == []
    modifies terminal, bytes`len, bytes.region
    ensures bytes.Valid()
    ensures r == ReadSecretValue(bytes.region.Length, [], old(terminal.events))
    ensures r.Ok? ==> bytes.Text() == EncodeAll(r.value)
  {
    hide EncodeAll;
    ghost var start := terminal.events;
    ghost var capacity := bytes.region.Length;
    while true
      invariant bytes.Valid()
      invariant ReadSecretValue(capacity, bytes.Text(), terminal.events) == ReadSecretValue(capacity, [], start)
      decreases |terminal.events|
    {
      ReadByteIsSuffix(terminal.events);
      var read := terminal.ReadByte();
      if read.Err? { return Err(InputFailed); }
      if read.value.None? { return Err(InputClosed); }
      var b := read.value.value;
      if b == 10 || b == 13 { break; }
      if b == 3 || b == 4 { return Err(InputCancelled); }
      if b == 8 || b == 127 {
        EraseLast(bytes);
      } else {
        if bytes.len == bytes.region.Length { return Err(TooLong); }
        var ok := bytes.ExtendFromSlice([b]);
      }
    }
    var text := Decode(bytes.region[..bytes.len]);
    return if text.Some? then Ok(text.value) else Err(NotUtf8);
  }

  // The inner loop of a backspace
  method EraseLast(bytes: L.LockedBytes)
    requires bytes.Valid()
    modifies bytes`len, bytes.region
    ensures bytes.Valid()
    ensures bytes.Text() == old(bytes.Text())[..|old(bytes.Text())| - LastLength(old(bytes.Text()))]
  {
    ghost var before := bytes.Text();
    while bytes.len > 0
      invariant bytes.Valid() && bytes.len <= |before| && bytes.Text() == before[..bytes.len]
      invariant LastLength(before) == |before| - bytes.len + LastLength(bytes.Text())
      decreases bytes.len
    {
      var last := bytes.region[bytes.len - 1];
      ghost var text := bytes.Text();
      bytes.Truncate(bytes.len - 1);
      assert text[..|text| - 1] == bytes.Text();
      if !Continuation(last) { return; }
    }
  }

  // ---------------------------------------------------------------- what is typed

  datatype SecretKey = Type(c: char) | Erase

  function SecretBytes(k: SecretKey): Bytes {
    match k
    case Type(c) => Encode(c)
    case Erase => [127]
  }

  function SecretStream(keys: seq<SecretKey>): seq<Event> {
    if keys == [] then [] else KeysOf(SecretBytes(keys[0])) + SecretStream(keys[1..])
  }

  // Characters pushed and popped, one backspace for one character
  function PushPop(text: string, k: SecretKey): string {
    match k
    case Type(c) => text + [c]
    case Erase => if text == "" then "" else text[..|text| - 1]
  }

  function TypedText(text: string, keys: seq<SecretKey>): string
    decreases |keys|
  {
    if keys == [] then text else TypedText(PushPop(text, keys[0]), keys[1..])
  }

  // The text fits the buffer all along
  predicate StaysWithin(capacity: nat, text: string, keys: seq<SecretKey>)
    decreases |keys|
  {
    |EncodeAll(text)| <= capacity && (keys != [] ==> StaysWithin(capacity, PushPop(text, keys[0]), keys[1..]))
  }

  predicate Plain(c: char) { c as int !in {3, 4, 8, 10, 13, 127} }

  lemma {:induction false} PushBytes(capacity: nat, buffer: Bytes, b: Bytes, rest: seq<Event>)
    requires |buffer| <= capacity && forall i :: 0 <= i < |b| ==> b[i] !in {3, 4, 8, 10, 13, 127}
    ensures ReadSecretValue(capacity, buffer, KeysOf(b) + rest)
      == if |buffer| + |b| <= capacity then ReadSecretValue(capacity, buffer + b, rest) else Err(TooLong)
    decreases |b|
  {
    if b == [] {
      assert KeysOf(b) + rest == rest && buffer + b == buffer;
    } else {
      var events := KeysOf(b) + rest;
      assert events[0] == Key(b[0]) && events[1..] == KeysOf(b[1..]) + rest;
      if |buffer| < capacity {
        PushBytes(capacity, buffer + [b[0]], b[1..], rest);
        assert buffer + [b[0]] + b[1..] == buffer + b;
      }
    }
  }

  lemma PlainBytes(c: char)
    requires Plain(c)
    ensures forall i :: 0 <= i < |Encode(c)| ==> Encode(c)[i] !in {3, 4, 8, 10, 13, 127}
  {
  }

  lemma OneSecretKey(capacity: nat, text: string, k: SecretKey, rest: seq<Event>)
    requires |EncodeAll(text)| <= capacity && (k.Type? ==> Plain(k.c))
    ensures ReadSecretValue(capacity, EncodeAll(text), KeysOf(SecretBytes(k)) + rest)
      == if |EncodeAll(PushPop(text, k))| <= capacity
         then ReadSecretValue(capacity, EncodeAll(PushPop(text, k)), rest) else Err(TooLong)
  {
    hide Encode, EncodeAll;
    var events := KeysOf(SecretBytes(k)) + rest;
    match k
    case Type(c) =>
      PlainBytes(c);
      EncodeAppend(text, [c]);
      EncodeOne(c);
      PushBytes(capacity, EncodeAll(text), Encode(c), rest);
    case Erase =>
      assert events[0] == Key(127) && events[1..] == rest;
      PopText(text);
  }

  // Taking the last character off the bytes is taking it off the text.
  lemma PopText(text: string)
    ensures EncodeAll(PushPop(text, Erase)) == EncodeAll(text)[..|EncodeAll(text)| - LastLength(EncodeAll(text))]
    ensures |EncodeAll(PushPop(text, Erase))| <= |EncodeAll(text)|
  {
    hide Encode, LastLength;
    if text == "" {
      NoBytes();
    } else {
      var front, c := text[..|text| - 1], text[|text| - 1];
      assert text == front + [c];
      EncodeAppend(front, [c]);
      EncodeOne(c);
      LastOfEncoded(EncodeAll(front), c);
    }
  }

  lemma NoBytes()
    ensures EncodeAll("") == [] && LastLength([]) == 0
  {
  }

  // Any keys, and what comes after them
  lemma {:induction false} SecretThen(capacity: nat, text: string, keys: seq<SecretKey>, tail: seq<Event>)
    requires |EncodeAll(text)| <= capacity
    requires forall i :: 0 <= i < |keys| && keys[i].Type? ==> Plain(keys[i].c)
    ensures ReadSecretValue(capacity, EncodeAll(text), SecretStream(keys) + tail)
      == if StaysWithin(capacity, text, keys) then ReadSecretValue(capacity, EncodeAll(TypedText(text, keys)), tail) else Err(TooLong)
    decreases |keys|
  {
    hide EncodeAll, Decode, Encode, LastLength, ReadSecretValue;
    if keys == [] {
      assert SecretStream(keys) + tail == tail;
    } else {
      var more := SecretStream(keys[1..]) + tail;
      assert SecretStream(keys) + tail == KeysOf(SecretBytes(keys[0])) + more;
      OneSecretKey(capacity, text, keys[0], more);
      if |EncodeAll(PushPop(text, keys[0]))| <= capacity {
        SecretThen(capacity, PushPop(text, keys[0]), keys[1..], tail);
      }
    }
  }

  /** The secret is what was typed: as long as it fits, the text with one character taken off for each
      backspace, however many bytes that character has; and an error as soon as it does not fit. */
  lemma SecretIsTypedText(capacity: nat, text: string, keys: seq<SecretKey>, end: byte, rest: seq<Event>)
    requires |EncodeAll(text)| <= capacity && end in {10, 13}
    requires forall i :: 0 <= i < |keys| && keys[i].Type? ==> Plain(keys[i].c)
    ensures ReadSecretValue(capacity, EncodeAll(text), SecretStream(keys) + ([Key(end)] + rest))
      == if StaysWithin(capacity, text, keys) then Ok(TypedText(text, keys)) else Err(TooLong)
  {
    hide EncodeAll, Decode, Encode, LastLength;
    SecretThen(capacity, text, keys, [Key(end)] + rest);
    DecodeEncodeAll(TypedText(text, keys));
  }

  /** How else reading ends, after any keys that fit: Ctrl-C and Ctrl-D cancel, and the end of the stream or
      a failing read is an error; byte 8 erases as byte 127 does. */
  lemma OtherSecretEndings(capacity: nat, text: string, keys: seq<SecretKey>, b: byte, rest: seq<Event>)
    requires |EncodeAll(text)| <= capacity && StaysWithin(capacity, text, keys)
    requires forall i :: 0 <= i < |keys| && keys[i].Type? ==> Plain(keys[i].c)
    ensures var stream := SecretStream(keys);
      && (b in {3, 4} ==> ReadSecretValue(capacity, EncodeAll(text), stream + ([Key(b)] + rest)) == Err(InputCancelled))
      && ReadSecretValue(capacity, EncodeAll(text), stream) == Err(InputClosed)
      && ReadSecretValue(capacity, EncodeAll(text), stream + ([Broken] + rest)) == Err(InputFailed)
      && ReadSecretValue(capacity, EncodeAll(text), stream + ([Key(8)] + rest))
           == ReadSecretValue(capacity, EncodeAll(text), stream + ([Key(127)] + rest))
  {
    hide EncodeAll, Decode, Encode, LastLength;
    assert SecretStream(keys) + [] == SecretStream(keys);
    SecretThen(capacity, text, keys, [Key(b)] + rest);
    SecretThen(capacity, text, keys, []);
    SecretThen(capacity, text, keys, [Broken] + rest);
    SecretThen(capacity, text, keys, [Key(8)] + rest);
    SecretThen(capacity, text, keys, [Key(127)] + rest);
    assert ([Key(8)] + rest)[1..] == rest && ([Key(127)] + rest)[1..] == rest;
  }
}
