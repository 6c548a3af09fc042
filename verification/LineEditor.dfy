/** The terminal line editor as it runs: it reads the terminal byte by byte and edits one buffer. */
module LineEditor {
  import opened Prelude
  import opened Utf8
  import opened Zipper
  import opened Keys
  import E = EditLine
  import H = CommandHistory

  class Terminal {
    var events: seq<Event>   // what the coming reads will meet

    constructor (events: seq<Event>)
      ensures this.events == events
    {
      this.events := events;
    }

    method ReadByteSoon() returns (r: Read)
      modifies this
      ensures (r, events) == ReadSoon(old(events))
    {
      if events == [] { return Ok(None); }
      var event := events[0];
      events := events[1..];
      match event
      case Key(b) => return Ok(Some(b));
      case Pause => return Ok(None);
      case Broken => return Err(());
    }

    method ReadByte() returns (r: Read)
      modifies this
      ensures (r, events) == Keys.ReadByte(old(events))
    {
      ghost var start := events;
      while events != [] && events[0].Pause?
        invariant Keys.ReadByte(events) == Keys.ReadByte(start)
        decreases |events|
      {
        events := events[1..];
      }
      r := ReadByteSoon();
    }
  }

  /** `escape_key`: one bounded sequence, of which only the arrows and delete mean anything. */
  method EscapeKey(terminal: Terminal) returns (r: Read)
    modifies terminal
    ensures (r, terminal.events) == ReadEscape(old(terminal.events))
  {
    var intro :- terminal.ReadByteSoon();
    if intro != Some(0x5B) && intro != Some(0x4F) { return Ok(None); }
    ghost var start := terminal.events;
    var sequence := new byte[ESCAPE_LIMIT](_ => 0);
    for index := 0 to sequence.Length
      invariant ReadSequence(sequence[..index], terminal.events) == ReadSequence([], start)
    {
      ghost var sofar := sequence[..index];
      var read :- terminal.ReadByteSoon();
      if read == None { return Ok(None); }
      sequence[index] := read.value;
      assert sequence[..index + 1] == sofar + [read.value];
      if 0x40 <= read.value <= 0x7E {
        return Ok(EscapeMeaning(sequence[..index + 1]));
      }
    }
    return Ok(None);
  }

  /** `insert_character`: decode one character as its bytes arrive and type it. */
  method InsertCharacter(line: E.EditLine, first: byte, terminal: Terminal)
    returns (r: Result<bool, ()>, pending: Option<byte>)
    requires line.Valid()
    modifies terminal, line`len, line`cursor, line`zip, line.bytes
    ensures line.Valid()
    ensures var (read, rest) := ReadChar(first, old(terminal.events));
      && terminal.events == rest
      && match read
         case CharFailed => r == Err(()) && line.zip == old(line.zip)
         case NotTyped(p) => r == Ok(false) && pending == p && line.zip == old(line.zip)
         case Typed(c) => r.Ok? && pending == None && line.zip == old(line.zip).Insert([c])
                          && (r.value <==> |Encode(c)| <= MAX_LINE - |old(line.zip).Bytes()|)
  {
    hide Encode, EncodeAll;
    pending := None;
    var length := CharLength(first);
    if length == 0 { return Ok(false), None; }
    ghost var start := terminal.events;
    var bytes := [first];
    for index := 1 to length
      invariant |bytes| == index && bytes[0] == first
      invariant ReadRest(bytes, length - index, terminal.events) == ReadRest([first], length - 1, start)
      invariant line.Valid() && line.zip == old(line.zip)
    {
      var read :- terminal.ReadByteSoon();
      if read.None? || !Continuation(read.value) { return Ok(false), read; }
      bytes := bytes + [read.value];
    }
    var text := Decode(bytes);
    OneSequence(bytes);
    if text.None? { return Ok(false), None; }
    var inserted := line.Insert(bytes);
    return Ok(inserted), None;
  }

  // A sequence as long as its first byte announces decodes exactly if it is one well-formed character.
  lemma OneSequence(b: Bytes)
    requires b != [] && |b| == LeadLength(b[0])
    ensures Decode(b).Some? <==> WellFormedOne(b)
    ensures WellFormedOne(b) ==> IsScalar(Number(b))
    ensures WellFormedOne(b) ==> Encode(Number(b) as char) == b && Decode(b) == Some([Number(b) as char])
    ensures WellFormedOne(b) ==> EncodeAll([Number(b) as char]) == b
  {
    hide Encode, WellFormedOne, Number, EncodeAll;
    assert b[..|b|] == b && b[|b|..] == [];
    if WellFormedOne(b) {
      WellFormedIsScalar(b);
      EncodeOne(Number(b) as char);
      DecodeEncodeAll([Number(b) as char]);
    } else {
      assert DecodeFirst(b) == None;
    }
  }

  /** The dispatch loop of `read_tty_line`: it makes of the terminal's events exactly the line that
      `Interpret` describes, its buffer is well-formed throughout, and it ends. */
  method ReadTtyLine(history: H.CommandHistory, terminal: Terminal, cancel: bool) returns (r: Outcome)
    requires history.Value().Valid()
    modifies history`position, history`draft, terminal
    ensures r == Interpret(Editor(Zipper("", ""), None, old(history.Value()).Begin()), cancel, old(terminal.events))
  {
    hide DispatchByte, EncodeAll;
    ghost var start := terminal.events;
    history.BeginLine();
    ghost var first := Editor(Zipper("", ""), None, history.Value());
    var line := new E.EditLine();
    var pending: Option<byte> := None;
    while true
      invariant line.Valid() && fresh(line) && fresh(line.bytes) && history.Value().Valid()
      invariant Interpret(Editor(line.zip, pending, history.Value()), cancel, terminal.events) == Interpret(first, cancel, start)
      decreases |terminal.events|, if pending.Some? then 1 else 0
    {
      ReadByteIsSuffix(terminal.events);
      var read: Read := Ok(pending);
      if pending.None? {
        read := terminal.ReadByte();
      }
      if read.Err? { return ReadFailed; }
      EmptyLine(line);
      if read.value.None? {
        if line.len == 0 { return EndOfInput; }
        return Closed;
      }
      TurnsEnd(Editor(line.zip, None, history.Value()), cancel, read.value.value, terminal.events);
      var outcome;
      outcome, pending := TakeByte(line, history, terminal, cancel, read.value.value);
      if outcome.Some? { return outcome.value; }
    }
  }

  // One turn of the loop: the outcome, if the line is finished, or the byte to look at next.
  method TakeByte(line: E.EditLine, history: H.CommandHistory, terminal: Terminal, cancel: bool, b: byte)
    returns (r: Option<Outcome>, pending: Option<byte>)
    requires line.Valid() && history.Value().Valid()
    modifies history`position, history`draft, terminal, line`len, line`cursor, line`zip, line.bytes
    ensures line.Valid() && history.Value().Valid()
    ensures match DispatchByte(Editor(old(line.zip), None, old(history.Value())), cancel, b, old(terminal.events))
            case Stop(outcome) => r == Some(outcome)
            case Go(e, rest) => r == None && e == Editor(line.zip, pending, history.Value()) && terminal.events == rest
  {
    hide ReadChar, ReadEscape, EncodeAll, Decode, Edited;
    EmptyLine(line);
    pending := None;
    if b == 4 && line.len == 0 { return Some(EndOfInput), None; }
    if b == 13 || b == 10 {
      var text := line.Text();
      return Some(Line(text)), None;
    }
    if b == 3 { return Some(if cancel then Cancelled else Line("")), None; }
    if b == 8 || b == 127 {
      line.Backspace();
    } else if b == 27 {
      var key := EscapeKey(terminal);
      if key.Err? { return Some(ReadFailed), None; }
      Dispatch(line, history, key.value);
    } else if b >= 0x20 {
      var inserted;
      inserted, pending := InsertCharacter(line, b, terminal);
      if inserted.Err? { return Some(ReadFailed), None; }
    }
    return None, pending;
  }

  lemma EmptyLine(line: E.EditLine)
    requires line.Valid()
    ensures line.len == 0 <==> line.zip.Text() == ""
  {
  }

  method Dispatch(line: E.EditLine, history: H.CommandHistory, key: Option<byte>)
    requires line.Valid() && history.Value().Valid()
    modifies history`position, history`draft, line`len, line`cursor, line`zip, line.bytes
    ensures line.Valid() && history.Value().Valid()
    ensures var e := Edited(Editor(old(line.zip), None, old(history.Value())), key);
      Editor(line.zip, None, history.Value()) == e
  {
    hide EncodeAll, Decode;
    if key == Some(0x41) {
      var text := line.Text();
      var previous := history.Older(text);
      if previous.Some? {
        DecodeEncodeAll(previous.value);
        line.Replace(EncodeAll(previous.value));
      }
    } else if key == Some(0x42) {
      var next := history.Newer();
      if next.Some? {
        DecodeEncodeAll(next.value);
        line.Replace(EncodeAll(next.value));
      }
    } else if key == Some(0x43) {
      line.Right();
    } else if key == Some(0x44) {
      line.Left();
    } else if key == Some(0x58) {
      line.Delete();
    }
  }
}
