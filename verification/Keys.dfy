/** What the terminal line editor makes of incoming bytes: characters decoded as they arrive, escape
    sequences, and the dispatch of every key. */
module Keys {
  import opened Prelude
  import opened Utf8
  import opened Zipper
  import opened CommandHistory

  /** What the next read of the terminal meets. A pause is 50 ms without input, which only a timed read
      notices; at the end of the list the terminal is closed. */
  datatype Event = Key(b: byte) | Pause | Broken

  // What a read returned: a byte or nothing, unless it failed
  type Read = Result<Option<byte>, ()>

  // read_byte_soon
  function ReadSoon(events: seq<Event>): (Read, seq<Event>) {
    if events == [] then (Ok(None), [])
    else
      match events[0]
      case Key(b) => (Ok(Some(b)), events[1..])
      case Pause => (Ok(None), events[1..])
      case Broken => (Err(()), events[1..])
  }

  // read_byte
  function ReadByte(events: seq<Event>): (Read, seq<Event>) {
    if events == [] then (Ok(None), [])
    else
      match events[0]
      case Key(b) => (Ok(Some(b)), events[1..])
      case Pause => ReadByte(events[1..])
      case Broken => (Err(()), events[1..])
  }

  // ---------------------------------------------------------------- one character

  datatype CharRead =
    | Typed(c: char)                     // one whole character
    | NotTyped(pending: Option<byte>)    // none; the byte that interrupted it, if any, comes next
    | CharFailed

  // The continuation bytes after `start`, up to `need` of them
  function ReadRest(start: Bytes, need: nat, events: seq<Event>): (CharRead, seq<Event>)
    requires start != []
    decreases need
  {
    if need == 0 then
      (if WellFormedOne(start) then WellFormedIsScalar(start); Typed(Number(start) as char) else NotTyped(None), events)
    else
      var (read, rest) := ReadSoon(events);
      match read
      case Err(_) => (CharFailed, rest)
      case Ok(None) => (NotTyped(None), rest)
      case Ok(Some(b)) =>
        if Continuation(b) then ReadRest(start + [b], need - 1, rest) else (NotTyped(Some(b)), rest)
  }

  // The length the first byte announces; control characters and stray bytes start no character
  function CharLength(first: byte): nat {
    if first < 0x20 || first == 0x7F then 0 else LeadLength(first)
  }

  function ReadChar(first: byte, events: seq<Event>): (CharRead, seq<Event>) {
    if CharLength(first) == 0 then (NotTyped(None), events) else ReadRest([first], CharLength(first) - 1, events)
  }

  function KeysOf(b: Bytes): seq<Event> { seq(|b|, i requires 0 <= i < |b| => Key(b[i])) }

  predicate Printable(c: char) { c as int >= 0x20 && c as int != 0x7F }

  lemma {:induction false} ReadRestReads(start: Bytes, tail: Bytes, rest: seq<Event>)
    requires start != [] && forall i :: 0 <= i < |tail| ==> Continuation(tail[i])
    ensures ReadRest(start, |tail|, KeysOf(tail) + rest) == ReadRest(start + tail, 0, rest)
    decreases |tail|
  {
    if tail == [] {
      assert KeysOf(tail) + rest == rest && start + tail == start;
    } else {
      assert (KeysOf(tail) + rest)[1..] == KeysOf(tail[1..]) + rest;
      ReadRestReads(start + [tail[0]], tail[1..], rest);
      assert start + [tail[0]] + tail[1..] == start + tail;
    }
  }

  /** Every printable character is decoded from its bytes, and nothing after it is touched. */
  lemma CharactersAreRead(c: char, rest: seq<Event>)
    requires Printable(c)
    ensures ReadChar(Encode(c)[0], KeysOf(Encode(c)[1..]) + rest) == (Typed(c), rest)
  {
    EncodedIsWellFormed(c);
    var b := Encode(c);
    assert b == [b[0]] + b[1..];
    ReadRestReads([b[0]], b[1..], rest);
  }

  /** Whatever arrives, a character is typed only if the bytes taken are exactly its encoding. If none
      is, a byte that broke it off is handed back and is the last byte taken: none is lost or doubled. */
  lemma {:induction false} ReadRestAccounts(start: Bytes, need: nat, events: seq<Event>)
    requires start != []
    ensures var (r, rest) := ReadRest(start, need, events);
      && |rest| <= |events| && rest == events[|events| - |rest|..]
      && (r.Typed? ==> KeysOf(Encode(r.c)) == KeysOf(start) + events[..|events| - |rest|])
      && (r.NotTyped? && r.pending.Some? ==>
            |rest| < |events| && events[|events| - |rest| - 1] == Key(r.pending.value) && !Continuation(r.pending.value))
      && (forall i :: 0 <= i < |events| - |rest| - 1 ==> events[i].Key? && Continuation(events[i].b))
    decreases need
  {
    if need > 0 && events != [] && events[0].Key? && Continuation(events[0].b) {
      var b := events[0].b;
      ReadRestAccounts(start + [b], need - 1, events[1..]);
      var (r, rest) := ReadRest(start, need, events);
      assert events == [Key(b)] + events[1..];
      assert KeysOf(start + [b]) == KeysOf(start) + [Key(b)];
      var n := |events| - |rest|;
      assert events[..n] == [Key(b)] + events[1..][..n - 1];
    } else if need == 0 && WellFormedOne(start) {
      WellFormedIsScalar(start);
    }
  }

  lemma CharacterAccounts(first: byte, events: seq<Event>)
    ensures var (r, rest) := ReadChar(first, events);
      && |rest| <= |events| && rest == events[|events| - |rest|..]
      && (r.Typed? ==> Printable(r.c) && KeysOf(Encode(r.c)) == [Key(first)] + events[..|events| - |rest|])
      && (r.NotTyped? && r.pending.Some? ==>
            |rest| < |events| && events[|events| - |rest| - 1] == Key(r.pending.value) && !Continuation(r.pending.value))
      && (forall i :: 0 <= i < |events| - |rest| - 1 ==> events[i].Key? && Continuation(events[i].b))
  {
    if CharLength(first) > 0 {
      ReadRestAccounts([first], CharLength(first) - 1, events);
      var (r, rest) := ReadChar(first, events);
      assert KeysOf([first]) == [Key(first)];
      if r.Typed? {
        assert KeysOf(Encode(r.c))[0] == Key(first);
      }
    }
  }

  lemma CharacterShrinks(first: byte, events: seq<Event>)
    ensures var (r, rest) := ReadChar(first, events);
      |rest| <= |events| && (r.NotTyped? && r.pending.Some? ==> |rest| < |events|)
  {
    CharacterAccounts(first, events);
  }

  // ---------------------------------------------------------------- escape sequences

  const ESCAPE_LIMIT: int := 16

  function EscapeMeaning(sequence: Bytes): Option<byte> {
    if |sequence| == 1 && 0x41 <= sequence[0] <= 0x44 then Some(sequence[0])   // A, B, C, D
    else if sequence == [0x33, 0x7E] then Some(0x58)                            // "3~" is X
    else None
  }

  function ReadSequence(sofar: Bytes, events: seq<Event>): (Read, seq<Event>)
    requires |sofar| <= ESCAPE_LIMIT
    decreases ESCAPE_LIMIT - |sofar|
  {
    if |sofar| == ESCAPE_LIMIT then (Ok(None), events)
    else
      var (read, rest) := ReadSoon(events);
      match read
      case Err(e) => (Err(e), rest)
      case Ok(None) => (Ok(None), rest)
      case Ok(Some(b)) =>
        if 0x40 <= b <= 0x7E then (Ok(EscapeMeaning(sofar + [b])), rest) else ReadSequence(sofar + [b], rest)
  }

  function ReadEscape(events: seq<Event>): (Read, seq<Event>) {
    var (read, rest) := ReadSoon(events);
    match read
    case Err(e) => (Err(e), rest)
    case Ok(intro) => if intro == Some(0x5B) || intro == Some(0x4F) then ReadSequence([], rest) else (Ok(None), rest)
  }

  lemma {:induction false} SequenceIsBounded(sofar: Bytes, events: seq<Event>)
    requires |sofar| <= ESCAPE_LIMIT
    ensures var rest := ReadSequence(sofar, events).1;
      |rest| <= |events| && rest == events[|events| - |rest|..] && |events| - |rest| <= ESCAPE_LIMIT - |sofar|
    decreases ESCAPE_LIMIT - |sofar|
  {
    if |sofar| < ESCAPE_LIMIT && events != [] && events[0].Key? {
      SequenceIsBounded(sofar + [events[0].b], events[1..]);
    }
  }

  /** An escape sequence takes at most 17 bytes, whatever they are. */
  lemma EscapeIsBounded(events: seq<Event>)
    ensures var rest := ReadEscape(events).1;
      |rest| <= |events| && rest == events[|events| - |rest|..] && |events| - |rest| <= 17
  {
    if events != [] {
      SequenceIsBounded([], events[1..]);
    }
  }

  lemma {:induction false} ReadByteIsSuffix(events: seq<Event>)
    ensures var rest := ReadByte(events).1;
      |rest| <= |events| && rest == events[|events| - |rest|..]
      && (ReadByte(events).0 != Ok(None) ==> |rest| < |events|)
  {
    if events != [] && events[0].Pause? {
      ReadByteIsSuffix(events[1..]);
    }
  }

  // ---------------------------------------------------------------- the dispatch loop

  datatype Outcome = Line(text: string) | EndOfInput | Closed | Cancelled | ReadFailed

  /** The state of the loop: the line, a byte handed back, and the recalled commands. */
  datatype Editor = Editor(zip: Zipper, pending: Option<byte>, recall: Recall)

  function Edited(e: Editor, key: Option<byte>): Editor
    requires e.recall.Valid()
  {
    if key == Some(0x41) then
      var (recall, line) := e.recall.Older(e.zip.Text());
      e.(recall := recall, zip := if line.Some? then e.zip.Replace(line.value) else e.zip)
    else if key == Some(0x42) then
      var (recall, line) := e.recall.Newer();
      e.(recall := recall, zip := if line.Some? then e.zip.Replace(line.value) else e.zip)
    else if key == Some(0x43) then e.(zip := e.zip.MoveRight())
    else if key == Some(0x44) then e.(zip := e.zip.MoveLeft())
    else if key == Some(0x58) then e.(zip := e.zip.Delete())
    else e
  }

  function NextByte(e: Editor, events: seq<Event>): (Read, seq<Event>) {
    if e.pending.Some? then (Ok(e.pending), events) else ReadByte(events)
  }

  datatype Turn = Stop(outcome: Outcome) | Go(editor: Editor, events: seq<Event>)

  // What the loop does with one byte
  function DispatchByte(e: Editor, cancel: bool, b: byte, rest: seq<Event>): Turn
    requires e.recall.Valid()
  {
    if b == 4 && e.zip.Text() == "" then Stop(EndOfInput)
    else if b == 13 || b == 10 then Stop(Line(e.zip.Text()))
    else if b == 3 then Stop(if cancel then Cancelled else Line(""))
    else if b == 8 || b == 127 then Go(e.(zip := e.zip.Backspace()), rest)
    else if b == 27 then
      var (key, rest') := ReadEscape(rest);
      if key.Err? then Stop(ReadFailed) else Go(Edited(e, key.value), rest')
    else if b >= 0x20 then
      var (c, rest') := ReadChar(b, rest);
      match c
      case CharFailed => Stop(ReadFailed)
      case Typed(c) => Go(e.(zip := e.zip.Insert([c])), rest')
      case NotTyped(p) => Go(e.(pending := p), rest')
    else Go(e, rest)
  }

  // The loop makes progress: a byte is only handed back after another was taken.
  lemma TurnsEnd(e: Editor, cancel: bool, b: byte, rest: seq<Event>)
    requires e.recall.Valid() && e.pending == None
    ensures match DispatchByte(e, cancel, b, rest)
            case Stop(_) => true
            case Go(e', rest') => e'.recall.Valid() && |rest'| <= |rest| && (e'.pending.Some? ==> |rest'| < |rest|)
  {
    hide ReadEscape, ReadChar;
    EscapeIsBounded(rest);
    CharacterShrinks(b, rest);
  }

  /** The line that a stream of terminal events makes. */
  function Interpret(e: Editor, cancel: bool, events: seq<Event>): Outcome
    requires e.recall.Valid()
    decreases |events|, if e.pending.Some? then 1 else 0
  {
    ReadByteIsSuffix(events);
    var (read, rest) := NextByte(e, events);
    var e := e.(pending := None);
    match read
    case Err(_) => ReadFailed
    case Ok(None) => if e.zip.Text() == "" then EndOfInput else Closed
    case Ok(Some(b)) =>
      TurnsEnd(e, cancel, b, rest);
      match DispatchByte(e, cancel, b, rest)
      case Stop(outcome) => outcome
      case Go(e', rest') => Interpret(e', cancel, rest')
  }

  // ---------------------------------------------------------------- keystrokes

  datatype Keystroke = Char(c: char) | ArrowLeft | ArrowRight | ArrowUp | ArrowDown | DeleteKey | BackspaceKey

  function KeyBytes(k: Keystroke): Bytes {
    match k
    case Char(c) => Encode(c)
    case ArrowUp => [27, 0x5B, 0x41]
    case ArrowDown => [27, 0x5B, 0x42]
    case ArrowRight => [27, 0x5B, 0x43]
    case ArrowLeft => [27, 0x5B, 0x44]
    case DeleteKey => [27, 0x5B, 0x33, 0x7E]
    case BackspaceKey => [127]
  }

  // The line and the recalled commands
  datatype Desk = Desk(zip: Zipper, recall: Recall)

  // A recalled line takes the place of the one on screen.
  function Show(d: Desk, step: (Recall, Option<string>)): Desk {
    Desk(if step.1.Some? then d.zip.Replace(step.1.value) else d.zip, step.0)
  }

  function Press(d: Desk, k: Keystroke): (r: Desk)
    requires d.recall.Valid()
    ensures r.recall.Valid() && r.recall.entries == d.recall.entries
  {
    match k
    case Char(c) => d.(zip := d.zip.Insert([c]))
    case ArrowLeft => d.(zip := d.zip.MoveLeft())
    case ArrowRight => d.(zip := d.zip.MoveRight())
    case ArrowUp => Show(d, d.recall.Older(d.zip.Text()))
    case ArrowDown => Show(d, d.recall.Newer())
    case DeleteKey => d.(zip := d.zip.Delete())
    case BackspaceKey => d.(zip := d.zip.Backspace())
  }

  function PressAll(d: Desk, keys: seq<Keystroke>): Desk
    requires d.recall.Valid()
    decreases |keys|
  {
    if keys == [] then d else PressAll(Press(d, keys[0]), keys[1..])
  }

  // The editor's state between keystrokes
  function At(d: Desk): Editor { Editor(d.zip, None, d.recall) }

  function StreamOf(keys: seq<Keystroke>): seq<Event> {
    if keys == [] then [] else KeysOf(KeyBytes(keys[0])) + StreamOf(keys[1..])
  }

  lemma OneCharacter(d: Desk, cancel: bool, c: char, rest: seq<Event>)
    requires d.recall.Valid() && Printable(c)
    ensures Interpret(At(d), cancel, KeysOf(KeyBytes(Char(c))) + rest) == Interpret(At(Press(d, Char(c))), cancel, rest)
  {
    hide ReadChar, ReadEscape, Encode;
    var b := KeyBytes(Char(c));
    var events := KeysOf(b) + rest;
    assert events[0] == Key(b[0]) && events[1..] == KeysOf(b[1..]) + rest;
    PrintableLead(c);
    CharactersAreRead(c, rest);
  }

  lemma OneArrow(d: Desk, cancel: bool, k: Keystroke, rest: seq<Event>)
    requires d.recall.Valid() && (k.ArrowLeft? || k.ArrowRight? || k.ArrowUp? || k.ArrowDown?)
    ensures Interpret(At(d), cancel, KeysOf(KeyBytes(k)) + rest) == Interpret(At(Press(d, k)), cancel, rest)
  {
    hide ReadChar, ReadEscape, Encode;
    var b := KeyBytes(k);
    var events := KeysOf(b) + rest;
    assert events[0] == Key(27) && events[1..] == KeysOf([0x5B, b[2]]) + rest;
    ArrowIsRead(b[2], rest);
  }

  lemma OneKeystroke(d: Desk, cancel: bool, k: Keystroke, rest: seq<Event>)
    requires d.recall.Valid() && (k.Char? ==> Printable(k.c))
    ensures Interpret(At(d), cancel, KeysOf(KeyBytes(k)) + rest) == Interpret(At(Press(d, k)), cancel, rest)
  {
    hide ReadChar, ReadEscape, Encode;
    if k.Char? {
      OneCharacter(d, cancel, k.c, rest);
    } else if k.DeleteKey? || k.BackspaceKey? {
      var b := KeyBytes(k);
      var events := KeysOf(b) + rest;
      assert events[0] == Key(b[0]) && events[1..] == KeysOf(b[1..]) + rest;
      DeleteIsRead(rest);
      assert k.BackspaceKey? ==> events[1..] == rest;
    } else {
      OneArrow(d, cancel, k, rest);
    }
  }

  lemma PrintableLead(c: char)
    requires Printable(c)
    ensures Encode(c)[0] >= 0x20 && Encode(c)[0] != 127
  {
  }

  lemma ArrowIsRead(b: byte, rest: seq<Event>)
    requires 0x41 <= b <= 0x44
    ensures ReadEscape(KeysOf([0x5B, b]) + rest) == (Ok(Some(b)), rest)
  {
    var events := KeysOf([0x5B, b]) + rest;
    assert events[1..] == [Key(b)] + rest && events[1..][1..] == rest;
    assert [] + [b] == [b];
  }

  lemma DeleteIsRead(rest: seq<Event>)
    ensures ReadEscape(KeysOf([0x5B, 0x33, 0x7E]) + rest) == (Ok(Some(0x58)), rest)
  {
    var events := KeysOf([0x5B, 0x33, 0x7E]) + rest;
    assert events[1..] == [Key(0x33), Key(0x7E)] + rest;
    assert events[1..][1..] == [Key(0x7E)] + rest && events[1..][1..][1..] == rest;
    assert [] + [0x33] == [0x33] && [0x33] + [0x7E] == [0x33, 0x7E];
  }

  // Any keystrokes, and what comes after them
  lemma {:induction false} KeysThen(d: Desk, cancel: bool, keys: seq<Keystroke>, tail: seq<Event>)
    requires d.recall.Valid()
    requires forall i :: 0 <= i < |keys| && keys[i].Char? ==> Printable(keys[i].c)
    ensures PressAll(d, keys).recall.Valid()
    ensures Interpret(At(d), cancel, StreamOf(keys) + tail) == Interpret(At(PressAll(d, keys)), cancel, tail)
    decreases |keys|
  {
    hide Interpret, Press;
    if keys == [] {
      assert StreamOf(keys) + tail == tail;
    } else {
      var more := StreamOf(keys[1..]) + tail;
      assert StreamOf(keys) + tail == KeysOf(KeyBytes(keys[0])) + more;
      OneKeystroke(d, cancel, keys[0], more);
      KeysThen(Press(d, keys[0]), cancel, keys[1..], tail);
    }
  }

  /** The editor does what the keys say: any sequence of keystrokes, as the bytes a terminal sends, makes
      the line that pressing them one by one on the zipper and the recalled commands makes, and return
      or line feed ends it. */
  lemma KeystrokesEditTheLine(d: Desk, cancel: bool, keys: seq<Keystroke>, end: byte, rest: seq<Event>)
    requires d.recall.Valid() && end in {10, 13}
    requires forall i :: 0 <= i < |keys| && keys[i].Char? ==> Printable(keys[i].c)
    ensures Interpret(At(d), cancel, StreamOf(keys) + ([Key(end)] + rest)) == Line(PressAll(d, keys).zip.Text())
  {
    hide ReadChar, ReadEscape, Press;
    KeysThen(d, cancel, keys, [Key(end)] + rest);
  }

  /** How else a line ends, after any keystrokes: Ctrl-C gives it up, as a cancelled edit or an empty line;
      Ctrl-D ends the input if the line is empty and is ignored otherwise; the end of the stream ends the
      input if the line is empty and is an error otherwise; and so is a failing read. */
  lemma OtherEndings(d: Desk, cancel: bool, keys: seq<Keystroke>, rest: seq<Event>)
    requires d.recall.Valid() && forall i :: 0 <= i < |keys| && keys[i].Char? ==> Printable(keys[i].c)
    ensures PressAll(d, keys).recall.Valid()
    ensures var typed := PressAll(d, keys);
      && Interpret(At(d), cancel, StreamOf(keys) + ([Key(3)] + rest)) == (if cancel then Cancelled else Line(""))
      && Interpret(At(d), cancel, StreamOf(keys) + ([Key(4)] + rest))
           == (if typed.zip.Text() == "" then EndOfInput else Interpret(At(typed), cancel, rest))
      && Interpret(At(d), cancel, StreamOf(keys)) == (if typed.zip.Text() == "" then EndOfInput else Closed)
      && Interpret(At(d), cancel, StreamOf(keys) + ([Broken] + rest)) == ReadFailed
  {
    hide ReadChar, ReadEscape, Press, PressAll;
    assert StreamOf(keys) + [] == StreamOf(keys);
    KeysThen(d, cancel, keys, [Key(3)] + rest);
    KeysThen(d, cancel, keys, [Key(4)] + rest);
    KeysThen(d, cancel, keys, []);
    KeysThen(d, cancel, keys, [Broken] + rest);
    OneTurn(PressAll(d, keys), cancel, rest);
  }

  lemma OneTurn(d: Desk, cancel: bool, rest: seq<Event>)
    requires d.recall.Valid()
    ensures Interpret(At(d), cancel, [Key(3)] + rest) == (if cancel then Cancelled else Line(""))
    ensures Interpret(At(d), cancel, [Key(4)] + rest) == (if d.zip.Text() == "" then EndOfInput else Interpret(At(d), cancel, rest))
    ensures Interpret(At(d), cancel, []) == (if d.zip.Text() == "" then EndOfInput else Closed)
    ensures Interpret(At(d), cancel, [Broken] + rest) == ReadFailed
  {
    hide ReadChar, ReadEscape;
    assert ([Key(4)] + rest)[1..] == rest;
  }

  /** The other bytes for the same keys, and the bytes for none: byte 8 is backspace too, and the remaining
      control bytes do nothing. */
  lemma OtherBytes(d: Desk, cancel: bool, b: byte, rest: seq<Event>)
    requires d.recall.Valid()
    ensures Interpret(At(d), cancel, [Key(8)] + rest) == Interpret(At(Press(d, BackspaceKey)), cancel, rest)
    ensures b < 32 && b !in {3, 4, 8, 10, 13, 27} ==> Interpret(At(d), cancel, [Key(b)] + rest) == Interpret(At(d), cancel, rest)
  {
    hide ReadChar, ReadEscape;
    assert ([Key(8)] + rest)[1..] == rest && ([Key(b)] + rest)[1..] == rest;
  }

  function Arrow(b: byte): Keystroke {
    if b == 0x41 then ArrowUp else if b == 0x42 then ArrowDown else if b == 0x43 then ArrowRight else ArrowLeft
  }

  /** Arrows may come in the application form. */
  lemma ApplicationArrows(d: Desk, cancel: bool, b: byte, rest: seq<Event>)
    requires d.recall.Valid() && 0x41 <= b <= 0x44
    ensures Interpret(At(d), cancel, KeysOf([27, 0x4F, b]) + rest) == Interpret(At(Press(d, Arrow(b))), cancel, rest)
  {
    hide ReadChar, ReadEscape;
    var events := KeysOf([27, 0x4F, b]) + rest;
    assert events[0] == Key(27) && events[1..] == KeysOf([0x4F, b]) + rest;
    ApplicationArrow(b, rest);
  }

  lemma ApplicationArrow(b: byte, rest: seq<Event>)
    requires 0x41 <= b <= 0x44
    ensures ReadEscape(KeysOf([0x4F, b]) + rest) == (Ok(Some(b)), rest)
  {
    var events := KeysOf([0x4F, b]) + rest;
    assert events[1..] == [Key(b)] + rest && events[1..][1..] == rest;
    assert [] + [b] == [b];
  }

  // Bytes of an escape sequence before its last
  predicate Parameters(p: Bytes) { forall i :: 0 <= i < |p| ==> !(0x40 <= p[i] <= 0x7E) }

  lemma {:induction false} SequenceIsRead(sofar: Bytes, p: Bytes, f: byte, rest: seq<Event>)
    requires |sofar| + |p| < ESCAPE_LIMIT && Parameters(p) && 0x40 <= f <= 0x7E
    ensures ReadSequence(sofar, KeysOf(p) + ([Key(f)] + rest)) == (Ok(EscapeMeaning(sofar + p + [f])), rest)
    decreases |p|
  {
    var events := KeysOf(p) + ([Key(f)] + rest);
    if p == [] {
      assert events[0] == Key(f) && events[1..] == rest && sofar + p == sofar;
    } else {
      assert events[0] == Key(p[0]) && events[1..] == KeysOf(p[1..]) + ([Key(f)] + rest);
      SequenceIsRead(sofar + [p[0]], p[1..], f, rest);
      assert sofar + [p[0]] + p[1..] == sofar + p;
    }
  }

  lemma {:induction false} LongSequenceIsRead(sofar: Bytes, p: Bytes, rest: seq<Event>)
    requires |sofar| + |p| == ESCAPE_LIMIT && Parameters(p)
    ensures ReadSequence(sofar, KeysOf(p) + rest) == (Ok(None), rest)
    decreases |p|
  {
    if p == [] {
      assert KeysOf(p) + rest == rest;
    } else {
      assert (KeysOf(p) + rest)[0] == Key(p[0]) && (KeysOf(p) + rest)[1..] == KeysOf(p[1..]) + rest;
      LongSequenceIsRead(sofar + [p[0]], p[1..], rest);
    }
  }

  /** Every other escape sequence is read to its end and does nothing: one that ends in a final byte within
      16 bytes and is none of the five keys, one of 16 bytes without a final byte, and an escape followed by
      anything but `[` or `O`, or by no byte in time. */
  lemma OtherSequences(d: Desk, cancel: bool, intro: byte, p: Bytes, f: byte, rest: seq<Event>)
    requires d.recall.Valid() && Parameters(p) && |p| <= 16 && 0x40 <= f <= 0x7E
    ensures intro in {0x5B, 0x4F} && |p| < 16 && p + [f] !in {[0x41], [0x42], [0x43], [0x44], [0x33, 0x7E]} ==>
              Interpret(At(d), cancel, [Key(27), Key(intro)] + (KeysOf(p) + ([Key(f)] + rest))) == Interpret(At(d), cancel, rest)
    ensures intro in {0x5B, 0x4F} && |p| == 16 ==>
              Interpret(At(d), cancel, [Key(27), Key(intro)] + (KeysOf(p) + rest)) == Interpret(At(d), cancel, rest)
    ensures intro !in {0x5B, 0x4F} ==> Interpret(At(d), cancel, [Key(27), Key(intro)] + rest) == Interpret(At(d), cancel, rest)
    ensures Interpret(At(d), cancel, [Key(27), Pause] + rest) == Interpret(At(d), cancel, rest)
  {
    hide ReadChar, ReadEscape, ReadSequence, Interpret, EscapeMeaning;
    var ended, long := KeysOf(p) + ([Key(f)] + rest), KeysOf(p) + rest;
    if |p| < 16 {
      SequenceIsRead([], p, f, rest);
      assert [] + p == p;
      if p + [f] !in {[0x41], [0x42], [0x43], [0x44], [0x33, 0x7E]} { NoMeaning(p + [f]); }
      EscapeThen(d, cancel, Key(intro), ended);
    } else {
      LongSequenceIsRead([], p, rest);
      EscapeThen(d, cancel, Key(intro), long);
    }
    EscapeThen(d, cancel, Key(intro), rest);
    EscapeThen(d, cancel, Pause, rest);
  }

  lemma NoMeaning(sequence: Bytes)
    requires sequence !in {[0x41], [0x42], [0x43], [0x44], [0x33, 0x7E]}
    ensures EscapeMeaning(sequence) == None
  {
    if |sequence| == 1 { assert sequence == [sequence[0]]; }
  }

  // An escape whose sequence has no meaning
  lemma EscapeThen(d: Desk, cancel: bool, next: Event, rest: seq<Event>)
    requires d.recall.Valid() && !next.Broken?
    ensures var (key, rest') := if next.Key? && next.b in {0x5B, 0x4F} then ReadSequence([], rest) else (Ok(None), rest);
      key == Ok(None) && |rest'| <= |rest| ==> Interpret(At(d), cancel, [Key(27), next] + rest) == Interpret(At(d), cancel, rest')
  {
    hide ReadChar, ReadSequence;
    var events := [Key(27), next] + rest;
    assert events[0] == Key(27) && events[1..] == [next] + rest && ([next] + rest)[1..] == rest;
  }

  /** A byte that interrupts a partial character is the next one dispatched: the partial character
      leaves no trace, and the rest is read as if it had never started. */
  lemma InterruptedCharacterIsDropped(e: Editor, cancel: bool, lead: byte, tail: Bytes, next: byte, rest: seq<Event>)
    requires e.recall.Valid() && e.pending == None
    requires CharLength(lead) > |tail| + 1 && forall i :: 0 <= i < |tail| ==> Continuation(tail[i])
    requires !Continuation(next)
    ensures Interpret(e, cancel, [Key(lead)] + KeysOf(tail) + [Key(next)] + rest)
         == Interpret(e, cancel, [Key(next)] + rest)
  {
    hide ReadEscape;
    var after := [Key(next)] + rest;
    var events := [Key(lead)] + KeysOf(tail) + [Key(next)] + rest;
    assert events[0] == Key(lead) && events[1..] == KeysOf(tail) + after;
    InterruptedRest([lead], tail, CharLength(lead) - 1, next, rest);
    var e' := e.(pending := Some(next));
    assert Interpret(e, cancel, events) == Interpret(e', cancel, rest);
    assert after[0] == Key(next) && after[1..] == rest;
    assert NextByte(e', rest) == NextByte(e, after);
    assert e'.(pending := None) == e;
  }

  lemma {:induction false} InterruptedRest(start: Bytes, tail: Bytes, need: nat, next: byte, rest: seq<Event>)
    requires start != [] && need > |tail| && !Continuation(next)
    requires forall i :: 0 <= i < |tail| ==> Continuation(tail[i])
    ensures ReadRest(start, need, KeysOf(tail) + ([Key(next)] + rest)) == (NotTyped(Some(next)), rest)
    decreases |tail|
  {
    var events := KeysOf(tail) + ([Key(next)] + rest);
    if tail == [] {
      assert events == [Key(next)] + rest && events[1..] == rest;
    } else {
      assert events[1..] == KeysOf(tail[1..]) + ([Key(next)] + rest);
      InterruptedRest(start + [tail[0]], tail[1..], need - 1, next, rest);
    }
  }
}
