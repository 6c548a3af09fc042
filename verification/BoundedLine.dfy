/** Reading one line of standard input, at most 4096 bytes of it, however the input arrives. */
module BoundedLine {
  import opened Prelude
  import opened Utf8

  const MAX_LINE: int := 4096
  const NEWLINE: byte := 10

  datatype LineError = ReadFailed | TooLong | NotUtf8

  // Where the first line ends: after its newline, or where the input ends
  function LineEnd(s: Bytes): (n: nat)
    ensures n <= |s| && (s != [] ==> n > 0)
  {
    if s == [] then 0 else if s[0] == NEWLINE then 1 else 1 + LineEnd(s[1..])
  }

  /** The line at the head of the input; it does not depend on how the input is cut into pieces. */
  function LineOf(s: Bytes): Result<Option<string>, LineError> {
    if s == [] then Ok(None)
    else if LineEnd(s) > MAX_LINE then Err(TooLong)
    else match Decode(s[..LineEnd(s)])
      case None => Err(NotUtf8)
      case Some(text) => Ok(Some(text))
  }

  // How many bytes the n-th read of the input finds ready; None for a read that fails
  type Arrivals = nat -> Option<nat>

  // A read finds at least one byte and at most all that are left.
  function Chunk(count: nat, left: nat): nat { if count == 0 then 1 else if count < left then count else left }

  class Input {
    const arrivals: Arrivals
    var rest: Bytes
    var calls: nat

    constructor (bytes: Bytes, arrivals: Arrivals)
      ensures rest == bytes && this.arrivals == arrivals && calls == 0
    {
      this.arrivals := arrivals;
      rest, calls := bytes, 0;
    }

    // BufRead::fill_buf: the bytes that are ready; none only at the end of the input
    method FillBuf() returns (r: Result<Bytes, LineError>)
      modifies this`calls
      ensures calls == old(calls) + 1
      ensures r == match arrivals(old(calls))
                   case None => Err(ReadFailed)
                   case Some(count) => Ok(if rest == [] then [] else rest[..Chunk(count, |rest|)])
    {
      var ready := arrivals(calls);
      calls := calls + 1;
      if ready.None? { return Err(ReadFailed); }
      return Ok(if rest == [] then [] else rest[..Chunk(ready.value, |rest|)]);
    }

    method Consume(n: nat)
      requires n <= |rest|
      modifies this`rest
      ensures rest == old(rest)[n..]
    {
      rest := rest[n..];
    }
  }

  /** A read fails before the line at the head of `s` is complete: reading starts with the n-th read, and
      goes on until the newline has arrived, or a read finds the end of the input. */
  predicate FailsFirst(arrivals: Arrivals, n: nat, s: Bytes)
    decreases |s|
  {
    match arrivals(n)
    case None => true
    case Some(count) =>
      s != [] && NEWLINE !in s[..Chunk(count, |s|)] && FailsFirst(arrivals, n + 1, s[Chunk(count, |s|)..])
  }

  lemma {:induction false} ReliableInputNeverFails(arrivals: Arrivals, n: nat, s: Bytes)
    requires forall k: nat :: arrivals(k).Some?
    ensures !FailsFirst(arrivals, n, s)
    decreases |s|
  {
    if s != [] { ReliableInputNeverFails(arrivals, n + 1, s[Chunk(arrivals(n).value, |s|)..]); }
  }

  function Position(s: Bytes): (r: Option<nat>)
    ensures r.Some? ==> r.value < |s| && s[r.value] == NEWLINE && r.value + 1 == LineEnd(s)
    ensures r.None? ==> LineEnd(s) == |s| && NEWLINE !in s
  {
    if s == [] then None
    else if s[0] == NEWLINE then Some(0)
    else match Position(s[1..])
      case None => None
      case Some(i) => Some(i + 1)
  }

  // The end of a line whose first part is already read
  lemma {:induction false} EndAfter(done: Bytes, rest: Bytes)
    requires NEWLINE !in done
    ensures LineEnd(done + rest) == |done| + LineEnd(rest)
  {
    if done == [] {
      assert done + rest == rest;
    } else {
      assert (done + rest)[1..] == done[1..] + rest;
      EndAfter(done[1..], rest);
    }
  }

  lemma {:induction false} EndOfPrefix(chunk: Bytes, rest: Bytes)
    requires chunk <= rest
    ensures NEWLINE in chunk ==> LineEnd(chunk) == LineEnd(rest) && chunk[LineEnd(chunk) - 1] == NEWLINE
    ensures NEWLINE !in chunk ==> LineEnd(chunk) == |chunk|
  {
    if chunk != [] && chunk[0] != NEWLINE {
      EndOfPrefix(chunk[1..], rest[1..]);
    }
  }

  // What one piece of input adds to the line
  lemma ChunkStep(done: Bytes, rest: Bytes, available: Bytes, end: nat)
    requires available <= rest && available != [] && NEWLINE !in done
    requires end == match Position(available) case Some(i) => i + 1 case None => |available|
    ensures 0 < end <= |available| && available[..end] == rest[..end]
    ensures (done + rest[..end]) + rest[end..] == done + rest
    ensures Position(available).Some? ==> LineEnd(done + rest) == |done| + end
    ensures Position(available).None? ==> NEWLINE !in done + rest[..end]
  {
    hide LineEnd, Position;
    EndOfPrefix(available, rest);
    EndAfter(done, rest);
  }

  lemma WholeInput(done: Bytes)
    requires NEWLINE !in done
    ensures LineEnd(done) == |done|
  {
    EndAfter(done, []);
    assert done + [] == done;
  }

  // One more piece without a newline has arrived.
  lemma FailsLater(arrivals: Arrivals, n: nat, rest: Bytes, available: Bytes)
    requires rest != [] && arrivals(n).Some? && available == rest[..Chunk(arrivals(n).value, |rest|)]
    ensures NEWLINE in available ==> !FailsFirst(arrivals, n, rest)
    ensures NEWLINE !in available ==> (FailsFirst(arrivals, n, rest) <==> FailsFirst(arrivals, n + 1, rest[|available|..]))
  {
  }

  /** `read_bounded_line`: whatever the pieces, it fails to read exactly when a read fails before the line
      is complete, and otherwise computes `LineOf` and leaves the input right after the line, also when
      the line is too long or is not UTF-8. */
  method ReadBoundedLine(input: Input) returns (r: Result<Option<string>, LineError>)
    modifies input
    ensures r == if FailsFirst(input.arrivals, old(input.calls), old(input.rest)) then Err(ReadFailed) else LineOf(old(input.rest))
    ensures !FailsFirst(input.arrivals, old(input.calls), old(input.rest)) ==>
      input.rest == old(input.rest)[LineEnd(old(input.rest))..]
  {
    hide LineEnd, Position, Decode, FailsFirst, Chunk;
    ghost var stream, fails := input.rest, FailsFirst(input.arrivals, input.calls, input.rest);
    ghost var done: Bytes := [];
    var bytes: Bytes := [];
    var seen, oversized, complete := false, false, false;
    while !complete
      invariant done + input.rest == stream
      invariant if complete then |done| == LineEnd(stream) else NEWLINE !in done
      invariant if complete then !fails else fails == FailsFirst(input.arrivals, input.calls, input.rest)
      invariant (seen <==> done != []) && (complete ==> seen)
      invariant if oversized then |done| > MAX_LINE else bytes == done && |done| <= MAX_LINE
      decreases !complete, |input.rest|
    {
      FailureAtOnce(input.arrivals, input.calls, input.rest);
      ghost var n := input.calls;
      var available :- input.FillBuf();
      if input.rest != [] { ChunkIsProper(input.arrivals(n).value, |input.rest|); }
      if available == [] {
        WholeInput(done);
        assert done == stream;
        if !seen { return Ok(None); }
        break;
      }
      seen := true;
      var newline := Position(available);
      var end := if newline.Some? then newline.value + 1 else |available|;
      ChunkStep(done, input.rest, available, end);
      FailsLater(input.arrivals, n, input.rest, available);
      if !oversized {
        if |bytes| + end <= MAX_LINE {
          bytes := bytes + available[..end];
        } else {
          oversized := true;
        }
      }
      done := done + input.rest[..end];
      input.Consume(end);
      complete := newline.Some?;
    }
    if oversized { return Err(TooLong); }
    var text := Decode(bytes);
    return if text.Some? then Ok(text) else Err(NotUtf8);
  }

  lemma FailureAtOnce(arrivals: Arrivals, n: nat, rest: Bytes)
    ensures arrivals(n).None? ==> FailsFirst(arrivals, n, rest)
    ensures arrivals(n).Some? && rest == [] ==> !FailsFirst(arrivals, n, rest)
  {
  }

  lemma ChunkIsProper(count: nat, left: nat)
    requires left > 0
    ensures 0 < Chunk(count, left) <= left
  {
  }

  lemma {:induction false} TextHasNoNewlineByte(text: string)
    requires '\n' !in text
    ensures NEWLINE !in EncodeAll(text)
  {
    if text != [] {
      TextHasNoNewlineByte(text[1..]);
      NewlineByte(text[0]);
    }
  }

  lemma NewlineByte(c: char)
    requires c != '\n'
    ensures NEWLINE !in Encode(c)
  {
  }

  /** A line of text is read whole exactly when it fits in 4096 bytes with its newline; either way the
      next line is next. */
  lemma LinesAreRead(text: string, rest: Bytes)
    requires '\n' !in text
    ensures var s := EncodeAll(text) + [NEWLINE] + rest;
      && s[LineEnd(s)..] == rest
      && LineOf(s) == if |EncodeAll(text)| + 1 <= MAX_LINE then Ok(Some(text + "\n")) else Err(TooLong)
  {
    hide Encode;
    var s := EncodeAll(text) + [NEWLINE] + rest;
    assert s == EncodeAll(text) + ([NEWLINE] + rest);
    TextHasNoNewlineByte(text);
    EndAfter(EncodeAll(text), [NEWLINE] + rest);
    EncodeAppend(text, "\n");
    EncodeOne('\n');
    NewlineIsItself();
    DecodeEncodeAll(text + "\n");
    assert s[..LineEnd(s)] == EncodeAll(text + "\n");
  }

  lemma NewlineIsItself()
    ensures Encode('\n') == [NEWLINE]
  {
  }

  /** The last line of an input that does not end in a newline is read whole exactly when it fits in 4096
      bytes, and then the input is at its end; an empty input has no line. */
  lemma LastLineIsRead(text: string)
    requires '\n' !in text
    ensures var s := EncodeAll(text);
      && LineEnd(s) == |s|
      && LineOf(s) == if text == "" then Ok(None) else if |s| <= MAX_LINE then Ok(Some(text)) else Err(TooLong)
  {
    hide Encode;
    TextHasNoNewlineByte(text);
    EndAfter(EncodeAll(text), []);
    assert EncodeAll(text) + [] == EncodeAll(text);
    DecodeEncodeAll(text);
    if text != "" { EncodingIsNotEmpty(text[0]); }
  }

  lemma EncodingIsNotEmpty(c: char)
    ensures Encode(c) != []
  {
  }

  /** The head of an input up to its first newline, of at most 4096 bytes, is a line if it encodes a text,
      and that text; it is an error if it encodes none. */
  lemma LinesAreTexts(line: Bytes, rest: Bytes)
    requires NEWLINE !in line && |line| + 1 <= MAX_LINE
    ensures LineOf(line + [NEWLINE] + rest) == match Decode(line + [NEWLINE])
      case Some(text) => Ok(Some(text))
      case None => Err(NotUtf8)
    ensures forall text :: EncodeAll(text) == line + [NEWLINE] ==> LineOf(line + [NEWLINE] + rest) == Ok(Some(text))
    ensures (forall text :: EncodeAll(text) != line + [NEWLINE]) ==> LineOf(line + [NEWLINE] + rest) == Err(NotUtf8)
  {
    hide Encode, EncodeAll;
    var s := line + [NEWLINE] + rest;
    EndAfter(line, [NEWLINE] + rest);
    assert s == line + ([NEWLINE] + rest) && s[..|line| + 1] == line + [NEWLINE];
    forall text | EncodeAll(text) == line + [NEWLINE] ensures Decode(line + [NEWLINE]) == Some(text) {
      DecodeEncodeAll(text);
    }
  }
}
