/** The line editor's buffer: UTF-8 bytes and a byte cursor, changed in place. */
module EditLine {
  import opened Prelude
  import opened Utf8
  import opened Zipper

  class EditLine {
    const bytes: array<byte>   // storage for the longest line, reserved once
    var len: nat
    var cursor: nat
    ghost var zip: Zipper

    /** The bytes are well-formed, the cursor stands between two characters, the line fits, and nothing
        typed earlier is left behind past the end. */
    ghost predicate Valid()
      reads this, bytes
    {
      && bytes.Length == MAX_LINE
      && len <= MAX_LINE
      && bytes[..len] == zip.Bytes()
      && cursor == |EncodeAll(zip.left)|
      && forall i :: len <= i < MAX_LINE ==> bytes[i] == 0
    }

    constructor ()
      ensures Valid() && fresh(bytes) && zip == Zipper("", "")
    {
      bytes := new byte[MAX_LINE](_ => 0);
      len, cursor := 0, 0;
      zip := Zipper("", "");
    }

    /** `Vec::copy_within`: source and destination may overlap. */
    method CopyWithin(from: nat, to: nat, dest: nat)
      requires from <= to <= bytes.Length && dest + (to - from) <= bytes.Length
      modifies bytes
      ensures forall i :: 0 <= i < bytes.Length ==>
        bytes[i] == if dest <= i < dest + (to - from) then old(bytes[from + (i - dest)]) else old(bytes[i])
    {
      var count := to - from;
      if dest <= from {
        for k := 0 to count
          invariant forall i :: 0 <= i < bytes.Length ==>
            bytes[i] == if dest <= i < dest + k then old(bytes[from + (i - dest)]) else old(bytes[i])
        {
          bytes[dest + k] := bytes[from + k];
        }
      } else {
        for k := count downto 0
          invariant forall i :: 0 <= i < bytes.Length ==>
            bytes[i] == if dest + k <= i < dest + count then old(bytes[from + (i - dest)]) else old(bytes[i])
        {
          bytes[dest + k] := bytes[from + k];
        }
      }
    }

    // The buffer, before it is known what text it holds.
    ghost predicate ValidBuffer()
      reads this, bytes
    {
      && bytes.Length == MAX_LINE && len <= MAX_LINE
      && forall i :: len <= i < MAX_LINE ==> bytes[i] == 0
    }

    static lemma Spliced(before: Bytes, after: Bytes, at: nat, text: Bytes, len: nat)
      requires at <= len && len + |text| <= |before| == |after|
      requires forall i :: 0 <= i < at ==> after[i] == before[i]
      requires forall i :: 0 <= i < |text| ==> after[at + i] == text[i]
      requires forall i :: at + |text| <= i < len + |text| ==> after[i] == before[i - |text|]
      ensures after[..len + |text|] == before[..at] + text + before[at..len]
    {
      var want := before[..at] + text + before[at..len];
      forall i | 0 <= i < len + |text| ensures after[i] == want[i] {
        if at <= i < at + |text| { assert after[at + (i - at)] == text[i - at]; }
      }
    }

    static lemma WithoutGap(before: Bytes, after: Bytes, at: nat, end: nat, len: nat)
      requires at <= end <= len <= |before| == |after|
      requires forall i :: 0 <= i < at ==> after[i] == before[i]
      requires forall i :: at <= i < len - (end - at) ==> after[i] == before[end + (i - at)]
      ensures after[..len - (end - at)] == before[..at] + before[end..len]
    {
    }

    method Wipe(from: nat, to: nat)
      requires from <= to <= bytes.Length
      modifies bytes
      ensures forall i :: 0 <= i < bytes.Length ==> bytes[i] == if from <= i < to then 0 else old(bytes[i])
    {
      forall i | from <= i < to {
        bytes[i] := 0;
      }
    }

    // Make room at `at` and put `text` there.
    method Splice(at: nat, text: Bytes)
      requires ValidBuffer() && at <= len && |text| <= MAX_LINE - len
      modifies this`len, bytes
      ensures ValidBuffer() && bytes[..len] == old(bytes[..at]) + text + old(bytes[at..len])
    {
      ghost var before := bytes[..];
      var oldLen := len;
      CopyWithin(at, oldLen, at + |text|);
      forall i | 0 <= i < |text| {
        bytes[at + i] := text[i];
      }
      len := oldLen + |text|;
      Spliced(before, bytes[..], at, text, oldLen);
      assert bytes[..len] == bytes[..][..len];
    }

    // Take out the bytes from `at` to `end`, and wipe what the shift leaves behind.
    method Cut(at: nat, end: nat)
      requires ValidBuffer() && at <= end <= len
      modifies this`len, bytes
      ensures ValidBuffer() && bytes[..len] == old(bytes[..at]) + old(bytes[end..len])
    {
      ghost var before := bytes[..];
      CopyWithin(end, len, at);
      var newLen := len - (end - at);
      assert forall i :: at <= i < newLen ==> bytes[i] == before[end + (i - at)];
      Wipe(newLen, len);
      WithoutGap(before, bytes[..], at, end, len);
      len := newLen;
      assert bytes[..len] == bytes[..][..len];
    }

    method Insert(text: Bytes) returns (inserted: bool)
      requires Valid() && Decode(text).Some?
      modifies this`len, this`cursor, this`zip, bytes
      ensures Valid() && zip == old(zip).Insert(Decode(text).value)
      ensures inserted <==> |text| <= MAX_LINE - old(len)
    {
      hide EncodeAll, Decode;
      if |text| > MAX_LINE - len { return false; }
      ghost var chars := Decode(text).value;
      SplitAtCursor();
      InsertBytes(zip, chars);
      EncodeAppend(zip.left, chars);
      Splice(cursor, text);
      zip := zip.Insert(chars);
      cursor := cursor + |text|;
      return true;
    }

    lemma SplitAtCursor()
      requires Valid()
      ensures cursor <= len
      ensures bytes[..cursor] == EncodeAll(zip.left) && bytes[cursor..len] == EncodeAll(zip.right)
    {
      hide EncodeAll;
      assert bytes[..cursor] == bytes[..len][..cursor] && bytes[cursor..len] == bytes[..len][cursor..];
    }

    // The editor keeps valid UTF-8, so its text can always be read.
    method Text() returns (text: string)
      requires Valid()
      ensures text == zip.Text()
    {
      BytesAreText(zip);
      DecodeEncodeAll(zip.Text());
      text := Decode(bytes[..len]).value;
    }

    method Replace(text: Bytes)
      requires Valid() && Decode(text).Some?
      modifies this`len, this`cursor, this`zip, bytes
      ensures Valid() && zip == old(zip).Replace(Decode(text).value)
    {
      Wipe(0, bytes.Length);
      len, cursor := 0, 0;
      zip := Zipper("", "");
      var inserted := Insert(text);
    }

    method Left()
      requires Valid()
      modifies this`cursor, this`zip
      ensures Valid() && zip == old(zip).MoveLeft()
    {
      hide EncodeAll, LastLength;
      SplitAtCursor();
      if zip.left != "" {
        LeftBytes(zip);
        Assoc3(EncodeAll(zip.MoveLeft().left), Encode(zip.left[|zip.left| - 1]), EncodeAll(zip.right));
      }
      NothingLeft();
      cursor := cursor - LastLength(bytes[..cursor]);
      zip := zip.MoveLeft();
    }

    static lemma Assoc3(a: Bytes, b: Bytes, c: Bytes)
      ensures a + b + c == a + (b + c)
    {
    }

    static lemma NothingLeft()
      ensures EncodeAll("") == [] && LastLength([]) == 0 && DecodeFirst([]) == None
    {
    }

    // The length of the character at the cursor; 0 at the end of the line
    method NextLength() returns (n: nat)
      requires Valid()
      ensures n == if zip.right == "" then 0 else |Encode(zip.right[0])|
      ensures cursor + n <= len
    {
      hide EncodeAll, DecodeFirst;
      SplitAtCursor();
      NothingLeft();
      var next := DecodeFirst(bytes[cursor..len]);
      if zip.right != "" {
        RightBytes(zip);
      }
      n := if next.Some? then next.value.1 else 0;
    }

    method Right()
      requires Valid()
      modifies this`cursor, this`zip
      ensures Valid() && zip == old(zip).MoveRight()
    {
      hide EncodeAll;
      var n := NextLength();
      if zip.right != "" {
        RightBytes(zip);
        Assoc3(EncodeAll(zip.left), Encode(zip.right[0]), EncodeAll(zip.right[1..]));
      }
      cursor := cursor + n;
      zip := zip.MoveRight();
    }

    method Delete()
      requires Valid()
      modifies this`len, this`zip, bytes
      ensures Valid() && zip == old(zip).Delete()
    {
      hide EncodeAll, Encode;
      var n := NextLength();
      if n > 0 {
        SplitAtCursor();
        RightBytes(zip);
        assert bytes[cursor + n..len] == bytes[cursor..len][n..] == EncodeAll(zip.right[1..]);
        Cut(cursor, cursor + n);
        zip := zip.Delete();
      }
    }

    method Backspace()
      requires Valid()
      modifies this`len, this`cursor, this`zip, bytes
      ensures Valid() && zip == old(zip).Backspace()
    {
      if cursor > 0 {
        Left();
        Delete();
      }
    }
  }
}
