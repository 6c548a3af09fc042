/** A line being edited, as characters left and right of the cursor, and what each key means for it. */
module Zipper {
  import opened Prelude
  import opened Utf8

  const MAX_LINE: int := 4096

  datatype Zipper = Zipper(left: string, right: string) {
    function Text(): string { left + right }

    function Bytes(): Bytes { EncodeAll(left) + EncodeAll(right) }

    predicate Fits() { |Bytes()| <= MAX_LINE }

    // Typing text at the cursor; a line that would grow past the limit stays as it is.
    function Insert(text: string): Zipper {
      if |EncodeAll(text)| > MAX_LINE - |Bytes()| then this else Zipper(left + text, right)
    }

    function Replace(text: string): Zipper { Zipper("", "").Insert(text) }

    function MoveLeft(): Zipper {
      if left == "" then this else Zipper(left[..|left| - 1], [left[|left| - 1]] + right)
    }

    function MoveRight(): Zipper {
      if right == "" then this else Zipper(left + [right[0]], right[1..])
    }

    function Delete(): Zipper { if right == "" then this else Zipper(left, right[1..]) }

    function Backspace(): Zipper { if left == "" then this else MoveLeft().Delete() }
  }

  lemma BytesAreText(z: Zipper)
    ensures z.Bytes() == EncodeAll(z.Text())
  {
    EncodeAppend(z.left, z.right);
  }

  /** The keys undo each other: backspace takes back a typed character, moving right takes back
      moving left, and deleting after moving left is what backspace does. */
  lemma KeysUndo(z: Zipper, c: char)
    requires z.Fits()
    ensures z.Insert([c]) != z ==> z.Insert([c]).Backspace() == z
    ensures z.left != "" ==> z.MoveLeft().MoveRight() == z && z.MoveLeft().Delete() == z.Backspace()
    ensures z.right != "" ==> z.MoveRight().MoveLeft() == z && z.MoveRight().Backspace() == z.Delete()
  {
    if z.left != "" {
      assert z.left[..|z.left| - 1] + [z.left[|z.left| - 1]] == z.left;
    }
    if z.right != "" {
      assert [z.right[0]] + z.right[1..] == z.right;
      assert (z.left + [z.right[0]])[..|z.left|] == z.left;
    }
    assert (z.left + [c])[..|z.left|] == z.left && ([c] + z.right)[1..] == z.right;
  }

  /** Typing puts the text at the cursor and the cursor behind it, if the line then fits, and else does nothing. */
  lemma TypingMeans(z: Zipper, text: string)
    ensures var line, at := z.Text(), |z.left|;
      var typed, want := z.Insert(text), line[..at] + text + line[at..];
      if |EncodeAll(want)| <= 4096 then typed.Text() == want && |typed.left| == at + |text| else typed == z
  {
    hide Encode, EncodeAll;
    var line, at := z.Text(), |z.left|;
    assert line[..at] == z.left && line[at..] == z.right;
    EncodeAppend(z.left, text);
    EncodeAppend(z.left + text, z.right);
  }

  // Where a line is cut around the cursor
  lemma AroundCursor(left: string, right: string)
    ensures (left + right)[..|left|] == left && (left + right)[|left|..] == right
    ensures left != "" ==> left[..|left| - 1] + [left[|left| - 1]] == left && (left + right)[..|left| - 1] == left[..|left| - 1]
    ensures right != "" ==> [right[0]] + right[1..] == right && (left + right)[|left| + 1..] == right[1..]
  {
  }

  lemma Assoc(a: string, b: string, c: string)
    ensures (a + b) + c == a + (b + c)
  {
  }

  /** Moving leaves the line as it is and moves the cursor by one character, or not at all at an end. */
  lemma MovingMeans(z: Zipper)
    ensures z.MoveLeft().Text() == z.Text() && |z.MoveLeft().left| == if z.left == "" then 0 else |z.left| - 1
    ensures z.MoveRight().Text() == z.Text() && |z.MoveRight().left| == if z.right == "" then |z.left| else |z.left| + 1
  {
    AroundCursor(z.left, z.right);
    if z.left != "" { Assoc(z.left[..|z.left| - 1], [z.left[|z.left| - 1]], z.right); }
    if z.right != "" { Assoc(z.left, [z.right[0]], z.right[1..]); }
  }

  /** Delete takes the character behind the cursor out of the line, backspace the one before it; at an end
      nothing happens. */
  lemma RemovingMeans(z: Zipper)
    ensures var line, at, cut := z.Text(), |z.left|, z.Delete();
      if at == |line| then cut == z else |cut.left| == at && cut.Text() == line[..at] + line[at + 1..]
    ensures var line, at, cut := z.Text(), |z.left|, z.Backspace();
      if at == 0 then cut == z else |cut.left| == at - 1 && cut.Text() == line[..at - 1] + line[at..]
  {
    AroundCursor(z.left, z.right);
    if z.left != "" { assert z.Backspace() == Zipper(z.left[..|z.left| - 1], z.right); }
  }

  /** A text put in the place of the line is the line, with the cursor behind it, if it fits, and empties it
      otherwise. */
  lemma ReplaceMeans(z: Zipper, text: string)
    ensures z.Replace(text) == if |EncodeAll(text)| <= 4096 then Zipper(text, "") else Zipper("", "")
  {
    hide Encode;
    assert "" + text == text;
  }

  // The byte form of moving one character over the cursor
  lemma LeftBytes(z: Zipper)
    requires z.left != ""
    ensures var c := z.left[|z.left| - 1];
      && EncodeAll(z.left) == EncodeAll(z.MoveLeft().left) + Encode(c)
      && EncodeAll(z.MoveLeft().right) == Encode(c) + EncodeAll(z.right)
      && LastLength(EncodeAll(z.left)) == |Encode(c)|
  {
    hide Encode, LastLength;
    var front, c := z.left[..|z.left| - 1], z.left[|z.left| - 1];
    assert z.left == front + [c];
    EncodeAppend(front, [c]);
    EncodeOne(c);
    LastOfEncoded(EncodeAll(front), c);
    assert ([c] + z.right)[1..] == z.right;
  }

  lemma RightBytes(z: Zipper)
    requires z.right != ""
    ensures var c := z.right[0];
      && EncodeAll(z.right) == Encode(c) + EncodeAll(z.right[1..])
      && EncodeAll(z.left + [c]) == EncodeAll(z.left) + Encode(c)
      && DecodeFirst(EncodeAll(z.right)) == Some((c, |Encode(c)|))
  {
    hide Encode, DecodeFirst;
    EncodeAppend(z.left, [z.right[0]]);
    EncodeOne(z.right[0]);
    DecodeEncoded(z.right[0], EncodeAll(z.right[1..]));
  }

  lemma InsertBytes(z: Zipper, text: string)
    ensures EncodeAll(z.left + text) + EncodeAll(z.right) == EncodeAll(z.left) + EncodeAll(text) + EncodeAll(z.right)
  {
    EncodeAppend(z.left, text);
  }
}
