/** The few string operations of the standard library that the program's input handling relies on. */
module Text {
  import opened Prelude

  // The Unicode White_Space property
  predicate White(c: char) {
    var n := c as int;
    9 <= n <= 13 || n in {32, 0x85, 0xA0, 0x1680, 0x2028, 0x2029, 0x202F, 0x205F, 0x3000} || 0x2000 <= n <= 0x200A
  }

  function TrimStart(s: string): string {
    if s != [] && White(s[0]) then TrimStart(s[1..]) else s
  }

  function TrimEnd(s: string): string {
    if s != [] && White(s[|s| - 1]) then TrimEnd(s[..|s| - 1]) else s
  }

  function Trim(s: string): string { TrimEnd(TrimStart(s)) }

  // trim_end_matches(['\r', '\n'])
  function TrimNewlines(s: string): string {
    if s != [] && (s[|s| - 1] == '\r' || s[|s| - 1] == '\n') then TrimNewlines(s[..|s| - 1]) else s
  }

  // The word at the start of `s`
  function FirstWord(s: string): string {
    if s == [] || White(s[0]) then [] else [s[0]] + FirstWord(s[1..])
  }

  function SplitWhitespace(s: string): seq<string>
    decreases |s|
  {
    var t := TrimStart(s);
    TrimStartShortens(s);
    var word := FirstWord(t);
    FirstWordShortens(t);
    if word == [] then [] else [word] + SplitWhitespace(t[|word|..])
  }

  lemma {:induction false} TrimStartShortens(s: string)
    ensures |TrimStart(s)| <= |s|
  {
    if s != [] && White(s[0]) {
      TrimStartShortens(s[1..]);
    }
  }

  lemma {:induction false} FirstWordShortens(s: string)
    ensures |FirstWord(s)| <= |s|
  {
    if s != [] && !White(s[0]) {
      FirstWordShortens(s[1..]);
    }
  }

  predicate Contains(s: string, part: string) {
    part <= s || (s != [] && Contains(s[1..], part))
  }

  predicate Digit(c: char) { '0' <= c <= '9' }

  predicate AllDigits(s: string) { forall i :: 0 <= i < |s| ==> Digit(s[i]) }

  /** The number written by decimal digits; the empty string stands for 0. */
  function NumberOf(s: string): nat
    requires AllDigits(s)
  {
    if s == [] then 0 else 10 * NumberOf(s[..|s| - 1]) + (s[|s| - 1] as int - '0' as int)
  }

  /** `str::parse::<u64>`: digits, after an optional plus sign, that fit 64 bits. */
  function ParseU64(s: string): Option<u64> {
    var digits := if s != [] && s[0] == '+' then s[1..] else s;
    if digits != [] && AllDigits(digits) && NumberOf(digits) < U64_LIMIT then Some(NumberOf(digits)) else None
  }

  // ---------------------------------------------------------------- what these operations mean

  predicate Blank(s: string) { forall i :: 0 <= i < |s| ==> White(s[i]) }

  // Text that neither begins nor ends with white space
  predicate Solid(word: string) { word == "" || (!White(word[0]) && !White(word[|word| - 1])) }

  /** The line is `word` with nothing but white space around it. */
  predicate Typed(line: string, word: string) {
    exists i :: 0 <= i <= |line| - |word|
      && Blank(line[..i]) && line[i..i + |word|] == word && Blank(line[i + |word|..])
  }

  lemma {:induction false} TrimStartTakes(a: string, rest: string)
    requires Blank(a) && (rest == "" || !White(rest[0]))
    ensures TrimStart(a + rest) == rest
  {
    if a == "" {
      assert a + rest == rest;
    } else {
      assert (a + rest)[1..] == a[1..] + rest;
      TrimStartTakes(a[1..], rest);
    }
  }

  lemma {:induction false} TrimEndTakes(rest: string, b: string)
    requires Blank(b) && (rest == "" || !White(rest[|rest| - 1]))
    ensures TrimEnd(rest + b) == rest
  {
    if b == "" {
      assert rest + b == rest;
    } else {
      assert (rest + b)[..|rest + b| - 1] == rest + b[..|b| - 1];
      TrimEndTakes(rest, b[..|b| - 1]);
    }
  }

  lemma {:induction false} TrimStartSplits(s: string)
    ensures var n := |s| - |TrimStart(s)|;
      0 <= n && Blank(s[..n]) && s[n..] == TrimStart(s) && (TrimStart(s) == "" || !White(TrimStart(s)[0]))
  {
    if s != "" && White(s[0]) {
      TrimStartSplits(s[1..]);
      var n := |s| - |TrimStart(s)|;
      assert s[..n] == [s[0]] + s[1..][..n - 1] && s[n..] == s[1..][n - 1..];
    }
  }

  lemma {:induction false} TrimEndSplits(s: string)
    ensures var n := |TrimEnd(s)|;
      n <= |s| && Blank(s[n..]) && s[..n] == TrimEnd(s) && (n == 0 || !White(s[n - 1]))
  {
    if s != "" && White(s[|s| - 1]) {
      var front := s[..|s| - 1];
      TrimEndSplits(front);
      var n := |TrimEnd(s)|;
      assert s[n..] == front[n..] + [s[|s| - 1]] && s[..n] == front[..n];
    }
  }

  lemma TrimmedIsTyped(line: string)
    ensures Typed(line, Trim(line)) && Solid(Trim(line))
  {
    hide TrimStart, TrimEnd;
    var rest := TrimStart(line);
    TrimStartSplits(line);
    TrimEndSplits(rest);
    var i, word := |line| - |rest|, Trim(line);
    assert line[i + |word|..] == rest[|word|..] && line[i..i + |word|] == rest[..|word|];
    assert word != "" ==> word[0] == rest[0];
  }

  lemma TypedIsTrimmed(line: string, word: string)
    requires Solid(word) && Typed(line, word)
    ensures Trim(line) == word
  {
    hide TrimStart, TrimEnd;
    var i :| 0 <= i <= |line| - |word| && Blank(line[..i]) && line[i..i + |word|] == word && Blank(line[i + |word|..]);
    var b := line[i + |word|..];
    if word == "" {
      assert line == line[..i] + b;
      TrimStartTakes(line, "");
      assert line + "" == line && "" + "" == "";
      TrimEndTakes("", "");
    } else {
      assert line == line[..i] + (word + b) && (word + b)[0] == word[0];
      TrimStartTakes(line[..i], word + b);
      TrimEndTakes(word, b);
    }
  }

  /** Trimming a line gives a word exactly when the line is that word between white space. */
  lemma TrimIff(line: string, word: string)
    requires Solid(word)
    ensures Trim(line) == word <==> Typed(line, word)
  {
    hide Trim, Typed;
    TrimmedIsTyped(line);
    if Typed(line, word) { TypedIsTrimmed(line, word); }
  }

  lemma TypedBlank(line: string)
    ensures Typed(line, "") <==> Blank(line)
  {
    if Blank(line) { assert Blank(line[..0]) && line[0..0 + |""|] == "" && line[0..] == line; }
    if Typed(line, "") {
      var i :| 0 <= i <= |line| && Blank(line[..i]) && Blank(line[i + |""|..]);
      assert line == line[..i] + line[i..];
    }
  }

  lemma TypedItself(word: string)
    ensures Typed(word, word)
  {
    assert word[..0] == "" && word[0..0 + |word|] == word && word[0 + |word|..] == "";
  }

  predicate Wordlike(word: string) { word != "" && forall i :: 0 <= i < |word| ==> !White(word[i]) }

  // The word stands at `i`, alone, with nothing but white space before it.
  predicate WordAt(line: string, word: string, i: int) {
    && 0 <= i <= |line| - |word| && Blank(line[..i]) && line[i..i + |word|] == word
    && (i + |word| == |line| || White(line[i + |word|]))
  }

  /** The line consists of these words, in this order, with white space between any two of them. */
  predicate Spaced(line: string, words: seq<string>)
    decreases |words|
  {
    if words == [] then Blank(line)
    else
      var word := words[0];
      Wordlike(word) && exists i :: 0 <= i <= |line| && WordAt(line, word, i) && Spaced(line[i + |word|..], words[1..])
  }

  lemma {:induction false} FirstWordEnds(s: string)
    ensures var n := |FirstWord(s)|;
      && n <= |s| && FirstWord(s) == s[..n] && (n == |s| || White(s[n]))
      && forall i :: 0 <= i < n ==> !White(s[i])
  {
    if s != "" && !White(s[0]) {
      FirstWordEnds(s[1..]);
      var n := |FirstWord(s)|;
      assert s[..n] == [s[0]] + s[1..][..n - 1];
    }
  }

  lemma {:induction false} FirstWordIs(word: string, rest: string)
    requires (forall i :: 0 <= i < |word| ==> !White(word[i])) && (rest == "" || White(rest[0]))
    ensures FirstWord(word + rest) == word
  {
    if word == "" {
      assert word + rest == rest;
    } else {
      assert (word + rest)[1..] == word[1..] + rest;
      FirstWordIs(word[1..], rest);
    }
  }

  lemma SliceOfRest(line: string, i: nat, n: nat)
    requires i + n <= |line|
    ensures line[i..][..n] == line[i..i + n] && line[i..][n..] == line[i + n..]
    ensures i + n < |line| ==> line[i..][n] == line[i + n]
  {
  }

  lemma FirstWordFound(line: string)
    ensures var t := TrimStart(line); var word := FirstWord(t); var i := |line| - |t|;
      && |t| <= |line| && |word| <= |t|
      && (if word == "" then Blank(line) else Wordlike(word) && WordAt(line, word, i) && t[|word|..] == line[i + |word|..])
  {
    hide TrimStart, FirstWord, Blank, White;
    var t := TrimStart(line);
    TrimStartSplits(line);
    FirstWordEnds(t);
    SliceOfRest(line, |line| - |t|, |FirstWord(t)|);
    if FirstWord(t) == "" { assert line[..|line|] == line; }
  }

  lemma WordIsFirst(line: string, word: string, i: int)
    requires Wordlike(word) && WordAt(line, word, i)
    ensures var t := TrimStart(line); FirstWord(t) == word && |word| <= |t| && t[|word|..] == line[i + |word|..]
  {
    hide TrimStart, FirstWord;
    var rest := line[i + |word|..];
    assert line == line[..i] + (word + rest) && (word + rest)[0] == word[0];
    TrimStartTakes(line[..i], word + rest);
    FirstWordIs(word, rest);
  }

  lemma BlankHasNoWord(line: string)
    requires Blank(line)
    ensures FirstWord(TrimStart(line)) == ""
  {
    TrimStartTakes(line, "");
    assert line + "" == line;
  }

  lemma {:induction false} SplitIsSpaced(line: string)
    ensures Spaced(line, SplitWhitespace(line))
    decreases |line|
  {
    hide TrimStart, FirstWord, WordAt, Wordlike, Blank;
    var t := TrimStart(line);
    FirstWordFound(line);
    var word := FirstWord(t);
    if word != "" {
      SplitIsSpaced(t[|word|..]);
      var words := SplitWhitespace(line);
      assert words[0] == word && words[1..] == SplitWhitespace(t[|word|..]);
    }
  }

  lemma {:induction false} SpacedIsSplit(line: string, words: seq<string>)
    requires Spaced(line, words)
    ensures SplitWhitespace(line) == words
    decreases |words|
  {
    hide TrimStart, FirstWord, Blank;
    if words == [] {
      BlankHasNoWord(line);
    } else {
      var word := words[0];
      var i :| 0 <= i <= |line| && WordAt(line, word, i) && Spaced(line[i + |word|..], words[1..]);
      SpacedIsSplit(line[i + |word|..], words[1..]);
      WordIsFirst(line, word, i);
    }
  }

  /** The first word found is the one that stands at the beginning of the line, after white space. */
  lemma FirstWordIff(line: string, word: string)
    requires Wordlike(word)
    ensures SplitWhitespace(line) != [] && SplitWhitespace(line)[0] == word <==> exists i :: WordAt(line, word, i)
  {
    hide TrimStart, FirstWord, WordAt, Blank;
    FirstWordFound(line);
    if i :| WordAt(line, word, i) { WordIsFirst(line, word, i); }
  }

  /** Splitting finds exactly the words of a line. */
  lemma SplitIff(line: string, words: seq<string>)
    ensures SplitWhitespace(line) == words <==> Spaced(line, words)
  {
    hide SplitWhitespace, Spaced;
    SplitIsSpaced(line);
    if Spaced(line, words) { SpacedIsSplit(line, words); }
  }

  predicate PartAt(s: string, part: string, i: int) { 0 <= i <= |s| - |part| && s[i..i + |part|] == part }

  /** `Contains` finds a part exactly when it stands somewhere in the text. */
  lemma {:induction false} ContainsIff(s: string, part: string)
    ensures Contains(s, part) <==> exists i :: PartAt(s, part, i)
  {
    if part <= s { assert PartAt(s, part, 0); }
    if s != "" {
      ContainsIff(s[1..], part);
      if Contains(s[1..], part) {
        var i :| PartAt(s[1..], part, i);
        assert PartAt(s, part, i + 1);
      }
    }
    forall i | PartAt(s, part, i)
      ensures Contains(s, part)
    {
      if i > 0 {
        assert PartAt(s[1..], part, i - 1);
      } else {
        assert s[..|part|] == part;
      }
    }
  }

  // TrimNewlines takes off exactly the line ends at the end.
  lemma {:induction false} NewlinesAreTaken(s: string)
    ensures var n := |TrimNewlines(s)|;
      && n <= |s| && TrimNewlines(s) == s[..n] && (n == 0 || s[n - 1] !in "\r\n")
      && forall i :: n <= i < |s| ==> s[i] in "\r\n"
  {
    if s != "" && (s[|s| - 1] == '\r' || s[|s| - 1] == '\n') {
      NewlinesAreTaken(s[..|s| - 1]);
    }
  }

  /** `str::parse::<u64>` reads exactly decimal digits, after a plus sign or not, whose number fits 64 bits. */
  lemma ParseU64Iff(s: string, n: u64)
    ensures ParseU64(s) == Some(n) <==> exists digits ::
      (s == digits || s == "+" + digits) && digits != "" && AllDigits(digits) && NumberOf(digits) == n
  {
    hide NumberOf;
    if s != "" && s[0] == '+' { assert s == "+" + s[1..] && !Digit(s[0]); }
    forall digits | (s == digits || s == "+" + digits) && digits != "" && AllDigits(digits) && NumberOf(digits) == n
      ensures ParseU64(s) == Some(n)
    {
      assert Digit(digits[0]);
      if s == "+" + digits { assert s[1..] == digits; }
    }
  }

  /** The number of a string of digits, one digit at a time */
  lemma NumberOfDigit(s: string, c: char)
    requires AllDigits(s) && '0' <= c <= '9'
    ensures AllDigits(s + [c]) && NumberOf("") == 0 && NumberOf(s + [c]) == 10 * NumberOf(s) + (c as int - '0' as int)
  {
    assert (s + [c])[..|s|] == s;
  }
}
