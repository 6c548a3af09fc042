/** The command lines kept for recall. */
module CommandHistory {
  import opened Prelude
  import opened Text

  const MAX_HISTORY: int := 64

  // The kept lines, which of them is on screen, and the line that was being typed before browsing
  datatype Recall = Recall(entries: seq<string>, position: Option<nat>, draft: string) {
    predicate Valid() { position.Some? ==> position.value < |entries| }

    function Older(current: string): (Recall, Option<string>)
      requires Valid()
    {
      if entries == [] then (this, None)
      else
        var index := if position.Some? then (if position.value == 0 then 0 else position.value - 1) else |entries| - 1;
        (Recall(entries, Some(index), if position.Some? then draft else current), Some(entries[index]))
    }

    function Newer(): (Recall, Option<string>)
      requires Valid()
    {
      if position == None then (this, None)
      else if position.value + 1 < |entries| then
        (this.(position := Some(position.value + 1)), Some(entries[position.value + 1]))
      else (this.(position := None), Some(draft))
    }

    function Begin(): Recall { Recall(entries, None, "") }

    function OlderTimes(n: nat, current: string): (r: Recall)
      requires Valid()
      ensures r.Valid() && r.entries == entries
    {
      if n == 0 then this else OlderTimes(n - 1, current).Older(current).0
    }

    function NewerTimes(n: nat): (r: Recall)
      requires Valid()
      ensures r.Valid() && r.entries == entries
    {
      if n == 0 then this else NewerTimes(n - 1).Newer().0
    }
  }

  lemma {:induction false} OlderReaches(r: Recall, n: nat, current: string)
    requires r.Valid() && r.entries != [] && r.position == None && n > 0
    ensures var back := r.OlderTimes(n, current);
      && back.position == Some(if n <= |r.entries| then |r.entries| - n else 0)
      && back.draft == current
  {
    if n > 1 {
      OlderReaches(r, n - 1, current);
    }
  }

  lemma {:induction false} NewerReaches(r: Recall, n: nat)
    requires r.Valid() && r.position.Some? && n < |r.entries| - r.position.value
    ensures r.NewerTimes(n) == r.(position := Some(r.position.value + n))
  {
    if n > 0 {
      NewerReaches(r, n - 1);
    }
  }

  /** Browsing back any number of times and forward again ends with the line that was being typed. */
  lemma BrowsingRestoresDraft(r: Recall, n: nat, current: string)
    requires r.Valid() && r.entries != [] && r.position == None && n > 0
    ensures var steps := if n <= |r.entries| then n else |r.entries|;
            var last := r.OlderTimes(n, current).NewerTimes(steps - 1).Newer();
      last.0.position == None && last.1 == Some(current)
  {
    OlderReaches(r, n, current);
    var steps := if n <= |r.entries| then n else |r.entries|;
    NewerReaches(r.OlderTimes(n, current), steps - 1);
  }

  predicate Sensitive(line: string, resolved: seq<string>) {
    || (SplitWhitespace(line) != [] && SplitWhitespace(line)[0] in {"import", "export"})
    || Contains(line, "--base58") || Contains(line, "--mnemonic")
    || (resolved != [] && resolved[0] in {"import", "export"})
    || "--base58" in resolved || "--mnemonic" in resolved
  }

  function Remembered(entries: seq<string>, input: string, resolved: seq<string>): seq<string> {
    var line := TrimNewlines(input);
    if Trim(line) == [] || Sensitive(line, resolved) then entries
    else if entries != [] && entries[|entries| - 1] == line then entries
    else (if |entries| == MAX_HISTORY then entries[1..] else entries) + [line]
  }

  /** Never more than 64 lines, no line twice in a row, and no line that names a secret. */
  predicate Tidy(entries: seq<string>) {
    && |entries| <= MAX_HISTORY
    && (forall i :: 0 <= i < |entries| - 1 ==> entries[i] != entries[i + 1])
    && (forall i :: 0 <= i < |entries| ==> Trim(entries[i]) != [] && !Sensitive(entries[i], []))
  }

  lemma RememberStaysTidy(entries: seq<string>, input: string, resolved: seq<string>)
    requires Tidy(entries)
    ensures Tidy(Remembered(entries, input, resolved))
    ensures Sensitive(TrimNewlines(input), resolved) ==> Remembered(entries, input, resolved) == entries
  {
    hide Contains, SplitWhitespace, Trim, TrimNewlines;
    var line := TrimNewlines(input);
    assert Sensitive(line, []) ==> Sensitive(line, resolved);
  }

  /** The line itself names a secret: its first word imports or exports, or it asks for a key or a phrase
      anywhere. */
  ghost predicate NamesSecret(line: string) {
    || (exists i :: WordAt(line, "import", i)) || (exists i :: WordAt(line, "export", i))
    || (exists i :: PartAt(line, "--base58", i)) || (exists i :: PartAt(line, "--mnemonic", i))
  }

  lemma SensitiveIff(line: string, resolved: seq<string>)
    ensures Sensitive(line, resolved) <==>
      || NamesSecret(line)
      || (resolved != [] && (resolved[0] == "import" || resolved[0] == "export"))
      || "--base58" in resolved || "--mnemonic" in resolved
  {
    hide Contains, SplitWhitespace;
    PlainCommands();
    FirstWordIff(line, "import");
    FirstWordIff(line, "export");
    ContainsIff(line, "--base58");
    ContainsIff(line, "--mnemonic");
  }

  lemma PlainCommands()
    ensures Wordlike("import") && Wordlike("export")
  {
  }

  /** A line is kept exactly when it is not blank, names no secret, neither itself nor as the command it stands
      for, and does not repeat the last; it is then the newest, without its line end, and of 64 older lines
      the oldest goes. */
  lemma RememberedIff(entries: seq<string>, input: string, resolved: seq<string>)
    requires |entries| <= MAX_HISTORY
    ensures var line := TrimNewlines(input);
      var secret := NamesSecret(line) || (resolved != [] && (resolved[0] == "import" || resolved[0] == "export"))
                    || "--base58" in resolved || "--mnemonic" in resolved;
      Remembered(entries, input, resolved)
        == if Blank(line) || secret || (entries != [] && entries[|entries| - 1] == line) then entries
           else (if |entries| == 64 then entries[1..] else entries) + [line]
    ensures var line := TrimNewlines(input); line <= input && forall i :: |line| <= i < |input| ==> input[i] in "\r\n"
  {
    hide Sensitive, Trim, TrimNewlines, NamesSecret, Typed;
    var line := TrimNewlines(input);
    NewlinesAreTaken(input);
    SensitiveIff(line, resolved);
    TrimIff(line, "");
    TypedBlank(line);
  }

  /** No kept line names a secret. */
  lemma KeptLinesAreClean(entries: seq<string>, i: nat)
    requires Tidy(entries) && i < |entries|
    ensures !NamesSecret(entries[i]) && !Blank(entries[i])
  {
    hide Sensitive, Trim, NamesSecret, Typed;
    SensitiveIff(entries[i], []);
    TrimIff(entries[i], "");
    TypedBlank(entries[i]);
  }

  /** Going back n times shows the n-th newest line, or the oldest. */
  lemma {:induction false} OlderShows(r: Recall, n: nat, current: string)
    requires r.Valid() && r.entries != [] && r.position == None && n > 0
    ensures r.OlderTimes(n - 1, current).Older(current).1
         == Some(r.entries[if n <= |r.entries| then |r.entries| - n else 0])
  {
    if n > 1 { OlderReaches(r, n - 1, current); }
  }

  /** Coming forward shows the next newer line. */
  lemma NewerShows(r: Recall)
    requires r.Valid() && r.position.Some? && r.position.value + 1 < |r.entries|
    ensures r.Newer() == (r.(position := Some(r.position.value + 1)), Some(r.entries[r.position.value + 1]))
  {
  }

  class CommandHistory {
    var entries: seq<string>
    var position: Option<nat>
    var draft: string

    ghost function Value(): Recall
      reads this
    {
      Recall(entries, position, draft)
    }

    constructor ()
      ensures Value() == Recall([], None, "")
    {
      entries, position, draft := [], None, "";
    }

    method Remember(input: string, resolved: seq<string>)
      requires Tidy(entries)
      modifies this`entries
      ensures Tidy(entries) && entries == Remembered(old(entries), input, resolved)
    {
      RememberStaysTidy(entries, input, resolved);
      var line := TrimNewlines(input);
      if Trim(line) == [] || Sensitive(line, resolved) { return; }
      if entries != [] && entries[|entries| - 1] == line { return; }
      if |entries| == MAX_HISTORY {
        entries := entries[1..];
      }
      entries := entries + [line];
    }

    method BeginLine()
      modifies this`position, this`draft
      ensures Value() == old(Value()).Begin()
    {
      position := None;
      draft := "";
    }

    method Older(current: string) returns (line: Option<string>)
      requires Value().Valid()
      modifies this`position, this`draft
      ensures (Value(), line) == old(Value()).Older(current) && Value().Valid()
    {
      if entries == [] { return None; }
      var index := |entries| - 1;
      if position.Some? {
        index := if position.value == 0 then 0 else position.value - 1;
      } else {
        draft := current;
      }
      position := Some(index);
      return Some(entries[index]);
    }

    method Newer() returns (line: Option<string>)
      requires Value().Valid()
      modifies this`position
      ensures (Value(), line) == old(Value()).Newer() && Value().Valid()
    {
      if position == None { return None; }
      var index := position.value;
      if index + 1 < |entries| {
        position := Some(index + 1);
        return Some(entries[index + 1]);
      }
      position := None;
      return Some(draft);
    }
  }
}
