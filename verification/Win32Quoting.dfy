/**
  Quoting of command line arguments for Windows programs, and what the rules of CommandLineToArgvW make of them.
 */
module Win32Quoting {

  predicate IsSafe(c: char) {
    c != ' ' && c != '"'
  }

  predicate NeedsEscaping(s: string) {
    exists i | 0 <= i < |s| :: !IsSafe(s[i])
  }

  // ----- The parser -----

  /** The number of backslashes at the beginning. */
  function Run(s: string): (n: nat)
    ensures n <= |s| && (n < |s| ==> s[n] != '\\') && forall i | 0 <= i < n :: s[i] == '\\'
  {
    if s == "" || s[0] != '\\' then 0 else 1 + Run(s[1..])
  }

  function Backslashes(n: nat): (s: string)
    ensures |s| == n
  {
    seq(n, _ => '\\')
  }

  datatype Line = Arguments(args: seq<string>) | Ambiguous

  /**
    Backslashes before a quote stand for half as many, and an odd one makes the quote a character; otherwise they are
    characters. Two quotes in a row inside of quotes are read differently by different versions.
   */
  function Parse(s: string, quoted: bool, begun: bool, arg: string, args: seq<string>): Line
    decreases |s|
  {
    if s == "" then Arguments(if begun then args + [arg] else args)
    else if s[0] == '\\' then
      var n := Run(s);
      if n == |s| || s[n] != '"' then Parse(s[n..], quoted, true, arg + Backslashes(n), args)
      else if n % 2 == 1 then Parse(s[n + 1..], quoted, true, arg + Backslashes(n / 2) + "\"", args)
      else Parse(s[n..], quoted, true, arg + Backslashes(n / 2), args)
    else if s[0] == '"' then
      if quoted && |s| > 1 && s[1] == '"' then Ambiguous
      else Parse(s[1..], !quoted, true, arg, args)
    else if !quoted && (s[0] == ' ' || s[0] == '\t') then
      Parse(s[1..], false, false, "", if begun then args + [arg] else args)
    else Parse(s[1..], quoted, true, arg + [s[0]], args)
  }

  // ----- Escaping -----

  /** Backslashes are doubled before a quote, which gets one more, and at the end; `more` is escaped already. */
  function EscapePart(s: string, n: nat, more: string): string
    requires n <= |s|
  {
    if n == |s| then Backslashes(2 * n)
    else if s[n] == '"' then Backslashes(2 * n + 1) + "\"" + more
    else Backslashes(n) + [s[n]] + more
  }

  function EscapeBody(s: string): string
    decreases |s|
  {
    var n := Run(s);
    EscapePart(s, n, if n == |s| then "" else EscapeBody(s[n + 1..]))
  }

  function Escaped(s: string): string {
    if NeedsEscaping(s) then "\"" + EscapeBody(s) + "\"" else s
  }

  lemma RunIs(s: string, n: nat)
    requires n <= |s| && (n < |s| ==> s[n] != '\\') && forall i | 0 <= i < n :: s[i] == '\\'
    ensures Run(s) == n
  {
  }

  // ----- The parser undoes it -----

  /** Where an argument ends: at the end of the line or before a blank. */
  predicate IsBoundary(rest: string) {
    rest == "" || rest[0] == ' '
  }

  lemma ParseRun(n: nat, rest: string, quoted: bool, arg: string, args: seq<string>)
    requires rest == "" || (rest[0] != '\\' && rest[0] != '"')
    ensures Parse(Backslashes(n) + rest, quoted, true, arg, args) == Parse(rest, quoted, true, arg + Backslashes(n), args)
  {
    var s := Backslashes(n) + rest;
    RunIs(s, n);
    assert s[n..] == rest;
    if n == 0 {
      assert s == rest && arg + Backslashes(0) == arg;
    }
  }

  lemma ParseOddRun(n: nat, rest: string, quoted: bool, arg: string, args: seq<string>)
    ensures Parse(Backslashes(2 * n + 1) + "\"" + rest, quoted, true, arg, args)
         == Parse(rest, quoted, true, arg + Backslashes(n) + "\"", args)
  {
    var s := Backslashes(2 * n + 1) + "\"" + rest;
    RunIs(s, 2 * n + 1);
    assert s[2 * n + 2..] == rest;
  }

  lemma ParseEvenRun(n: nat, rest: string, quoted: bool, arg: string, args: seq<string>)
    ensures Parse(Backslashes(2 * n) + "\"" + rest, quoted, true, arg, args)
         == Parse("\"" + rest, quoted, true, arg + Backslashes(n), args)
  {
    var s := Backslashes(2 * n) + "\"" + rest;
    RunIs(s, 2 * n);
    assert s[2 * n..] == "\"" + rest;
    if n == 0 {
      assert s == "\"" + rest && arg + Backslashes(0) == arg;
    }
  }

  lemma ParsePlain(c: char, rest: string, quoted: bool, arg: string, args: seq<string>)
    requires c != '\\' && c != '"' && (quoted || (c != ' ' && c != '\t'))
    ensures Parse([c] + rest, quoted, true, arg, args) == Parse(rest, quoted, true, arg + [c], args)
  {
    assert ([c] + rest)[1..] == rest;
  }

  lemma ParseClosing(rest: string, arg: string, args: seq<string>)
    requires IsBoundary(rest)
    ensures Parse("\"" + rest, true, true, arg, args) == Parse(rest, false, true, arg, args)
  {
    assert ("\"" + rest)[1..] == rest;
  }

  lemma SplitRun(s: string, n: nat)
    requires n == Run(s)
    ensures n < |s| ==> s == Backslashes(n) + [s[n]] + s[n + 1..]
    ensures n == |s| ==> s == Backslashes(n)
  {
    hide Run;
    assert s[..n] == Backslashes(n);
    if n < |s| {
      assert s == s[..n] + [s[n]] + s[n + 1..];
    } else {
      assert s == s[..n];
    }
  }

  /** What is inside of the quotes comes back as it was. */
  lemma {:induction false} BodyParses(s: string, rest: string, arg: string, args: seq<string>)
    requires IsBoundary(rest)
    ensures Parse(EscapeBody(s) + "\"" + rest, true, true, arg, args) == Parse(rest, false, true, arg + s, args)
    decreases |s|
  {
    hide Backslashes, EscapeBody, IsBoundary, Parse, Run;
    var n := Run(s);
    SplitRun(s, n);
    EscapeBodyIs(s, n);
    if n == |s| {
      ParseEvenRun(n, rest, true, arg, args);
      ParseClosing(rest, arg + s, args);
    } else {
      var more := s[n + 1..];
      var after := EscapeBody(more) + "\"" + rest;
      if s[n] == '"' {
        assert EscapeBody(s) + "\"" + rest == Backslashes(2 * n + 1) + "\"" + after;
        ParseOddRun(n, after, true, arg, args);
        BodyParses(more, rest, arg + Backslashes(n) + "\"", args);
        assert arg + Backslashes(n) + "\"" + more == arg + s;
      } else {
        assert EscapeBody(s) + "\"" + rest == Backslashes(n) + ([s[n]] + after);
        ParseRun(n, [s[n]] + after, true, arg, args);
        ParsePlain(s[n], after, true, arg + Backslashes(n), args);
        BodyParses(more, rest, arg + Backslashes(n) + [s[n]], args);
        assert arg + Backslashes(n) + [s[n]] + more == arg + s;
      }
    }
  }

  lemma EscapeBodyIs(s: string, n: nat)
    requires n == Run(s)
    ensures EscapeBody(s) == EscapePart(s, n, if n == |s| then "" else EscapeBody(s[n + 1..]))
  {
    hide Run, EscapePart;
  }

  lemma {:induction false} SafeParses(s: string, rest: string, arg: string, args: seq<string>)
    requires !NeedsEscaping(s) && '\t' !in s && IsBoundary(rest)
    ensures Parse(s + rest, false, true, arg, args) == Parse(rest, false, true, arg + s, args)
    decreases |s|
  {
    hide Backslashes, Parse, Run;
    var n := Run(s);
    SplitRun(s, n);
    if n == |s| {
      ParseRun(n, rest, false, arg, args);
    } else {
      var more := s[n + 1..];
      assert s + rest == Backslashes(n) + ([s[n]] + (more + rest));
      assert s[n] != '\\' && IsSafe(s[n]);
      ParseRun(n, [s[n]] + (more + rest), false, arg, args);
      ParsePlain(s[n], more + rest, false, arg + Backslashes(n), args);
      SafeParses(more, rest, arg + Backslashes(n) + [s[n]], args);
      assert arg + Backslashes(n) + [s[n]] + more == arg + s;
    }
  }

  /** Whether an argument has begun makes no difference once a character of it is read. */
  lemma Begin(s: string, arg: string, args: seq<string>)
    requires s != "" && s[0] != ' ' && s[0] != '\t'
    ensures Parse(s, false, false, arg, args) == Parse(s, false, true, arg, args)
  {
  }

  predicate IsSafeArgument(s: string) {
    s != "" && (NeedsEscaping(s) || '\t' !in s)
  }

  lemma OneArgument(s: string, rest: string, args: seq<string>)
    requires IsSafeArgument(s) && IsBoundary(rest)
    ensures Parse(Escaped(s) + rest, false, false, "", args) == Parse(rest, false, true, s, args)
  {
    hide Backslashes, EscapeBody, IsBoundary, Run;
    assert "" + s == s;
    if NeedsEscaping(s) {
      var after := EscapeBody(s) + "\"" + rest;
      assert "\"" + EscapeBody(s) + "\"" + rest == "\"" + after;
      assert ("\"" + after)[1..] == after;
      assert Parse("\"" + after, false, false, "", args) == Parse(after, true, true, "", args);
      BodyParses(s, rest, "", args);
    } else {
      assert s[0] != ' ' && s[0] != '\t';
      Begin(s + rest, "", args);
      SafeParses(s, rest, "", args);
    }
  }

  function CommandLine(args: seq<string>): string {
    if args == [] then "" else if |args| == 1 then Escaped(args[0]) else Escaped(args[0]) + " " + CommandLine(args[1..])
  }

  /** A line of quoted arguments is parsed into exactly these arguments. */
  lemma {:induction false} ParserUndoes(inputs: seq<string>, args: seq<string>)
    requires forall i | 0 <= i < |inputs| :: IsSafeArgument(inputs[i])
    ensures Parse(CommandLine(inputs), false, false, "", args) == Arguments(args + inputs)
    decreases |inputs|
  {
    hide Escaped, IsSafeArgument;
    if inputs == [] {
      assert args + inputs == args;
    } else if |inputs| == 1 {
      OneArgument(inputs[0], "", args);
      assert Escaped(inputs[0]) + "" == Escaped(inputs[0]) && [inputs[0]] == inputs;
    } else {
      var more := CommandLine(inputs[1..]);
      OneArgument(inputs[0], " " + more, args);
      assert Escaped(inputs[0]) + " " + more == Escaped(inputs[0]) + (" " + more);
      assert (" " + more)[1..] == more;
      ParserUndoes(inputs[1..], args + [inputs[0]]);
      assert args + [inputs[0]] + inputs[1..] == args + inputs;
    }
  }

  /** Outside of quotes a tab ends an argument, so none of the arguments holds one. */
  lemma {:induction false} NoTabs(s: string, begun: bool, arg: string, args: seq<string>)
    requires '"' !in s && '\t' !in arg && forall a | a in args :: '\t' !in a
    ensures var r := Parse(s, false, begun, arg, args); r.Arguments? && forall a | a in r.args :: '\t' !in a
    decreases |s|
  {
    if s == "" {
    } else if s[0] == '\\' {
      NoTabs(s[Run(s)..], true, arg + Backslashes(Run(s)), args);
    } else if s[0] == ' ' || s[0] == '\t' {
      NoTabs(s[1..], false, "", if begun then args + [arg] else args);
    } else {
      NoTabs(s[1..], true, arg + [s[0]], args);
    }
  }

  /** One string comes back as one argument exactly if it is not empty and no tab is left outside of quotes. */
  lemma ParserUndoesExactlyWhen(s: string)
    ensures Parse(Escaped(s), false, false, "", []) == Arguments([s]) <==> IsSafeArgument(s)
  {
    if IsSafeArgument(s) {
      ParserUndoes([s], []);
      assert [] + [s] == [s];
    } else if s == "" {
      assert Parse(Escaped(s), false, false, "", []) == Arguments([]);
    } else {
      assert '"' !in s by {
        assert forall i | 0 <= i < |s| :: IsSafe(s[i]);
      }
      NoTabs(s, false, "", []);
      assert s in [s];
    }
  }

  // ----- The program -----

  lemma {:induction false} BodyIsLonger(s: string)
    ensures |EscapeBody(s)| >= |s|
    decreases |s|
  {
    var n := Run(s);
    if n < |s| {
      BodyIsLonger(s[n + 1..]);
    }
  }

  /** A string without spaces and quotes is left alone, and no other. */
  lemma QuotedExactlyWhen(s: string)
    ensures Escaped(s) == s <==> ' ' !in s && '"' !in s
  {
    hide EscapeBody;
    BodyIsLonger(s);
    if NeedsEscaping(s) {
      var i :| 0 <= i < |s| && !IsSafe(s[i]);
      assert s[i] in s && |Escaped(s)| > |s|;
    }
  }

  /**
    Appends the escaped string to `result`: spans are copied, and before a quote and at the end as many backslashes
    follow as were counted.
   */
  method GetWin32EscapedString(input: string, result: string) returns (r: string)
    ensures r == result + Escaped(input)
  {
    hide EscapeBody;
    var needs := false;
    for i := 0 to |input|
      invariant needs == exists j | 0 <= j < i :: !IsSafe(input[j])
    {
      if !IsSafe(input[i]) {
        needs := true;
      }
    }
    if !needs {
      return result + input;
    }
    r := EscapeSpans(input, result + "\"");
    assert result + "\"" + EscapeBody(input) + "\"" == result + ("\"" + EscapeBody(input) + "\"");
    r := r + "\"";
  }

  /** `count` backslashes just before `i`, and no quote since the span began. */
  ghost predicate Counted(input: string, i: nat, count: nat) {
    count <= i <= |input| && input[i - count..i] == Backslashes(count)
  }

  method EscapeSpans(input: string, result: string) returns (r: string)
    ensures r == result + EscapeBody(input)
  {
    hide Backslashes, Counted, EscapeBody;
    r := result;
    ghost var goal := r + EscapeBody(input);
    var span, count := 0, 0;
    Begun(input, r);
    for i := 0 to |input|
      invariant span <= i - count && 0 <= count && Counted(input, i, count)
      invariant goal == r + input[span..i - count] + EscapeBody(input[i - count..])
    {
      SpanStep(input, r, span, i, count);
      if input[i] == '\\' {
        count := count + 1;
      } else if input[i] == '"' {
        r := r + input[span..i] + Backslashes(count + 1);
        span := i;
        count := 0;
      } else {
        count := 0;
      }
    }
    SpanEnd(input, r, span, count);
    r := r + input[span..] + Backslashes(count);
  }

  lemma Begun(input: string, r: string)
    ensures r + input[0..0] + EscapeBody(input[0..]) == r + EscapeBody(input) && Counted(input, 0, 0)
  {
    hide EscapeBody;
    assert input[0..] == input && input[0..0] == Backslashes(0) == "";
  }

  lemma SpanStep(input: string, r: string, span: nat, i: nat, count: nat)
    requires span <= i - count && i < |input| && Counted(input, i, count)
    ensures var all := r + input[span..i - count] + EscapeBody(input[i - count..]);
      if input[i] == '\\' then Counted(input, i + 1, count + 1)
      else if input[i] == '"' then
        && Counted(input, i + 1, 0)
        && all == (r + input[span..i] + Backslashes(count + 1)) + input[i..i + 1] + EscapeBody(input[i + 1..])
      else Counted(input, i + 1, 0) && all == r + input[span..i + 1] + EscapeBody(input[i + 1..])
  {
    hide EscapeBody;
    CountedStep(input, i, count);
    if input[i] != '\\' {
      var head, more := input[span..i - count], EscapeBody(input[i + 1..]);
      RestAt(input, i, count);
      assert input[span..i] == head + Backslashes(count);
      if input[i] == '"' {
        assert input[i..i + 1] == "\"";
        assert Backslashes(2 * count + 1) == Backslashes(count) + Backslashes(count + 1);
        assert r + head + (Backslashes(count) + Backslashes(count + 1) + "\"" + more)
          == (r + (head + Backslashes(count)) + Backslashes(count + 1)) + "\"" + more;
      } else {
        assert input[span..i + 1] == head + Backslashes(count) + [input[i]];
        assert r + head + (Backslashes(count) + [input[i]] + more) == r + (head + Backslashes(count) + [input[i]]) + more;
      }
    }
  }

  lemma CountedStep(input: string, i: nat, count: nat)
    requires Counted(input, i, count) && i < |input|
    ensures if input[i] == '\\' then Counted(input, i + 1, count + 1) else Counted(input, i + 1, 0)
  {
    if input[i] == '\\' {
      assert input[i - count..i + 1] == input[i - count..i] + [input[i]];
      assert Backslashes(count + 1) == Backslashes(count) + "\\";
    }
  }

  /** The rest from the backslashes on, if another character follows them. */
  lemma RestAt(input: string, i: nat, count: nat)
    requires Counted(input, i, count) && i < |input| && input[i] != '\\'
    ensures EscapeBody(input[i - count..])
         == (if input[i] == '"' then Backslashes(2 * count + 1) else Backslashes(count))
            + [input[i]] + EscapeBody(input[i + 1..])
  {
    hide EscapeBody;
    var s := input[i - count..];
    assert forall j | 0 <= j < count :: s[j] == input[i - count..i][j];
    RunIs(s, count);
    EscapeBodyIs(s, count);
    assert s[count + 1..] == input[i + 1..];
  }

  lemma SpanEnd(input: string, r: string, span: nat, count: nat)
    requires span <= |input| - count && Counted(input, |input|, count)
    ensures r + input[span..|input| - count] + EscapeBody(input[|input| - count..])
         == r + input[span..] + Backslashes(count)
  {
    hide EscapeBody;
    var s := input[|input| - count..];
    RunIs(s, count);
    EscapeBodyIs(s, count);
    assert Backslashes(2 * count) == Backslashes(count) + Backslashes(count);
    assert input[span..] == input[span..|input| - count] + s;
  }
}
