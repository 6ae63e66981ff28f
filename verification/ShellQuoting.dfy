/**
  Quoting of command line arguments for a shell, and what the shell makes of them.
 */
module ShellQuoting {

  predicate IsSafeInShell(c: char) {
    'A' <= c <= 'Z' || 'a' <= c <= 'z' || '0' <= c <= '9' || c in "_+-./"
  }

  predicate NeedsShellEscaping(s: string) {
    exists i | 0 <= i < |s| :: !IsSafeInShell(s[i])
  }

  // ----- The shell -----

  /** The words of a command line, or something that is more than words. */
  datatype Line = Words(words: seq<string>) | Other

  /** Characters with a meaning beyond quoting and separating words. */
  predicate IsSpecial(c: char) {
    c in "|&;<>()$`\"*?[]#~=%{}!^\n"
  }

  function QuoteEnd(s: string): (n: nat)
    ensures n <= |s| && (n < |s| ==> s[n] == '\'') && forall i | 0 <= i < n :: s[i] != '\''
  {
    if s == "" || s[0] == '\'' then 0 else 1 + QuoteEnd(s[1..])
  }

  /**
    Token recognition of the shell, as far as backslashes (section 2.2.1 of the POSIX Shell Command Language), single
    quotes (section 2.2.2) and blanks go. A word has begun when `begun`.
   */
  function Tokens(s: string, begun: bool, word: string, words: seq<string>): Line
    decreases |s|
  {
    if s == "" then Words(if begun then words + [word] else words)
    else if s[0] == '\'' then
      var n := QuoteEnd(s[1..]);
      if n == |s| - 1 then Other else Tokens(s[n + 2..], true, word + s[1..n + 1], words)
    else if s[0] == '\\' then
      if |s| == 1 then Other
      else if s[1] == '\n' then Tokens(s[2..], begun, word, words)
      else Tokens(s[2..], true, word + [s[1]], words)
    else if s[0] == ' ' || s[0] == '\t' then Tokens(s[1..], false, "", if begun then words + [word] else words)
    else if IsSpecial(s[0]) then Other
    else Tokens(s[1..], true, word + [s[0]], words)
  }

  /** Every single quote becomes a quote outside of the quotes. */
  function EscapeQuotes(s: string): string {
    if s == "" then "" else (if s[0] == '\'' then "'\\''" else [s[0]]) + EscapeQuotes(s[1..])
  }

  function ShellEscaped(s: string): string {
    if NeedsShellEscaping(s) then "'" + EscapeQuotes(s) + "'" else s
  }

  lemma {:induction false} EscapeUntilQuote(s: string, k: nat)
    requires k <= |s| && forall i | 0 <= i < k :: s[i] != '\''
    ensures EscapeQuotes(s) == s[..k] + EscapeQuotes(s[k..])
    decreases k
  {
    if k == 0 {
      assert s[..0] + EscapeQuotes(s[0..]) == EscapeQuotes(s);
    } else {
      EscapeUntilQuote(s[1..], k - 1);
      assert s[1..][k - 1..] == s[k..];
      assert [s[0]] + s[1..][..k - 1] == s[..k];
    }
  }

  lemma QuoteEndIs(s: string, n: nat)
    requires n <= |s| && (n < |s| ==> s[n] == '\'') && forall i | 0 <= i < n :: s[i] != '\''
    ensures QuoteEnd(s) == n
  {
  }

  /** A quoted span is taken as it is. */
  lemma SpanTokens(t: string, rest: string, begun: bool, word: string, words: seq<string>)
    requires '\'' !in t
    ensures Tokens("'" + t + "'" + rest, begun, word, words) == Tokens(rest, true, word + t, words)
  {
    var s := "'" + t + "'" + rest;
    assert s[1..] == t + "'" + rest;
    QuoteEndIs(s[1..], |t|);
    assert s[1..|t| + 1] == t && s[|t| + 2..] == rest;
  }

  lemma QuoteTokens(rest: string, word: string, words: seq<string>)
    ensures Tokens("\\'" + rest, true, word, words) == Tokens(rest, true, word + "'", words)
  {
    var s := "\\'" + rest;
    assert s[0] == '\\' && s[1] == '\'' && s[2..] == rest;
  }

  /** The shell undoes the escaping of single quotes. */
  lemma {:induction false} EscapedTokens(s: string, rest: string, begun: bool, word: string, words: seq<string>)
    ensures Tokens("'" + EscapeQuotes(s) + "'" + rest, begun, word, words) == Tokens(rest, true, word + s, words)
    decreases |s|
  {
    hide EscapeQuotes, QuoteEnd, Tokens;
    var k := QuoteEnd(s);
    var t := s[..k];
    EscapeFirst(s, k);
    if k == |s| {
      SpanTokens(t, rest, begun, word, words);
    } else {
      var more := s[k + 1..];
      var after := "'" + EscapeQuotes(more) + "'" + rest;
      assert "'" + EscapeQuotes(s) + "'" + rest == "'" + t + "'" + ("\\'" + after);
      SpanTokens(t, "\\'" + after, begun, word, words);
      QuoteTokens(after, word + t, words);
      EscapedTokens(more, rest, true, word + t + "'", words);
      assert word + t + "'" + more == word + s;
    }
  }

  lemma EscapeFirst(s: string, k: nat)
    requires k <= |s| && (k < |s| ==> s[k] == '\'') && forall i | 0 <= i < k :: s[i] != '\''
    ensures if k == |s| then EscapeQuotes(s) == s[..k] == s
      else EscapeQuotes(s) == s[..k] + "'\\''" + EscapeQuotes(s[k + 1..])
  {
    EscapeUntilQuote(s, k);
    if k == |s| {
      assert s[k..] == "" && s[..k] == s;
    } else {
      assert s[k..][1..] == s[k + 1..];
      assert EscapeQuotes(s[k..]) == "'\\''" + EscapeQuotes(s[k + 1..]);
    }
  }

  lemma SafeIsPlain(c: char)
    requires IsSafeInShell(c)
    ensures c != '\'' && c != '\\' && c != ' ' && c != '\t' && !IsSpecial(c)
  {
  }

  lemma PlainToken(c: char, rest: string, begun: bool, word: string, words: seq<string>)
    requires c != '\'' && c != '\\' && c != ' ' && c != '\t' && !IsSpecial(c)
    ensures Tokens([c] + rest, begun, word, words) == Tokens(rest, true, word + [c], words)
  {
    hide IsSpecial;
    assert ([c] + rest)[1..] == rest;
  }

  lemma {:induction false} SafeTokens(s: string, rest: string, begun: bool, word: string, words: seq<string>)
    requires !NeedsShellEscaping(s) && s != ""
    ensures Tokens(s + rest, begun, word, words) == Tokens(rest, true, word + s, words)
    decreases |s|
  {
    hide Tokens, IsSafeInShell, IsSpecial;
    SafeIsPlain(s[0]);
    PlainToken(s[0], s[1..] + rest, begun, word, words);
    assert s + rest == [s[0]] + (s[1..] + rest);
    if |s| == 1 {
      assert s[1..] + rest == rest && word + [s[0]] == word + s;
    } else {
      SafeTokens(s[1..], rest, true, word + [s[0]], words);
      assert word + [s[0]] + s[1..] == word + s;
    }
  }

  lemma OneShellWord(s: string, rest: string, words: seq<string>)
    requires s != ""
    ensures Tokens(ShellEscaped(s) + rest, false, "", words) == Tokens(rest, true, s, words)
  {
    hide Tokens, NeedsShellEscaping, EscapeQuotes;
    assert "" + s == s;
    if NeedsShellEscaping(s) {
      EscapedTokens(s, rest, false, "", words);
    } else {
      SafeTokens(s, rest, false, "", words);
    }
  }

  function ShellLine(args: seq<string>): string {
    if args == [] then "" else if |args| == 1 then ShellEscaped(args[0])
    else ShellEscaped(args[0]) + " " + ShellLine(args[1..])
  }

  /** A line of quoted arguments falls into exactly these arguments. */
  lemma {:induction false} ShellUndoes(args: seq<string>, words: seq<string>)
    requires forall i | 0 <= i < |args| :: args[i] != ""
    ensures Tokens(ShellLine(args), false, "", words) == Words(words + args)
    decreases |args|
  {
    hide ShellEscaped;
    if args == [] {
      assert words + args == words;
    } else if |args| == 1 {
      OneShellWord(args[0], "", words);
      assert ShellEscaped(args[0]) + "" == ShellEscaped(args[0]) && [args[0]] == args;
    } else {
      var more := ShellLine(args[1..]);
      OneShellWord(args[0], " " + more, words);
      assert ShellEscaped(args[0]) + " " + more == ShellEscaped(args[0]) + (" " + more);
      assert (" " + more)[1..] == more;
      ShellUndoes(args[1..], words + [args[0]]);
      assert words + [args[0]] + args[1..] == words + args;
    }
  }

  /** One string comes back as one word exactly if it is not empty. */
  lemma ShellUndoesExactlyWhen(s: string)
    ensures Tokens(ShellEscaped(s), false, "", []) == Words([s]) <==> s != ""
  {
    if s != "" {
      ShellUndoes([s], []);
      assert [] + [s] == [s];
    }
  }

  function QuotesIn(s: string): nat {
    if s == "" then 0 else (if s[0] == '\'' then 1 else 0) + QuotesIn(s[1..])
  }

  lemma {:induction false} EscapedLength(s: string)
    ensures |EscapeQuotes(s)| == |s| + 3 * QuotesIn(s)
  {
    if s != "" {
      EscapedLength(s[1..]);
    }
  }

  /**
    A string of letters, digits and "_+-./" is left alone, and no other; quoting costs two characters and three more for
    each quote in the string.
   */
  lemma QuotedExactlyWhen(s: string)
    ensures ShellEscaped(s) == s <==>
      forall i | 0 <= i < |s| :: 'A' <= s[i] <= 'Z' || 'a' <= s[i] <= 'z' || '0' <= s[i] <= '9' || s[i] in "_+-./"
    ensures ShellEscaped(s) != s ==> |ShellEscaped(s)| == |s| + 2 + 3 * QuotesIn(s)
  {
    hide EscapeQuotes;
    EscapedLength(s);
    if NeedsShellEscaping(s) {
      var i :| 0 <= i < |s| && !IsSafeInShell(s[i]);
      assert |ShellEscaped(s)| > |s|;
    } else {
      forall i | 0 <= i < |s| ensures IsSafeInShell(s[i]) {}
    }
  }

  /** Appends the escaped string to `result`; whole spans are copied, and a quote begins the next span. */
  method GetShellEscapedString(input: string, result: string) returns (r: string)
    ensures r == result + ShellEscaped(input)
  {
    var needs := false;
    for i := 0 to |input|
      invariant needs == exists j | 0 <= j < i :: !IsSafeInShell(input[j])
    {
      if !IsSafeInShell(input[i]) {
        needs := true;
      }
    }
    if !needs {
      return result + input;
    }
    r := EscapeSpans(input, result + "'");
    assert result + "'" + EscapeQuotes(input) + "'" == result + ("'" + EscapeQuotes(input) + "'");
    r := r + "'";
  }

  method EscapeSpans(input: string, result: string) returns (r: string)
    ensures r == result + EscapeQuotes(input)
  {
    r := result;
    ghost var goal := r + EscapeQuotes(input);
    var span := 0;
    assert input[0..] == input;
    for i := 0 to |input|
      invariant span <= i && goal == r + input[span..i] + EscapeQuotes(input[i..])
    {
      EscapeStep(input, r, span, i);
      if input[i] == '\'' {
        r := r + input[span..i] + "'\\'";
        span := i;
      }
    }
    assert EscapeQuotes(input[|input|..]) == "";
    r := r + input[span..];
  }

  lemma EscapeStep(input: string, r: string, span: nat, i: nat)
    requires span <= i < |input|
    ensures var all := r + input[span..i] + EscapeQuotes(input[i..]);
      if input[i] == '\'' then all == (r + input[span..i] + "'\\'") + input[i..i + 1] + EscapeQuotes(input[i + 1..])
      else all == r + input[span..i + 1] + EscapeQuotes(input[i + 1..])
  {
    var more := EscapeQuotes(input[i + 1..]);
    assert input[i..][1..] == input[i + 1..];
    if input[i] == '\'' {
      assert EscapeQuotes(input[i..]) == "'\\'" + "'" + more;
      assert input[i..i + 1] == "'";
    } else {
      assert EscapeQuotes(input[i..]) == [input[i]] + more;
      assert input[span..i + 1] == input[span..i] + [input[i]];
    }
  }
}
