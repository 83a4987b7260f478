/** Quoting an argument vector for a remote POSIX shell (internal/remoteworker/policy.go), against
    the shell's own rules: sections 2.2.1, 2.2.2, 2.2.3 and 2.3 of POSIX.1-2017 XCU. */
module ShellQuote {

  // ----- the shell ---------------------------------------------------------------------------

  /** Between words, in an unquoted stretch of a word, in single quotes, in double quotes. */
  datatype Mode = Blank | Bare | Single | Double

  /** The fields of a command line, or NotPlain when the line is not just a list of words:
      an operator, an expansion, a pattern, a comment, a second line or an unfinished quote. */
  datatype Reading = Words(words: seq<string>) | NotPlain

  /** Characters that, unquoted, make a line more than a list of words (section 2.2). */
  predicate Special(c: char) {
    c in "|&;<>()$`*?[#~=%!{}\n"
  }

  function Prepend(word: string, r: Reading): Reading {
    if r.Words? then Words([word] + r.words) else NotPlain
  }

  /** Reading a command line from left to right; word is the field begun so far. */
  function Parse(s: string, mode: Mode, word: string): Reading
    decreases |s|, 1
  {
    if s == "" then
      if mode == Blank then Words([]) else if mode == Bare then Words([word]) else NotPlain
    else if s[0] == '\0' then NotPlain
    else if mode == Single then
      if s[0] == '\'' then Parse(s[1..], Bare, word) else Parse(s[1..], Single, word + [s[0]])
    else if mode == Double then ParseDouble(s, word)
    else if s[0] == ' ' || s[0] == '\t' then
      if mode == Bare then Prepend(word, Parse(s[1..], Blank, "")) else Parse(s[1..], Blank, "")
    else if s[0] == '\'' then Parse(s[1..], Single, word)
    else if s[0] == '"' then Parse(s[1..], Double, word)
    else if s[0] == '\\' then
      if |s| == 1 || s[1] == '\0' then NotPlain
      else if s[1] == '\n' then Parse(s[2..], mode, word)
      else Parse(s[2..], Bare, word + [s[1]])
    else if Special(s[0]) then NotPlain
    else Parse(s[1..], Bare, word + [s[0]])
  }

  /** Within double quotes a backslash quotes only the characters that stay special there. */
  function ParseDouble(s: string, word: string): Reading
    requires s != "" && s[0] != '\0'
    decreases |s|, 0
  {
    if s[0] == '"' then Parse(s[1..], Bare, word)
    else if s[0] == '$' || s[0] == '`' then NotPlain
    else if s[0] == '\\' && |s| > 1 && s[1] == '\n' then Parse(s[2..], Double, word)
    else if s[0] == '\\' && |s| > 1 && s[1] in "$`\"\\" then Parse(s[2..], Double, word + [s[1]])
    else Parse(s[1..], Double, word + [s[0]])
  }

  function ReadLine(s: string): Reading {
    Parse(s, Blank, "")
  }

  // ----- the quoting -------------------------------------------------------------------------

  predicate HasNul(s: string) {
    '\0' in s
  }

  /** Every single quote leaves the quotes, is double-quoted, and enters them again. */
  function Escape(s: string): string {
    if s == "" then "" else (if s[0] == '\'' then "'\"'\"'" else [s[0]]) + Escape(s[1..])
  }

  function Quote(s: string): string {
    "'" + Escape(s) + "'"
  }

  function JoinWords(words: seq<string>): string {
    if words == [] then ""
    else if |words| == 1 then words[0]
    else words[0] + " " + JoinWords(words[1..])
  }

  function QuoteAll(argv: seq<string>): seq<string> {
    seq(|argv|, i requires 0 <= i < |argv| => Quote(argv[i]))
  }

  datatype Quoted = Line(line: string) | Refused

  method QuoteArgv(argv: seq<string>) returns (r: Quoted)
    ensures r == if argv == [] || exists i :: 0 <= i < |argv| && HasNul(argv[i]) then Refused
                 else Line(JoinWords(QuoteAll(argv)))
  {
    if |argv| == 0 {
      return Refused;
    }
    var quoted := new string[|argv|](_ => "");
    for i := 0 to |argv|
      invariant forall k :: 0 <= k < i ==> !HasNul(argv[k]) && quoted[k] == Quote(argv[k])
    {
      if '\0' in argv[i] {
        assert HasNul(argv[i]);
        return Refused;
      }
      quoted[i] := Quote(argv[i]);
    }
    assert quoted[..] == QuoteAll(argv);
    return Line(JoinWords(quoted[..]));
  }

  // ----- round trip --------------------------------------------------------------------------

  lemma Step(s: string, mode: Mode, word: string, c: char, rest: string)
    requires s == [c] + rest && c != '\0'
    ensures mode == Single && c != '\'' ==> Parse(s, mode, word) == Parse(rest, Single, word + [c])
    ensures mode == Single && c == '\'' ==> Parse(s, mode, word) == Parse(rest, Bare, word)
    ensures mode == Double && c == '"' ==> Parse(s, mode, word) == Parse(rest, Bare, word)
    ensures mode == Double && c == '\'' ==> Parse(s, mode, word) == Parse(rest, Double, word + [c])
    ensures (mode == Bare || mode == Blank) && c == '\'' ==> Parse(s, mode, word) == Parse(rest, Single, word)
    ensures mode == Bare && c == '"' ==> Parse(s, mode, word) == Parse(rest, Double, word)
    ensures mode == Bare && c == ' ' ==> Parse(s, mode, word) == Prepend(word, Parse(rest, Blank, ""))
  {
    assert s[1..] == rest;
  }

  /** The five characters that stand for a quote add just that quote to the word. */
  lemma EscapedQuote(rest: string, word: string)
    ensures Parse("'\"'\"'" + rest, Single, word) == Parse(rest, Single, word + ['\''])
  {
    var s4 := "'" + rest;
    var s3 := "\"" + s4;
    var s2 := "'" + s3;
    var s1 := "\"" + s2;
    assert "'\"'\"'" + rest == "'" + s1;
    Step("'" + s1, Single, word, '\'', s1);
    Step(s1, Bare, word, '"', s2);
    Step(s2, Double, word, '\'', s3);
    Step(s3, Double, word + ['\''], '"', s4);
    Step(s4, Bare, word + ['\''], '\'', rest);
  }

  /** Reading an escaped argument to its closing quote gives the argument. */
  lemma {:induction false} ParseEscape(arg: string, tail: string, word: string)
    requires !HasNul(arg)
    ensures Parse(Escape(arg) + ("'" + tail), Single, word) == Parse(tail, Bare, word + arg)
  {
    if arg == "" {
      assert Escape(arg) + ("'" + tail) == "'" + tail && word + arg == word;
      Step("'" + tail, Single, word, '\'', tail);
    } else {
      var rest := Escape(arg[1..]) + ("'" + tail);
      assert arg[0] in arg && forall c :: c in arg[1..] ==> c in arg;
      ParseEscape(arg[1..], tail, word + [arg[0]]);
      assert word + [arg[0]] + arg[1..] == word + arg;
      if arg[0] == '\'' {
        assert Escape(arg) + ("'" + tail) == "'\"'\"'" + rest;
        EscapedQuote(rest, word);
      } else {
        assert Escape(arg) + ("'" + tail) == [arg[0]] + rest;
        Step([arg[0]] + rest, Single, word, arg[0], rest);
      }
    }
  }

  lemma ParseQuoted(arg: string, tail: string)
    requires !HasNul(arg)
    ensures ReadLine(Quote(arg) + tail) == Parse(tail, Bare, arg)
  {
    var rest := Escape(arg) + ("'" + tail);
    assert Quote(arg) + tail == "'" + rest;
    Step("'" + rest, Blank, "", '\'', rest);
    ParseEscape(arg, tail, "");
    assert "" + arg == arg;
  }

  /** The shell reads the quoted line as exactly the argument vector: no argument is split, lost,
      expanded or joined, whatever it contains except NUL. */
  lemma {:induction false} QuoteRoundTrip(argv: seq<string>)
    requires argv != [] && forall i :: 0 <= i < |argv| ==> !HasNul(argv[i])
    ensures ReadLine(JoinWords(QuoteAll(argv))) == Words(argv)
  {
    var first := Quote(argv[0]);
    if |argv| == 1 {
      ParseQuoted(argv[0], "");
      assert first + "" == first;
    } else {
      QuoteRoundTrip(argv[1..]);
      assert QuoteAll(argv)[1..] == QuoteAll(argv[1..]);
      var rest := JoinWords(QuoteAll(argv[1..]));
      var tail := " " + rest;
      ParseQuoted(argv[0], tail);
      Step(tail, Bare, argv[0], ' ', rest);
      assert JoinWords(QuoteAll(argv)) == first + tail;
    }
  }

  // ----- the policy the vector passes first ----------------------------------------------------

  /** Some non-empty prefix on the list begins the vector. */
  predicate Allowed(argv: seq<string>, allowedPrefixes: seq<seq<string>>) {
    exists k :: 0 <= k < |allowedPrefixes| && allowedPrefixes[k] != [] && allowedPrefixes[k] <= argv
  }

  method CommandAllowed(argv: seq<string>, allowedPrefixes: seq<seq<string>>) returns (allowed: bool)
    ensures allowed <==> Allowed(argv, allowedPrefixes)
    ensures allowed <==> exists k :: 0 <= k < |allowedPrefixes| && 0 < |allowedPrefixes[k]| <= |argv|
                                     && forall i :: 0 <= i < |allowedPrefixes[k]| ==> argv[i] == allowedPrefixes[k][i]
  {
    if |argv| == 0 {
      return false;
    }
    for k := 0 to |allowedPrefixes|
      invariant forall j :: 0 <= j < k ==> allowedPrefixes[j] == [] || !(allowedPrefixes[j] <= argv)
    {
      var prefix := allowedPrefixes[k];
      if |prefix| == 0 || |argv| < |prefix| {
        continue;
      }
      var matches := true;
      var i := 0;
      while i < |prefix|
        invariant 0 <= i <= |prefix| && matches
        invariant forall j :: 0 <= j < i ==> argv[j] == prefix[j]
      {
        if argv[i] != prefix[i] {
          matches := false;
          break;
        }
        i := i + 1;
      }
      if matches {
        return true;
      }
    }
    return false;
  }
}
