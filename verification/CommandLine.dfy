// The one-line text of a planned command, and the POSIX shell's reading of it.
module CommandLine {
  import opened Sequences
  import opened Wrappers

  // The characters quoteArg leaves bare.
  predicate IsBare(c: char) {
    || 'A' <= c <= 'Z' || 'a' <= c <= 'z' || '0' <= c <= '9'
    || c == '_' || c == '.' || c == '/' || c == ':' || c == '='
    || c == '@' || c == '%' || c == '+' || c == '$' || c == '-'
  }

  // Every ' inside single quotes becomes '\''.
  function EscapeQuotes(s: string): string {
    if s == "" then ""
    else (if s[0] == '\'' then "'\\''" else [s[0]]) + EscapeQuotes(s[1..])
  }

  function QuoteArg(arg: string): string {
    if arg != "" && forall i :: 0 <= i < |arg| ==> IsBare(arg[i]) then arg
    else "'" + EscapeQuotes(arg) + "'"
  }

  function CommandLine(argv: seq<string>): string {
    if argv == [] then ""
    else if |argv| == 1 then QuoteArg(argv[0])
    else QuoteArg(argv[0]) + " " + CommandLine(argv[1..])
  }

  // --- what a shell reads, sections 2.2.1 and 2.2.2 of the POSIX Shell
  // Command Language: a backslash or single quotes take away the meaning of
  // special characters; a bare special character other than $ is not a word.
  // A bare $ starts an expansion, or its result is unspecified (section 2.6).
  // literally is the reading that gives up on it; the other one leaves it as
  // it is, which is what the splitting into words does before any expansion.

  predicate IsBlank(c: char) { c == ' ' || c == '\t' || c == '\n' }

  function ReadWord(s: string, literally: bool): (r: Option<(string, string)>)
    ensures r.Some? ==> |r.value.1| <= |s|
    ensures r.Some? && s != "" && !IsBlank(s[0]) ==> |r.value.1| < |s|
    decreases |s|
  {
    if s == "" || IsBlank(s[0]) then Some(("", s))
    else if s[0] == '\'' then ReadQuoted(s[1..], literally)
    else if s[0] == '\\' then (if |s| < 2 then None else Prepend(s[1], ReadWord(s[2..], literally)))
    else if s[0] == '$' && literally then None
    else if IsBare(s[0]) then Prepend(s[0], ReadWord(s[1..], literally))
    else None
  }

  // The rest of a word from inside single quotes.
  function ReadQuoted(s: string, literally: bool): (r: Option<(string, string)>)
    ensures r.Some? ==> |r.value.1| < |s|
    decreases |s|
  {
    if s == "" then None
    else if s[0] == '\'' then ReadWord(s[1..], literally)
    else Prepend(s[0], ReadQuoted(s[1..], literally))
  }

  function Prepend(c: char, r: Option<(string, string)>): Option<(string, string)> {
    match r
    case None => None
    case Some((word, rest)) => Some(([c] + word, rest))
  }

  function ShellWords(s: string, literally: bool): Option<seq<string>>
    decreases |s|
  {
    if s == "" then Some([])
    else if IsBlank(s[0]) then ShellWords(s[1..], literally)
    else
      match ReadWord(s, literally)
      case None => None
      case Some((word, rest)) =>
        match ShellWords(rest, literally)
        case None => None
        case Some(words) => Some([word] + words)
  }

  lemma {:induction false} ReadBare(arg: string, rest: string, literally: bool)
    requires forall i :: 0 <= i < |arg| ==> IsBare(arg[i])
    requires rest == "" || IsBlank(rest[0])
    ensures ReadWord(arg + rest, literally) == if literally && '$' in arg then None else Some((arg, rest))
  {
    if arg == "" {
      assert arg + rest == rest;
    } else {
      ReadBare(arg[1..], rest, literally);
      HeadAndTail(arg[0], arg[1..] + rest);
      Regroup3([arg[0]], arg[1..], rest);
      assert arg == [arg[0]] + arg[1..];
    }
  }

  lemma {:induction false} ReadEscapedQuotes(arg: string, rest: string, literally: bool)
    requires rest == "" || IsBlank(rest[0])
    ensures ReadQuoted(EscapeQuotes(arg) + ("'" + rest), literally) == Some((arg, rest))
  {
    var tail := "'" + rest;
    if arg == "" {
      assert EscapeQuotes(arg) + tail == tail;
      HeadAndTail('\'', rest);
    } else {
      var after := EscapeQuotes(arg[1..]) + tail;
      ReadEscapedQuotes(arg[1..], rest, literally);
      assert arg == [arg[0]] + arg[1..];
      if arg[0] == '\'' {
        ReadReopenedQuote(after, literally);
        Regroup3("'\\''", EscapeQuotes(arg[1..]), tail);
      } else {
        Regroup3([arg[0]], EscapeQuotes(arg[1..]), tail);
        HeadAndTail(arg[0], after);
      }
    }
  }

  // Closing the quotes, an escaped quote, opening them again.
  lemma ReadReopenedQuote(after: string, literally: bool)
    ensures ReadQuoted("'\\''" + after, literally) == Prepend('\'', ReadQuoted(after, literally))
  {
    var reopened := ['\''] + after;
    HeadAndTail('\'', after);
    assert ReadWord(reopened, literally) == ReadQuoted(after, literally);
    var escaped := ['\\'] + (['\''] + reopened);
    HeadAndTail('\\', ['\''] + reopened);
    HeadAndTail('\'', reopened);
    assert escaped[2..] == reopened;
    assert ReadWord(escaped, literally) == Prepend('\'', ReadWord(reopened, literally));
    HeadAndTail('\'', escaped);
    assert "'\\''" + after == ['\''] + escaped;
  }

  // quoteArg leaves the argument bare although it holds a dollar sign.
  predicate BareDollar(arg: string) {
    '$' in arg && forall i :: 0 <= i < |arg| ==> IsBare(arg[i])
  }

  lemma ReadArg(arg: string, rest: string, literally: bool)
    requires rest == "" || IsBlank(rest[0])
    ensures ReadWord(QuoteArg(arg) + rest, literally)
         == if literally && BareDollar(arg) then None else Some((arg, rest))
    ensures QuoteArg(arg) != "" && !IsBlank(QuoteArg(arg)[0])
  {
    if arg != "" && forall i :: 0 <= i < |arg| ==> IsBare(arg[i]) {
      ReadBare(arg, rest, literally);
    } else {
      var body := EscapeQuotes(arg) + ("'" + rest);
      ReadEscapedQuotes(arg, rest, literally);
      Regroup3("'", EscapeQuotes(arg), "'");
      Regroup3(EscapeQuotes(arg), "'", rest);
      Regroup3("'", EscapeQuotes(arg) + "'", rest);
      HeadAndTail('\'', body);
    }
  }

  // The text of more than one argument.
  lemma ReadFirst(arg: string, more: string, literally: bool)
    ensures var text := QuoteArg(arg) + " " + more;
            ShellWords(text, literally) ==
              if literally && BareDollar(arg) then None
              else match ShellWords(more, literally)
                   case None => None
                   case Some(words) => Some([arg] + words)
  {
    var rest := " " + more;
    ReadArg(arg, rest, literally);
    Regroup3(QuoteArg(arg), " ", more);
    assert rest[1..] == more;
    assert ShellWords(rest, literally) == ShellWords(more, literally);
  }

  lemma ReadLast(arg: string, literally: bool)
    ensures ShellWords(QuoteArg(arg), literally) == if literally && BareDollar(arg) then None else Some([arg])
  {
    ReadArg(arg, "", literally);
    assert QuoteArg(arg) + "" == QuoteArg(arg);
    assert ShellWords("", literally) == Some([]);
    assert [arg] + [] == [arg];
  }

  ghost predicate NoBareDollar(argv: seq<string>) {
    forall arg :: arg in argv ==> !BareDollar(arg)
  }

  lemma FirstArgument(argv: seq<string>)
    requires argv != []
    ensures argv == [argv[0]] + argv[1..]
    ensures NoBareDollar(argv) <==> !BareDollar(argv[0]) && NoBareDollar(argv[1..])
  {
    assert argv == [argv[0]] + argv[1..];
  }

  // A shell splits the text of a command into exactly its arguments; and it is
  // bound to take them literally exactly when quoteArg left no dollar sign bare.
  lemma {:induction false} CommandLineReads(argv: seq<string>, literally: bool)
    ensures ShellWords(CommandLine(argv), literally) == Some(argv) <==> !literally || NoBareDollar(argv)
    ensures ShellWords(CommandLine(argv), literally).Some? ==> ShellWords(CommandLine(argv), literally).value == argv
  {
    if argv == [] {
    } else if |argv| == 1 {
      ReadLast(argv[0], literally);
      FirstArgument(argv);
    } else {
      ReadFirst(argv[0], CommandLine(argv[1..]), literally);
      CommandLineReads(argv[1..], literally);
      FirstArgument(argv);
    }
  }

  lemma CommandLineRoundTrip(argv: seq<string>)
    ensures ShellWords(CommandLine(argv), false) == Some(argv)
  {
    CommandLineReads(argv, false);
  }

  lemma CommandLineInjective(a: seq<string>, b: seq<string>)
    requires CommandLine(a) == CommandLine(b)
    ensures a == b
  {
    CommandLineRoundTrip(a);
    CommandLineRoundTrip(b);
  }

  // --- how it looks -------------------------------------------------------------

  // A letter, a digit or one of _./:=@%+$-
  predicate IsPlain(c: char) {
    65 <= c as int <= 90 || 97 <= c as int <= 122 || 48 <= c as int <= 57 || c in "_./:=@%+$-"
  }

  lemma BareIsPlain(c: char)
    ensures IsBare(c) <==> IsPlain(c)
  {}

  predicate IsQuoted(s: string) {
    |s| >= 2 && s[0] == '\'' && s[|s| - 1] == '\''
  }

  // An argument is written as it is exactly when it is not empty and all its
  // characters are plain, and otherwise between single quotes.
  lemma QuotedUnless(arg: string)
    ensures arg != "" && (forall i :: 0 <= i < |arg| ==> IsPlain(arg[i])) ==> QuoteArg(arg) == arg
    ensures arg == "" || (exists i :: 0 <= i < |arg| && !IsPlain(arg[i])) ==>
              IsQuoted(QuoteArg(arg)) && ('\'' !in arg ==> QuoteArg(arg) == "'" + arg + "'")
  {
    EscapeOnlyQuotes(arg);
    forall i | 0 <= i < |arg| ensures IsBare(arg[i]) <==> IsPlain(arg[i]) {
      BareIsPlain(arg[i]);
    }
  }

  lemma {:induction false} EscapeOnlyQuotes(s: string)
    ensures |EscapeQuotes(s)| >= |s|
    ensures '\'' !in s ==> EscapeQuotes(s) == s
  {
    if s != "" {
      EscapeOnlyQuotes(s[1..]);
      assert s == [s[0]] + s[1..];
    }
  }

  // Nothing but the dollar sign that a shell treats specially is left bare.
  lemma BareIsHarmless(c: char)
    requires IsBare(c)
    ensures !IsBlank(c) && c !in "|&;<>()`\\\"'*?[]#~!{}^\r"
  {}

  // The arguments are separated by one space.
  lemma {:induction false} CommandLineJoins(a: seq<string>, b: seq<string>)
    requires a != [] && b != []
    ensures CommandLine(a + b) == CommandLine(a) + (" " + CommandLine(b))
  {
    if |a| == 1 {
      assert (a + b)[1..] == b;
      Regroup3(QuoteArg(a[0]), " ", CommandLine(b));
    } else {
      var rest := a[1..];
      CommandLineJoins(rest, b);
      assert (a + b)[1..] == rest + b;
      Regroup3(QuoteArg(a[0]) + " ", CommandLine(rest), " " + CommandLine(b));
    }
  }
}
