/**
 * How the `pr-github`, `merge` and `merge-pr-github` commands display a
 * command line in their error messages (each of the three carries an
 * identical copy of `quote_arg` and `format_command`).
 *
 * The quoting follows the POSIX Shell Command Language (IEEE Std 1003.1):
 * inside single quotes every character stands for itself (section 2.2.2
 * "Single-Quotes"), so a single quote inside a quoted argument is written
 * by closing the quotes, escaping it with a backslash (section 2.2.1
 * "Escape Character") and opening them again.  `SplitWords` is the part of
 * the shell's reading that this quoting relies on, and the round-trip
 * lemmas say that the displayed command reads back as the argument vector
 * that was run.
 */
module ShellQuote {
  import opened Wrappers
  import opened Text

  /** The characters `quote_arg` leaves unquoted: ASCII letters and digits and `-_./=`. */
  predicate IsSafeChar(c: char)
  {
    ('a' <= c <= 'z') || ('A' <= c <= 'Z') || ('0' <= c <= '9')
    || c == '-' || c == '_' || c == '.' || c == '/' || c == '='
  }

  predicate AllSafe(s: string)
  {
    forall i :: 0 <= i < |s| ==> IsSafeChar(s[i])
  }

  /** `value.replace('\'', "'\\''")`: every single quote becomes close-quote, escaped quote, open-quote. */
  function EscapeQuotes(s: string): (r: string)
    ensures |r| >= |s|
    ensures '\'' !in s ==> r == s
  {
    if s == [] then []
    else (if s[0] == '\'' then "'\\''" else [s[0]]) + EscapeQuotes(s[1..])
  }

  /**
   * `quote_arg` as the source writes it: a value made only of safe
   * characters is shown as it is, anything else between single quotes.
   * The empty value is made only of safe characters, so it is shown as
   * nothing at all (see `EmptyArgumentVanishes`).
   */
  function QuoteArgAsWritten(value: string): (r: string)
    ensures r == value <==> AllSafe(value)
    ensures r != value ==> |r| >= 2 && r[0] == '\'' && r[|r| - 1] == '\''
  {
    if AllSafe(value) then value else "'" + EscapeQuotes(value) + "'"
  }

  /**
   * `quote_arg` with the empty value quoted as `''`, so that every
   * argument, the empty one included, stays a word of its own.
   */
  function QuoteArg(value: string): (r: string)
    ensures r != []
    ensures value != [] ==> r == QuoteArgAsWritten(value)
    ensures r == value <==> value != [] && AllSafe(value)
  {
    if value != [] && AllSafe(value) then value else "'" + EscapeQuotes(value) + "'"
  }

  function QuotedPartsAsWritten(args: seq<string>): (r: seq<string>)
    ensures |r| == |args|
    ensures forall i :: 0 <= i < |args| ==> r[i] == QuoteArgAsWritten(args[i])
  {
    if args == [] then [] else [QuoteArgAsWritten(args[0])] + QuotedPartsAsWritten(args[1..])
  }

  function QuotedParts(args: seq<string>): (r: seq<string>)
    ensures |r| == |args|
    ensures forall i :: 0 <= i < |args| ==> r[i] == QuoteArg(args[i])
  {
    if args == [] then [] else [QuoteArg(args[0])] + QuotedParts(args[1..])
  }

  /** `format_command` as the source writes it: the quoted program and arguments, separated by one space. */
  function FormatCommandAsWritten(program: string, args: seq<string>): string
  {
    Join(QuotedPartsAsWritten([program] + args), " ")
  }

  /** `format_command` over the corrected quoting; this is the one the error messages of the model use. */
  function FormatCommand(program: string, args: seq<string>): string
  {
    Join(QuotedParts([program] + args), " ")
  }

  /**
   * The two quotings differ only on the empty word: when the program and
   * every argument are non-empty, the corrected command line is the one
   * the source displays.
   */
  lemma FormatCommandAgreesWithSource(program: string, args: seq<string>)
    requires program != [] && forall i :: 0 <= i < |args| ==> args[i] != []
    ensures FormatCommand(program, args) == FormatCommandAsWritten(program, args)
  {
    var words := [program] + args;
    assert QuotedParts(words) == QuotedPartsAsWritten(words) by {
      forall i | 0 <= i < |words|
        ensures QuotedParts(words)[i] == QuotedPartsAsWritten(words)[i]
      {
        if i > 0 { assert words[i] == args[i - 1]; }
      }
    }
  }

  /** The blanks that separate words: space, tab and newline. */
  predicate IsSeparator(c: char)
  {
    c == ' ' || c == '\t' || c == '\n'
  }

  /** Where a shell's reading of a command line stands after some of its characters. */
  datatype LexState =
    | Between(words: seq<string>)
    | InWord(words: seq<string>, current: string)
    | InQuotes(words: seq<string>, current: string)
    | Escaped(words: seq<string>, current: string)

  /** Reading one more character. */
  function Step(st: LexState, c: char): LexState
  {
    match st
    case Between(ws) =>
      if IsSeparator(c) then st
      else if c == '\'' then InQuotes(ws, "")
      else if c == '\\' then Escaped(ws, "")
      else InWord(ws, [c])
    case InWord(ws, cur) =>
      if IsSeparator(c) then Between(ws + [cur])
      else if c == '\'' then InQuotes(ws, cur)
      else if c == '\\' then Escaped(ws, cur)
      else InWord(ws, cur + [c])
    case InQuotes(ws, cur) =>
      if c == '\'' then InWord(ws, cur) else InQuotes(ws, cur + [c])
    case Escaped(ws, cur) =>
      InWord(ws, cur + [c])
  }

  /** Reading every character of `s`, left to right. */
  function Scan(s: string, st: LexState): LexState
    decreases |s|
  {
    if s == [] then st else Scan(s[1..], Step(st, s[0]))
  }

  /** The end of the input closes the current word; an open quote or a dangling backslash is an error. */
  function Finish(st: LexState): Result<seq<string>>
  {
    match st
    case Between(ws) => Ok(ws)
    case InWord(ws, cur) => Ok(ws + [cur])
    case InQuotes(_, _) => Err("unterminated single quote")
    case Escaped(_, _) => Err("backslash at end of input")
  }

  /**
   * The words a POSIX shell reads from a command line made of unquoted
   * characters, single-quoted strings and backslash escapes, split at
   * blanks (sections 2.2.1, 2.2.2 and 2.6.5 "Field Splitting" of the Shell
   * Command Language).  Expansions and operators are not read here: the
   * characters that would start them are never left unquoted by `QuoteArg`.
   */
  function SplitWords(s: string): Result<seq<string>>
  {
    Finish(Scan(s, Between([])))
  }

  lemma {:induction false} ScanAppend(a: string, b: string, st: LexState)
    ensures Scan(a + b, st) == Scan(b, Scan(a, st))
    decreases |a|
  {
    if a == [] {
      assert a + b == b;
    } else {
      assert (a + b)[0] == a[0];
      assert (a + b)[1..] == a[1..] + b;
      ScanAppend(a[1..], b, Step(st, a[0]));
    }
  }

  /** Safe characters extend the current word one by one. */
  lemma {:induction false} ScanSafe(s: string, ws: seq<string>, cur: string)
    requires AllSafe(s)
    ensures Scan(s, InWord(ws, cur)) == InWord(ws, cur + s)
    decreases |s|
  {
    if s != [] {
      assert IsSafeChar(s[0]);
      assert AllSafe(s[1..]) by {
        forall i | 0 <= i < |s[1..]| ensures IsSafeChar(s[1..][i]) {
          assert s[1..][i] == s[i + 1];
        }
      }
      assert cur + s == (cur + [s[0]]) + s[1..];
      ScanSafe(s[1..], ws, cur + [s[0]]);
    }
  }

  /** Inside quotes, the escaped form of one single quote stands for that quote. */
  lemma ScanEscapedQuote(ws: seq<string>, cur: string)
    ensures Scan("'\\''", InQuotes(ws, cur)) == InQuotes(ws, cur + "'")
  {
    var s := "'\\''";
    assert s[1..] == "\\''";
    assert s[1..][1..] == "''";
    assert s[1..][1..][1..] == "'";
    assert s[1..][1..][1..][1..] == "";
  }

  /** Inside quotes, any character but a quote is taken as it is. */
  lemma ScanPlainInQuotes(c: char, ws: seq<string>, cur: string)
    requires c != '\''
    ensures Scan([c], InQuotes(ws, cur)) == InQuotes(ws, cur + [c])
  {
    assert [c][1..] == [];
  }

  /** Inside quotes, `EscapeQuotes(s)` stands for `s`. */
  lemma {:induction false} ScanEscaped(s: string, ws: seq<string>, cur: string)
    ensures Scan(EscapeQuotes(s), InQuotes(ws, cur)) == InQuotes(ws, cur + s)
    decreases |s|
  {
    if s == [] {
      assert cur + s == cur;
    } else {
      ScanEscapedHead(s, ws, cur);
      ScanEscaped(s[1..], ws, cur + [s[0]]);
      MoveFirst(cur, s);
    }
  }

  lemma MoveFirst(cur: string, s: string)
    requires s != []
    ensures (cur + [s[0]]) + s[1..] == cur + s
  {
    assert s == [s[0]] + s[1..];
  }

  /** Inside quotes, the escaped form of the first character stands for it. */
  lemma ScanEscapedHead(s: string, ws: seq<string>, cur: string)
    requires s != []
    ensures Scan(EscapeQuotes(s), InQuotes(ws, cur)) == Scan(EscapeQuotes(s[1..]), InQuotes(ws, cur + [s[0]]))
  {
    var piece := if s[0] == '\'' then "'\\''" else [s[0]];
    assert EscapeQuotes(s) == piece + EscapeQuotes(s[1..]);
    ScanAppend(piece, EscapeQuotes(s[1..]), InQuotes(ws, cur));
    if s[0] == '\'' {
      ScanEscapedQuote(ws, cur);
    } else {
      ScanPlainInQuotes(s[0], ws, cur);
    }
  }

  /** A value between single quotes, escaped, reads back as one word holding the value. */
  lemma QuotedForm(value: string, ws: seq<string>)
    ensures Scan("'" + EscapeQuotes(value) + "'", Between(ws)) == InWord(ws, value)
  {
    var e := EscapeQuotes(value);
    assert "'" + e + "'" == "'" + (e + "'");
    ScanAppend("'", e + "'", Between(ws));
    assert Scan("'", Between(ws)) == InQuotes(ws, "");
    ScanAppend(e, "'", InQuotes(ws, ""));
    ScanEscaped(value, ws, "");
    assert "" + value == value;
  }

  /** The corrected quoting of any value reads back as exactly that value. */
  lemma QuoteArgReadsBack(value: string, ws: seq<string>)
    ensures Scan(QuoteArg(value), Between(ws)) == InWord(ws, value)
  {
    if value != [] && AllSafe(value) {
      assert value == [value[0]] + value[1..];
      ScanAppend([value[0]], value[1..], Between(ws));
      assert Scan([value[0]], Between(ws)) == InWord(ws, [value[0]]);
      assert AllSafe(value[1..]) by {
        forall i | 0 <= i < |value[1..]| ensures IsSafeChar(value[1..][i]) {
          assert value[1..][i] == value[i + 1];
        }
      }
      ScanSafe(value[1..], ws, [value[0]]);
    } else {
      QuotedForm(value, ws);
    }
  }

  /** The first quoted word and its space read back as that word, completed. */
  lemma ScanFirstQuoted(args: seq<string>, ws: seq<string>)
    requires |args| >= 2
    ensures Scan(Join(QuotedParts(args), " "), Between(ws))
         == Scan(Join(QuotedParts(args[1..]), " "), Between(ws + [args[0]]))
  {
    var parts := QuotedParts(args);
    assert parts[1..] == QuotedParts(args[1..]);
    QuoteArgReadsBack(args[0], ws);
    ScanPastFirstPart(parts, ws, args[0]);
  }

  /** A first part that reads as the word `w` is closed by the space after it. */
  lemma ScanPastFirstPart(parts: seq<string>, ws: seq<string>, w: string)
    requires |parts| >= 2
    requires Scan(parts[0], Between(ws)) == InWord(ws, w)
    ensures Scan(Join(parts, " "), Between(ws)) == Scan(Join(parts[1..], " "), Between(ws + [w]))
  {
    var rest := Join(parts[1..], " ");
    JoinFirst(parts, " ");
    ScanAppend(parts[0], " " + rest, Between(ws));
    ScanAppend(" ", rest, InWord(ws, w));
    SpaceClosesWord(ws, w);
  }

  lemma JoinFirst(parts: seq<string>, sep: string)
    requires |parts| >= 2
    ensures Join(parts, sep) == parts[0] + (sep + Join(parts[1..], sep))
  {
    AppendAssocStr(parts[0], sep, Join(parts[1..], sep));
  }

  lemma AppendAssocStr(a: string, b: string, c: string)
    ensures a + b + c == a + (b + c)
  {
  }

  /** A space ends the word being read. */
  lemma SpaceClosesWord(ws: seq<string>, w: string)
    ensures Scan(" ", InWord(ws, w)) == Between(ws + [w])
  {
  }

  /** Reading state `st` holds the words `ws + args`, the last one still open. */
  predicate HoldsWords(st: LexState, all: seq<string>)
  {
    st.InWord? && st.words + [st.current] == all
  }

  lemma HoldsWordsRegroup(st: LexState, ws: seq<string>, args: seq<string>)
    requires args != []
    requires HoldsWords(st, (ws + [args[0]]) + args[1..])
    ensures HoldsWords(st, ws + args)
  {
    assert (ws + [args[0]]) + args[1..] == ws + args;
  }

  /** Quoted words joined by spaces read back as the words, the last one still open. */
  lemma {:induction false} ScanQuotedJoin(args: seq<string>, ws: seq<string>)
    requires args != []
    ensures HoldsWords(Scan(Join(QuotedParts(args), " "), Between(ws)), ws + args)
    decreases |args|
  {
    if |args| == 1 {
      assert QuotedParts(args) == [QuoteArg(args[0])];
      QuoteArgReadsBack(args[0], ws);
      assert args == [args[0]];
    } else {
      var st2 := Scan(Join(QuotedParts(args[1..]), " "), Between(ws + [args[0]]));
      ScanQuotedJoin(args[1..], ws + [args[0]]);
      HoldsWordsRegroup(st2, ws, args);
      ScanFirstQuoted(args, ws);
    }
  }

  /** The displayed command reads back as the program followed by its arguments. */
  lemma FormatCommandReadsBack(program: string, args: seq<string>)
    ensures SplitWords(FormatCommand(program, args)) == Ok([program] + args)
  {
    ScanQuotedJoin([program] + args, []);
    assert [] + ([program] + args) == [program] + args;
  }

  /** A non-empty value reads back the same under the quoting as written. */
  lemma QuoteArgAsWrittenReadsBack(value: string, ws: seq<string>)
    requires value != []
    ensures Scan(QuoteArgAsWritten(value), Between(ws)) == InWord(ws, value)
  {
    QuoteArgReadsBack(value, ws);
  }

  /** As written, `program flag ""` is displayed with nothing after the final space. */
  lemma EmptyArgumentShownAsNothing(program: string, flag: string)
    requires AllSafe(program) && AllSafe(flag)
    ensures FormatCommandAsWritten(program, [flag, ""]) == program + " " + flag + " "
  {
    var parts := QuotedPartsAsWritten([program, flag, ""]);
    assert parts == [program, flag, ""];
    assert parts[1..] == [flag, ""];
    assert parts[1..][1..] == [""];
    assert Join(parts[1..][1..], " ") == "";
    assert Join(parts[1..], " ") == flag + " " + "";
    assert Join(parts, " ") == program + " " + (flag + " " + "");
  }

  /** `program flag ` reads back as two words. */
  lemma TrailingSpaceReadsBack(program: string, flag: string)
    requires program != [] && flag != []
    requires AllSafe(program) && AllSafe(flag)
    ensures SplitWords(program + " " + flag + " ") == Ok([program, flag])
  {
    ScanAppend(program + " " + flag, " ", Between([]));
    ScanAppend(program + " ", flag, Between([]));
    ScanAppend(program, " ", Between([]));
    QuoteArgAsWrittenReadsBack(program, []);
    assert Scan(" ", InWord([], program)) == Between([program]);
    QuoteArgAsWrittenReadsBack(flag, [program]);
    assert Scan(" ", InWord([program], flag)) == Between([program, flag]);
  }

  /**
   * As written, an empty argument is displayed as nothing: a command such
   * as `gh --body ""` is shown as one that reads back without its last
   * argument.  The corrected quoting keeps it.
   */
  lemma EmptyArgumentVanishes(program: string, flag: string)
    requires program != [] && flag != []
    requires AllSafe(program) && AllSafe(flag)
    ensures SplitWords(FormatCommandAsWritten(program, [flag, ""])) == Ok([program, flag])
    ensures SplitWords(FormatCommand(program, [flag, ""])) == Ok([program, flag, ""])
  {
    EmptyArgumentShownAsNothing(program, flag);
    TrailingSpaceReadsBack(program, flag);
    FormatCommandReadsBack(program, [flag, ""]);
    assert [program] + [flag, ""] == [program, flag, ""];
  }
}
