/**
 * The command pipeline of the shell emulator's window: read the entry
 * field, ignore an empty line, echo the line after the prompt, split the
 * stripped line at whitespace and dispatch on the first word.
 *
 * The window itself is reduced to three fields: the text of the entry
 * field, the lines appended to the output area, and whether the window was
 * asked to quit.
 */
module Shell {
  import opened Wrappers

  // ---------------------------------------------------------------------
  // Whitespace, `str.strip()` and `str.split()`

  /** The characters Python's `str.split()` and `str.strip()` treat as whitespace. */
  predicate IsSpace(c: char) {
    || ('\U{0009}' <= c <= '\U{000D}')
    || ('\U{001C}' <= c <= '\U{0020}')
    || c == '\U{0085}' || c == '\U{00A0}' || c == '\U{1680}'
    || ('\U{2000}' <= c <= '\U{200A}')
    || c == '\U{2028}' || c == '\U{2029}' || c == '\U{202F}' || c == '\U{205F}' || c == '\U{3000}'
  }

  predicate AllSpace(s: string) {
    forall i :: 0 <= i < |s| ==> IsSpace(s[i])
  }

  /** A token `split()` can produce: non-empty, no whitespace. */
  predicate IsWord(w: string) {
    w != [] && forall i :: 0 <= i < |w| ==> !IsSpace(w[i])
  }

  /** `str.lstrip()`. */
  function StripLeft(s: string): string
    decreases |s|
  {
    if s != [] && IsSpace(s[0]) then StripLeft(s[1..]) else s
  }

  /** `str.rstrip()`. */
  function StripRight(s: string): string
    decreases |s|
  {
    if s != [] && IsSpace(s[|s| - 1]) then StripRight(s[..|s| - 1]) else s
  }

  /** `str.strip()`. */
  function Strip(s: string): string
  {
    StripRight(StripLeft(s))
  }

  /** `lstrip()` leaves the suffix after the leading whitespace. */
  lemma {:induction false} StripLeftSuffix(s: string)
    ensures var r := StripLeft(s);
      && |r| <= |s| && r == s[|s| - |r|..]
      && AllSpace(s[..|s| - |r|])
      && (r == [] || !IsSpace(r[0]))
    decreases |s|
  {
    if s != [] && IsSpace(s[0]) {
      StripLeftSuffix(s[1..]);
      var r := StripLeft(s[1..]);
      var k := |s| - |r|;
      assert s[k..] == s[1..][k - 1..];
      forall i | 0 <= i < k ensures IsSpace(s[..k][i]) {
        if i > 0 {
          assert s[..k][i] == s[1..][..k - 1][i - 1];
        }
      }
    } else {
      assert s[..0] == [];
    }
  }

  /** `rstrip()` leaves the prefix before the trailing whitespace. */
  lemma {:induction false} StripRightPrefix(s: string)
    ensures var r := StripRight(s);
      && |r| <= |s| && r == s[..|r|]
      && AllSpace(s[|r|..])
      && (r == [] || !IsSpace(r[|r| - 1]))
    decreases |s|
  {
    if s != [] && IsSpace(s[|s| - 1]) {
      StripRightPrefix(s[..|s| - 1]);
      var r := StripRight(s[..|s| - 1]);
      assert s[|r|..] == s[..|s| - 1][|r|..] + [s[|s| - 1]];
    } else {
      assert s[|s|..] == [];
    }
  }

  /**
   * `strip()` is empty exactly for an all-whitespace line, and otherwise
   * starts and ends with a non-whitespace character of the line.
   */
  lemma StripTrims(s: string)
    ensures Strip(s) == [] <==> AllSpace(s)
    ensures Strip(s) != [] ==> !IsSpace(Strip(s)[0]) && !IsSpace(Strip(s)[|Strip(s)| - 1])
  {
    var left := StripLeft(s);
    var r := StripRight(left);
    StripLeftSuffix(s);
    StripRightPrefix(left);
    assert left == [] <==> AllSpace(s) by {
      if left == [] {
        assert s[..|s|] == s;
      } else {
        assert left[0] == s[|s| - |left|];
      }
    }
    assert r != [] ==> r[0] == left[0];
  }

  /** The length of the run of non-whitespace characters that starts `s`. */
  function WordLength(s: string): (n: nat)
    ensures n <= |s|
    ensures forall i :: 0 <= i < n ==> !IsSpace(s[i])
    ensures n < |s| ==> IsSpace(s[n])
    decreases |s|
  {
    if s == [] || IsSpace(s[0]) then 0 else 1 + WordLength(s[1..])
  }

  /** `str.split()` with no separator: the maximal runs of non-whitespace, in order. */
  function Tokens(s: string): (r: seq<string>)
    ensures forall i :: 0 <= i < |r| ==> IsWord(r[i])
    decreases |s|
  {
    if s == [] then []
    else if IsSpace(s[0]) then Tokens(s[1..])
    else
      var n := WordLength(s);
      [s[..n]] + Tokens(s[n..])
  }

  /** `' '.join(words)`: the inverse `Tokens` is proved to undo. */
  function Unwords(words: seq<string>): string
  {
    if |words| == 0 then ""
    else if |words| == 1 then words[0]
    else words[0] + " " + Unwords(words[1..])
  }

  /** A line has no tokens exactly when it is all whitespace. */
  lemma {:induction false} TokensEmptyIffBlank(s: string)
    ensures Tokens(s) == [] <==> AllSpace(s)
    decreases |s|
  {
    if s != [] {
      TokensEmptyIffBlank(s[1..]);
      if IsSpace(s[0]) {
        assert AllSpace(s) <==> AllSpace(s[1..]) by {
          if AllSpace(s[1..]) {
            forall i | 0 <= i < |s| ensures IsSpace(s[i]) {
              if i > 0 {
                assert s[i] == s[1..][i - 1];
              }
            }
          }
          if AllSpace(s) {
            forall i | 0 <= i < |s[1..]| ensures IsSpace(s[1..][i]) {
              assert s[1..][i] == s[i + 1];
            }
          }
        }
      }
    }
  }

  lemma {:induction false} TokensSkipLeft(s: string)
    ensures Tokens(StripLeft(s)) == Tokens(s)
    decreases |s|
  {
    if s != [] && IsSpace(s[0]) {
      TokensSkipLeft(s[1..]);
    }
  }

  lemma {:induction false} WordLengthSpaceSuffix(s: string, c: char)
    requires IsSpace(c)
    ensures WordLength(s + [c]) == WordLength(s)
    decreases |s|
  {
    if s != [] && !IsSpace(s[0]) {
      assert (s + [c])[1..] == s[1..] + [c];
      WordLengthSpaceSuffix(s[1..], c);
    }
  }

  lemma {:induction false} TokensSpaceSuffix(s: string, c: char)
    requires IsSpace(c)
    ensures Tokens(s + [c]) == Tokens(s)
    decreases |s|
  {
    var t := s + [c];
    if s == [] {
      assert t == [c];
      assert t[1..] == [];
    } else if IsSpace(s[0]) {
      assert t[1..] == s[1..] + [c];
      TokensSpaceSuffix(s[1..], c);
    } else {
      WordLengthSpaceSuffix(s, c);
      var n := WordLength(s);
      assert t[..n] == s[..n];
      assert t[n..] == s[n..] + [c];
      TokensSpaceSuffix(s[n..], c);
    }
  }

  lemma {:induction false} TokensSkipRight(s: string)
    ensures Tokens(StripRight(s)) == Tokens(s)
    decreases |s|
  {
    if s != [] && IsSpace(s[|s| - 1]) {
      var init := s[..|s| - 1];
      TokensSkipRight(init);
      assert s == init + [s[|s| - 1]];
      TokensSpaceSuffix(init, s[|s| - 1]);
    }
  }

  /** Stripping before splitting changes nothing: `s.strip().split() == s.split()`. */
  lemma TokensOfStrip(s: string)
    ensures Tokens(Strip(s)) == Tokens(s)
  {
    TokensSkipRight(StripLeft(s));
    TokensSkipLeft(s);
  }

  lemma {:induction false} WordLengthOfWord(w: string, rest: string)
    requires IsWord(w) && (rest == [] || IsSpace(rest[0]))
    ensures WordLength(w + rest) == |w|
    decreases |w|
  {
    if |w| > 1 {
      assert (w + rest)[1..] == w[1..] + rest;
      assert IsWord(w[1..]) by {
        forall i | 0 <= i < |w[1..]| ensures !IsSpace(w[1..][i]) {
          assert w[1..][i] == w[i + 1];
        }
      }
      WordLengthOfWord(w[1..], rest);
    } else {
      assert (w + rest)[1..] == rest;
    }
  }

  /** Splitting words joined by single spaces gives the words back. */
  lemma {:induction false} TokensUnwords(words: seq<string>)
    requires forall i :: 0 <= i < |words| ==> IsWord(words[i])
    ensures Tokens(Unwords(words)) == words
    decreases |words|
  {
    if |words| == 1 {
      var w := words[0];
      WordLengthOfWord(w, "");
      assert w + "" == w;
      assert w[|w|..] == [];
      assert w[..|w|] == w;
    } else if |words| > 1 {
      var w := words[0];
      var rest := " " + Unwords(words[1..]);
      var s := w + rest;
      assert Unwords(words) == s;
      WordLengthOfWord(w, rest);
      assert s[0] == w[0];
      assert s[..|w|] == w;
      assert s[|w|..] == rest;
      assert Tokens(s) == [w] + Tokens(rest);
      assert rest[1..] == Unwords(words[1..]);
      assert forall i :: 0 <= i < |words[1..]| ==> IsWord(words[1..][i]) by {
        forall i | 0 <= i < |words[1..]| ensures IsWord(words[1..][i]) {
          assert words[1..][i] == words[i + 1];
        }
      }
      TokensUnwords(words[1..]);
      assert Tokens(rest) == words[1..];
      assert [w] + words[1..] == words;
    }
  }

  /** Whitespace in front of a line does not change its tokens. */
  lemma {:induction false} TokensSkipSpaces(g: string, y: string)
    requires AllSpace(g)
    ensures Tokens(g + y) == Tokens(y)
    decreases |g|
  {
    if g != [] {
      assert (g + y)[1..] == g[1..] + y;
      assert AllSpace(g[1..]) by {
        forall i | 0 <= i < |g[1..]| ensures IsSpace(g[1..][i]) {
          assert g[1..][i] == g[i + 1];
        }
      }
      TokensSkipSpaces(g[1..], y);
    } else {
      assert g + y == y;
    }
  }

  /** A word is cut where whitespace follows it, whatever comes after. */
  lemma {:induction false} WordLengthBeforeSpace(x: string, rest: string)
    requires rest == [] || IsSpace(rest[0])
    ensures WordLength(x + rest) == WordLength(x)
    decreases |x|
  {
    if x == [] {
      assert x + rest == rest;
    } else if !IsSpace(x[0]) {
      assert (x + rest)[1..] == x[1..] + rest;
      WordLengthBeforeSpace(x[1..], rest);
    }
  }

  /** Two tails that start with whitespace and split alike still split alike after the same front. */
  lemma {:induction false} TokensSameTail(x: string, r1: string, r2: string)
    requires r1 != [] && IsSpace(r1[0]) && r2 != [] && IsSpace(r2[0])
    requires Tokens(r1) == Tokens(r2)
    ensures Tokens(x + r1) == Tokens(x + r2)
    decreases |x|
  {
    if x == [] {
      assert x + r1 == r1 && x + r2 == r2;
    } else if IsSpace(x[0]) {
      assert (x + r1)[1..] == x[1..] + r1;
      assert (x + r2)[1..] == x[1..] + r2;
      TokensSameTail(x[1..], r1, r2);
    } else {
      var n := WordLength(x);
      WordLengthBeforeSpace(x, r1);
      WordLengthBeforeSpace(x, r2);
      assert (x + r1)[..n] == x[..n] == (x + r2)[..n];
      assert (x + r1)[n..] == x[n..] + r1;
      assert (x + r2)[n..] == x[n..] + r2;
      TokensSameTail(x[n..], r1, r2);
    }
  }

  /** Any run of whitespace between two parts of a line splits like a single space. */
  lemma TokensSpaceRun(x: string, g: string, y: string)
    requires g != [] && AllSpace(g)
    ensures Tokens(x + g + y) == Tokens(x + " " + y)
  {
    TokensSkipSpaces(g, y);
    TokensSkipSpaces(" ", y);
    assert (g + y)[0] == g[0];
    TokensSameTail(x, g + y, " " + y);
    assert x + g + y == x + (g + y);
    assert x + " " + y == x + (" " + y);
  }

  // ---------------------------------------------------------------------
  // Parsing and dispatch

  /** A parsed line: the command word and the remaining words. */
  datatype Command = Command(name: string, args: seq<string>)

  /**
   * `parts = command_line.strip().split()`, `command = parts[0]`,
   * `args = parts[1:]`; `None` where `parts[0]` raises `IndexError`.
   */
  function Parse(line: string): (c: Option<Command>)
    ensures c.None? <==> AllSpace(line)
    ensures c.Some? ==> Tokens(line) == [c.value.name] + c.value.args
  {
    TokensOfStrip(line);
    TokensEmptyIffBlank(line);
    var parts := Tokens(Strip(line));
    if parts == [] then None else Some(Command(parts[0], parts[1..]))
  }

  /** Words typed with single spaces parse back into the same command. */
  lemma ParseUnwords(name: string, args: seq<string>)
    requires IsWord(name) && forall i :: 0 <= i < |args| ==> IsWord(args[i])
    ensures Parse(Unwords([name] + args)) == Some(Command(name, args))
  {
    var words := [name] + args;
    assert forall i :: 0 <= i < |words| ==> IsWord(words[i]) by {
      forall i | 0 <= i < |words| ensures IsWord(words[i]) {
        if i > 0 {
          assert words[i] == args[i - 1];
        }
      }
    }
    TokensUnwords(words);
    var c := Parse(Unwords(words));
    assert c.Some?;
    var cmd := c.value;
    assert [cmd.name] + cmd.args == words;
    assert cmd.name == ([cmd.name] + cmd.args)[0] == name;
    assert cmd.args == ([cmd.name] + cmd.args)[1..] == args;
  }

  /** Python's `repr` of one string, as it appears inside the repr of a list. */
  function ReprString(s: string): (r: string)
    ensures |r| >= 2 && r[0] == r[|r| - 1] && (r[0] == '\'' || r[0] == '"')
  {
    var quote := if '\'' in s && '"' !in s then '"' else '\'';
    [quote] + ReprBody(s, quote) + [quote]
  }

  function ReprBody(s: string, quote: char): string
  {
    if s == [] then ""
    else ReprChar(s[0], quote) + ReprBody(s[1..], quote)
  }

  function ReprChar(c: char, quote: char): string
  {
    if c == quote || c == '\\' then ['\\', c]
    else if c == '\t' then "\\t"
    else if c == '\n' then "\\n"
    else if c == '\r' then "\\r"
    else if c as int < 0x20 || 0x7F <= c as int < 0xA0 then "\\x" + [HexDigit(c as int / 16), HexDigit(c as int % 16)]
    else [c]
  }

  function HexDigit(d: int): char
    requires 0 <= d < 16
  {
    "0123456789abcdef"[d]
  }

  /** Python's `repr` of a list of strings: `['a', 'b']`. */
  function ReprList(items: seq<string>): (r: string)
    ensures |r| >= 2 && r[0] == '[' && r[|r| - 1] == ']'
  {
    "[" + ReprItems(items) + "]"
  }

  function ReprItems(items: seq<string>): string
  {
    if |items| == 0 then ""
    else if |items| == 1 then ReprString(items[0])
    else ReprString(items[0]) + ", " + ReprItems(items[1..])
  }

  /** A string without quotes, backslashes or control characters is shown between single quotes. */
  lemma {:induction false} ReprOfPlain(s: string)
    requires forall i :: 0 <= i < |s| ==> s[i] != '\'' && s[i] != '"' && s[i] != '\\' && !(s[i] as int < 0x20 || 0x7F <= s[i] as int < 0xA0)
    ensures ReprString(s) == "'" + s + "'"
  {
    ReprBodyOfPlain(s);
  }

  lemma {:induction false} ReprBodyOfPlain(s: string)
    requires forall i :: 0 <= i < |s| ==> s[i] != '\'' && s[i] != '"' && s[i] != '\\' && !(s[i] as int < 0x20 || 0x7F <= s[i] as int < 0xA0)
    ensures ReprBody(s, '\'') == s
    decreases |s|
  {
    if s != [] {
      ReprBodyOfPlain(s[1..]);
      assert s == [s[0]] + s[1..];
    }
  }

  /** What a command does: ask the window to quit, or show one message. */
  datatype Action = Quit | Say(message: string)

  /**
   * The if/elif chain on the command word, compared case-sensitively: only
   * `exit` quits; `ls` and `cd` are stubs that show the word and the repr of
   * the argument list; every other word is reported as unknown.
   */
  function Dispatch(c: Command): (a: Action)
    ensures a.Quit? <==> c.name == "exit"
    ensures c.name == "ls" || c.name == "cd" ==> a == Say("Command: " + c.name + ", Args: " + ReprList(c.args))
    ensures a.Say? && c.name != "ls" && c.name != "cd" ==> a == Say("Error: Unknown command '" + c.name + "'")
  {
    if c.name == "exit" then Quit
    else if c.name == "ls" then Say("Command: " + c.name + ", Args: " + ReprList(c.args))
    else if c.name == "cd" then Say("Command: " + c.name + ", Args: " + ReprList(c.args))
    else Say("Error: Unknown command '" + c.name + "'")
  }

  /** `get_prompt`: the same two characters whatever the state of the filesystem. */
  function Prompt(): (p: string)
    ensures p == "$ "
  {
    "$ "
  }

  /**
   * The text `display_message` appends: the message, then one newline, with
   * the prompt in front when it echoes an input line.
   */
  function DisplayText(message: string, isInput: bool): (t: string)
    ensures |t| == (if isInput then |Prompt()| else 0) + |message| + 1
    ensures isInput ==> t[..|Prompt()|] == Prompt()
    ensures t[|t| - 1 - |message|..] == message + "\n"
  {
    if isInput then Prompt() + message + "\n" else message + "\n"
  }

  const StartupBanner := "Shell Emulator started. Type 'exit' to close."

  // ---------------------------------------------------------------------
  // One press of Return

  /** How `execute_command` ended. */
  datatype Outcome =
    | Ignored     // empty entry field: returned at once
    | Handled     // the command ran
    | IndexError  // the line was only whitespace: `parts[0]` raised

  /** All `execute_command` does with one line: the text it appends, whether it quits, how it ends. */
  datatype Response = Response(lines: seq<string>, quit: bool, outcome: Outcome)

  function Respond(line: string): (r: Response)
    ensures r.lines == [] <==> line == ""
    ensures line == "" ==> !r.quit && r.outcome == Ignored
    ensures line != "" ==> r.lines[0] == "$ " + line + "\n"
    ensures |r.lines| <= 2
    ensures forall i :: 0 <= i < |r.lines| ==> |r.lines[i]| > 0 && r.lines[i][|r.lines[i]| - 1] == '\n'
    ensures r.outcome == IndexError <==> line != "" && AllSpace(line)
    ensures r.quit ==> |r.lines| == 1 && Tokens(line) != [] && Tokens(line)[0] == "exit"
  {
    if line == "" then Response([], false, Ignored)
    else
      var echo := DisplayText(line, true);
      match Parse(line)
      case None => Response([echo], false, IndexError)
      case Some(c) =>
        match Dispatch(c)
        case Quit => Response([echo], true, Handled)
        case Say(m) => Response([echo, DisplayText(m, false)], false, Handled)
  }

  /** What each command word does, for any line whose words are `name` and then `args`. */
  lemma RespondByCommand(line: string, name: string, args: seq<string>)
    requires Tokens(line) == [name] + args
    ensures var r := Respond(line);
      && r.outcome == Handled
      && r.lines[0] == "$ " + line + "\n"
      && (r.quit <==> name == "exit")
      && (name == "exit" ==> r.lines == ["$ " + line + "\n"])
      && (name == "ls" || name == "cd" ==>
            r.lines == ["$ " + line + "\n", "Command: " + name + ", Args: " + ReprList(args) + "\n"])
      && (name != "exit" && name != "ls" && name != "cd" ==>
            r.lines == ["$ " + line + "\n", "Error: Unknown command '" + name + "'\n"])
  {
    TokensEmptyIffBlank(line);
    assert line != "";
    var c := Parse(line);
    assert c.Some?;
    assert [c.value.name] + c.value.args == [name] + args;
    assert c.value.name == name;
    assert c.value.args == ([name] + args)[1..] == args;
    var unknown := "Error: Unknown command '" + name + "'";
    assert unknown + "\n" == "Error: Unknown command '" + name + "'\n";
    var listing := "Command: " + name + ", Args: " + ReprList(args);
    assert listing + "\n" == "Command: " + name + ", Args: " + ReprList(args) + "\n";
  }

  /** A line of whitespace only is echoed and then fails, with no message and no quit. */
  lemma BlankLineFails(line: string)
    requires line != "" && AllSpace(line)
    ensures Respond(line) == Response(["$ " + line + "\n"], false, IndexError)
  {
  }

  // ---------------------------------------------------------------------
  // The window state

  class ShellEmulator {
    /** The lines appended to the output area, oldest first. */
    var output: seq<string>
    /** The text of the entry field. */
    var entry: string
    /** Whether `quit()` was called. */
    var quitRequested: bool

    /** The widgets are left out; only the start-up message is kept. */
    constructor ()
      ensures output == [StartupBanner + "\n"] && entry == "" && !quitRequested
    {
      output := [];
      entry := "";
      quitRequested := false;
      new;
      DisplayMessage(StartupBanner, false);
    }

    /** `display_message`: append one line at the end of the output area and change nothing else. */
    method DisplayMessage(message: string, isInput: bool)
      modifies this
      ensures output == old(output) + [if isInput then "$ " + message + "\n" else message + "\n"]
      ensures entry == old(entry) && quitRequested == old(quitRequested)
    {
      output := output + [DisplayText(message, isInput)];
    }

    /**
     * `execute_command`: one press of Return in the entry field. The line is
     * split by `Parse`, whose `None` is the `IndexError` of `parts[0]`, and
     * the if/elif chain on the command word is `Dispatch`.
     */
    method ExecuteCommand() returns (outcome: Outcome)
      modifies this
      ensures var r := Respond(old(entry));
        && output == old(output) + r.lines
        && quitRequested == (old(quitRequested) || r.quit)
        && outcome == r.outcome
      ensures entry == ""
    {
      var commandLine := entry;
      ghost var r := Respond(commandLine);
      if commandLine == "" {
        return Ignored;
      }
      var echo := DisplayText(commandLine, true);
      DisplayMessage(commandLine, true);
      assert output == old(output) + [echo];
      entry := "";
      var parsed := Parse(commandLine);
      if parsed.None? {
        assert r == Response([echo], false, IndexError);
        return IndexError;
      }
      var action := Dispatch(parsed.value);
      match action {
        case Quit =>
          assert r == Response([echo], true, Handled);
          quitRequested := true;
        case Say(message) =>
          assert r == Response([echo, DisplayText(message, false)], false, Handled);
          DisplayMessage(message, false);
      }
      return Handled;
    }
  }
}
