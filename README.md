# Shell emulator core in Dafny

A model of the two pieces of sequential logic of a small shell emulator
written in Python around a tkinter window:

- **The in-memory filesystem** (`vfs.py`, class `VFS`): a mapping `fs` from
  path strings to entries (a `type` token and an optional `content`) and a
  working directory `cwd`. It can be filled from a three-column table
  (`load_from_csv`) or with a fixed default population (`create_default`),
  and it turns a path typed by the user into an absolute one
  (`get_full_path`, POSIX `os.path.normpath` semantics).
- **The command pipeline** (`main.py`, `ShellEmulator.execute_command`):
  read the entry field, ignore an empty line, echo the line after the prompt
  `"$ "`, split the stripped line at whitespace and dispatch on the first
  word (`exit`, `ls`, `cd`, anything else).

Files:

- `wrappers.dfy` — `Option`, standing for Python's `None`.
- `paths.dfy` — module `Paths`: `os.path.isabs`, `os.path.join` and
  `os.path.normpath` of POSIX, the backslash replacement, and the properties
  of the resolved path (canonical form, idempotence, root collapse).
- `vfs.dfy` — module `Vfs`: the entry type, the class `VFS` with its
  constructor, `LoadFromCsv` (a loop over an array of rows), `CreateDefault`
  and `GetFullPath`; the function `Table` that says what a load leaves
  behind, with lemmas on its keys and values.
- `shell.dfy` — module `Shell`: Python's whitespace, `strip()` and `split()`;
  parsing, `repr` of the argument list, dispatch; the pure `Respond` that
  says what one press of Return does; the class `ShellEmulator` whose
  `ExecuteCommand` appends to an output sequence and sets a quit flag.

How the pieces are modelled:

- `load_from_csv` receives, instead of a file name to open, the outcome of
  opening (`Opened`, `FileNotFound`, `OpenFailed(reason)`), the rows the CSV
  reader yields, already split into fields, as an `array<Row>`, and the
  text of an exception the reader raises after those rows, if any. The
  method reassigns `fs` to the root and then enters one row per loop turn,
  as the source does. Its postcondition states the whole final state for
  each of the four ways the call can end.
- `get_full_path` depends only on `cwd` and its argument; it never reads
  `fs`. `os.path.join` adds no slash after a `cwd` that already ends in
  `/`, so from the root the joined path never starts with `//`.
- POSIX `normpath` keeps exactly two leading slashes (`"//a"` stays `"//a"`);
  the model keeps that case (`Paths.DoubleSlashRoot`), and the
  canonical-form results say what happens in it.
- `execute_command` is split into `Shell.Parse` (lines 70-72),
  `Shell.Dispatch` (lines 75-84), `Shell.Respond`, a function from the line
  to the lines appended, the quit signal and how the call ended, and the
  method `ShellEmulator.ExecuteCommand`, proved to do exactly that to the
  window's fields. `get_prompt` is `Shell.Prompt` and the text
  `display_message` appends is `Shell.DisplayText`.
- A line of whitespace only passes the emptiness test, is echoed, clears the
  entry field, and then `parts[0]` raises `IndexError`. The model makes this
  an explicit outcome, `IndexError`, with no message and no quit.
- `self.quit()` becomes setting `quitRequested`.

What the code does, stated plainly where a reader might expect otherwise:

- The load is not all-or-nothing. `fs` is wiped before the rows are read,
  so a bad row or a reader error leaves the root and the rows read so far;
  only a failure to open keeps the old mapping.
- Kind tokens are not validated. Any type token is stored as it is, and the
  content is kept only when the token is exactly `file`.
- A load never changes `cwd`.
- A blank line is not a no-op. It is echoed and then fails with `IndexError`.
- `ls` and `cd` do nothing to the filesystem. Both print a fixed
  `Command: <name>, Args: <args>` line, and the prompt is always `"$ "`.

## Model

| member | source | states |
|---|---|---|
| `Paths.IsAbs` | vfs.py:37 | POSIX `os.path.isabs`: the path starts with `/` |
| `Paths.Normpath` | vfs.py:38 | the normal form is never empty, and it is absolute exactly when its input is |
| `Paths.JoinPath` | vfs.py:40 | POSIX `os.path.join(cwd, path)`: an absolute `path` replaces `cwd`; otherwise the result starts with `cwd`, ends with `path`, is at most one character longer than both together and has a `/` between them after a non-empty `cwd`; it is absolute exactly when one of the two is |
| `Paths.FullPath` | vfs.py:35-41 | the resolution the code means: never empty, and absolute exactly when `cwd` or the argument is |
| `Paths.FullPathAsWritten` | vfs.py:35-41 | the code as written: the resolution with every `\` replaced by `/` afterwards, so no `\` is left |
| `Paths.ReplaceBackslashes` | vfs.py:38 | same length; every character kept except `\`, which becomes `/` |
| `Paths.NormpathAbsolute` | vfs.py:38 | `normpath` of an absolute path is `/` or `/` followed by names: no empty, `.` or `..` piece and no trailing `/`; for an input starting with exactly two slashes, `/` followed by a canonical path |
| `Paths.NormpathIdempotent` | vfs.py:38 | normalising the result again changes nothing, for every input, relative ones included |
| `Paths.CanonicalIsFixed` | vfs.py:38 | a canonical path is its own normal form |
| `Paths.CanonicalHasNoTrailingSlash` | vfs.py:38 | a canonical path other than `/` does not end in `/` |
| `Paths.FullPathCanonical` | vfs.py:35-41 | from a canonical `cwd`, the resolved path is canonical for every argument, relative or absolute, except an argument starting with exactly `//`, which resolves to `/` followed by a canonical path |
| `Paths.FullPathStable` | vfs.py:35-41 | from a canonical `cwd`, resolving a resolved path again gives it back |
| `Paths.ResolveDotIsIdentity` | vfs.py:40 | from a canonical `cwd`, resolving `.` with the resolution of any argument as working directory gives that resolution back, including the `//` case |
| `Paths.ParentAtRootStaysAtRoot` | vfs.py:40 | from `/`, `../x` names what `x` names: `..` at the root stays at the root |
| `Paths.ParentOfRoot` | vfs.py:40 | from `/`, `..` resolves to `/` |
| `Paths.NormpathSkips` | vfs.py:38 | a vanishing run between two separators (empty, `.`, or a name followed by `/..`) does not change the normal form, whenever it leaves the leading-slash rule alone |
| `Paths.FullPathSkips` | vfs.py:38-40 | from any `cwd`, after a leading part that is neither empty nor `/`, a vanishing middle piece changes nothing in the resolution |
| `Paths.FullPathSkipsLeading` | vfs.py:38-40 | from a canonical `cwd`, a non-empty vanishing piece in front of a relative argument changes nothing |
| `Paths.ParentCancelsName` | vfs.py:38-40 | from a canonical `cwd`, `name/../s` resolves to what the relative `s` resolves to: `..` cancels the name before it |
| `Paths.LeadingDotIsDropped` | vfs.py:38-40 | from a canonical `cwd`, `./s` resolves to what the relative `s` resolves to |
| `Paths.EmptyPieceIsDropped` | vfs.py:38-40 | `a//b` resolves to what `a/b` resolves to when `a` is neither empty nor `/` |
| `Paths.NormpathTrailingSlash` | vfs.py:38 | a trailing `/` is dropped: `p + "/"` normalises to what `p` does, for every `p` other than `""`, `/` and `//`, where POSIX's leading-slash rule differs |
| `Paths.FullPathTrailingSlash` | vfs.py:38-40 | from any `cwd`, `x/` resolves to what `x` does, for every argument other than `""`, `/` and `//` |
| `Paths.EmptyArgumentIsCwd` | vfs.py:40 | from a canonical `cwd`, the empty argument resolves to `cwd` itself, although the join leaves a trailing `/` |
| `Paths.AsWrittenAgreesWithoutBackslash` | vfs.py:35-41 | when neither `cwd` nor the argument contains `\`, the method as written returns the normalised path |
| `Paths.BackslashDefeatsNormalisation` | vfs.py:38-40 | as written, `a\..` from `/` resolves to `/a/..`, which is not canonical; the corrected resolution gives `/a\..` |
| `Vfs.VFS.constructor` | vfs.py:5-7 | a fresh store has an empty mapping and `cwd == "/"` |
| `Vfs.VFS.LoadFromCsv` | vfs.py:9-24 | `cwd` unchanged; file not found: old mapping kept, `(False, "Error: VFS file not found at '<path>'")`; other open failure: old mapping kept, `"Error parsing VFS file: <reason>"`; opened: mapping is `Table` of the rows before the first row without three fields, success exactly when there is no such row and no reader error, with the unpack error, the reader's error or `"VFS loaded from <path>"` as message |
| `Vfs.EntryOf` | vfs.py:19 | the stored entry carries the row's type token as given, and content exactly when the token is `file`, then the row's content |
| `Vfs.Table` | vfs.py:15-19 | after a load only an entry whose token is `file` holds content |
| `Vfs.UnpackError` | vfs.py:17 | the `ValueError` text for a row of the wrong width: too few fields name the count as one digit, too many do not |
| `Vfs.NatToStringRoundTrip` | vfs.py:17 | the count in the unpack message is written in decimal: reading its digits back gives the count |
| `Vfs.FirstBadRow` | vfs.py:16-17 | the index where the loop stops: every row before it has three fields, and the row at it, if any, does not |
| `Vfs.TableKeys` | vfs.py:15-19 | the keys after a load are exactly `/` and the row paths: nothing of the previous mapping survives |
| `Vfs.TableRoot` | vfs.py:15-18 | `/` is a `dir` with no content even when a row names `/` |
| `Vfs.TableLookup` | vfs.py:17-19 | every other path holds the entry of the last row naming it: its type token unvalidated, and its content exactly when the token is `file`, otherwise `None` |
| `Vfs.VFS.CreateDefault` | vfs.py:26-33 | exactly `/` and `/default_dir` as dirs and `/default_file.txt` as a file with `"This is a default file."`; `cwd` unchanged; returns `"Default VFS created in memory."` |
| `Vfs.DefaultIsTableOfRows` | vfs.py:26-33 | the default population is what loading the rows `/default_dir,dir,` and `/default_file.txt,file,...` gives |
| `Vfs.DefaultPathsCanonical` | vfs.py:28-32 | every default path is canonical |
| `Vfs.VFS.GetFullPath` | vfs.py:35-41 | from a canonical `cwd`, the result is canonical (barring an argument starting with exactly `//`) and resolving it again gives it back; its reads frame is `cwd` alone, so `fs` is never consulted |
| `Shell.StripTrims` | main.py:70 | `strip()` (`Shell.Strip`) is empty exactly for an all-whitespace line, and otherwise starts and ends with a non-whitespace character |
| `Shell.Tokens` | main.py:70 | `split()` yields non-empty tokens without whitespace |
| `Shell.TokensEmptyIffBlank` | main.py:70-71 | a line has no tokens exactly when it is all whitespace, so `parts[0]` fails exactly then |
| `Shell.TokensOfStrip` | main.py:70 | `strip()` before `split()` changes nothing |
| `Shell.TokensSpaceRun` | main.py:70 | any non-empty run of whitespace between two parts of a line (several spaces, tabs, newlines) splits the line exactly as one space does; with `TokensOfStrip` and `TokensUnwords` this fixes `split()` on every line |
| `Shell.TokensUnwords` | main.py:70 | splitting words joined by single spaces gives the words back |
| `Shell.Parse` | main.py:70-72 | no command exactly for an all-whitespace line; otherwise the command is the first token and the args are the remaining tokens in order |
| `Shell.ParseUnwords` | main.py:70-72 | words typed with single spaces parse back into the same command and arguments |
| `Shell.ReprString` | main.py:79 | the repr of a string starts and ends with the same quote character |
| `Shell.ReprList` | main.py:79 | the repr of the argument list is bracketed |
| `Shell.ReprOfPlain` | main.py:79 | a string without quotes, backslashes or control characters is shown between single quotes |
| `Shell.Dispatch` | main.py:75-84 | quits exactly for the word `exit` (case-sensitive); `ls` and `cd` show `"Command: <name>, Args: <repr(args)>"`; every other word shows `"Error: Unknown command '<name>'"` |
| `Shell.Prompt` | main.py:46-48 | the prompt is always `"$ "` |
| `Shell.DisplayText` | main.py:50-58 | the appended text is the message with one `\n` after it, and with the prompt in front exactly for an echoed input |
| `Shell.Respond` | main.py:60-84 | empty line: nothing appended, no quit; otherwise the first line appended is `"$ " + line + "\n"` with the raw line, at most one more line follows, every line ends in `\n`; `IndexError` exactly for a non-empty all-whitespace line; quitting appends nothing after the echo and needs `exit` as first token |
| `Shell.RespondByCommand` | main.py:74-84 | for a line whose tokens are `name` then `args`: exactly `exit` (case-sensitive) quits with no message; `ls` and `cd` append `"Command: <name>, Args: <repr(args)>"` and do not quit; any other name appends `"Error: Unknown command '<name>'"` and does not quit |
| `Shell.BlankLineFails` | main.py:62-71 | a whitespace-only line is echoed, then fails with no message and no quit |
| `Shell.ShellEmulator.constructor` | main.py:35 | the output holds only the start-up message; the entry field is empty; no quit |
| `Shell.ShellEmulator.DisplayMessage` | main.py:50-58 | appends one line at the end, with the prompt before an echoed input and `\n` after, and changes nothing else |
| `Shell.ShellEmulator.ExecuteCommand` | main.py:60-84 | appends exactly `Respond(entry)`'s lines after the old output, sets the quit flag exactly when `Respond` quits, returns `Respond`'s outcome, and leaves the entry field empty |

## Left out

- The tkinter window, widgets, geometry, event binding and `mainloop`: user interface, no logic.
- The window title built from `os.getlogin` and `socket.gethostname`: host I/O.
- Opening the file, its encoding and the quoting rules of `csv.reader`: I/O and a library tokeniser; the model takes the outcome of opening and the rows already split into fields.
- Windows path handling (drive letters, `\` as a separator inside `normpath`, Windows `isabs`): the model is the POSIX flavour of `os.path`.
- Real `ls`/`cd` against the filesystem, a settable `cwd`, listing children, running a script and a prompt that shows `cwd`: the code has none of these.
- Vfs.VFS.GetFullPath: returns the resolution without the backslash replacement applied after `normpath` at vfs.py:38 and 40; the code as written is `Paths.FullPathAsWritten` (see Findings).
- Vfs.UnpackError: gives CPython 3.12's wording of the unpack errors; newer versions add `got N` to the too-many message. It is defined only for a width other than three, the only widths that raise.
- Shell.ReprString: escapes quotes, backslashes, `\t`, `\n`, `\r` and C0/C1 control characters as Python does; other characters Python treats as non-printable (format characters, unassigned code points) are shown as they are instead of as `\x`, `\u` or `\U` escapes.

## Findings

| source | as written | input that shows it | evidently intended | confidence | as-written member | corrected member |
|---|---|---|---|---|---|---|
| vfs.py:38-40 | `normpath` first, then every `\` replaced by `/` | `cwd` `/`, path `a\..`: result `/a/..`, which still holds `..` | a normalised absolute path; on POSIX the replacement, meant for Windows separators, should change nothing (`/a\..`) | medium, not executed | `Paths.FullPathAsWritten`, shown by `Paths.BackslashDefeatsNormalisation` | `Paths.FullPath`, proved canonical by `Paths.FullPathCanonical` |
