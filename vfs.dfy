/**
 * The in-memory filesystem of the shell emulator: a mapping from path
 * strings to entries and a current working directory, filled either from a
 * three-column table or with a fixed default population.
 *
 * Opening the table file and tokenising it are outside the model: a load is
 * given the outcome of opening the file, the rows the reader yields (each
 * row already split into its fields) and, if the reader raises after those
 * rows, that exception's text.
 */
module Vfs {
  import opened Wrappers
  import Paths

  /** One value of the mapping: the `type` token, stored unvalidated, and the optional `content`. */
  datatype Entry = Entry(kind: string, content: Option<string>)

  /** One row of the table, already split into fields. */
  type Row = seq<string>

  /** How opening the table file ended. */
  datatype OpenResult = Opened | FileNotFound | OpenFailed(reason: string)

  /** The root every load seeds. */
  const RootEntry := Entry("dir", None)

  /** The entry a well-formed row `path, type, content` stores: the token as given, the content only for a file. */
  function EntryOf(kind: string, content: string): (e: Entry)
    ensures e.kind == kind
    ensures e.content.Some? <==> kind == "file"
    ensures e.content.Some? ==> e.content.value == content
  {
    Entry(kind, if kind == "file" then Some(content) else None)
  }

  /** The index of the first row that does not have exactly three fields, or the number of rows. */
  function FirstBadRow(rows: seq<Row>): (k: nat)
    ensures k <= |rows|
    ensures forall i :: 0 <= i < k ==> |rows[i]| == 3
    ensures k < |rows| ==> |rows[k]| != 3
  {
    if rows == [] then 0
    else if |rows[0]| != 3 then 0
    else 1 + FirstBadRow(rows[1..])
  }

  predicate WellFormed(rows: seq<Row>) {
    forall i :: 0 <= i < |rows| ==> |rows[i]| == 3
  }

  /**
   * The mapping left after the loop has entered `rows`, in order, on top of
   * the seeded root. Only an entry whose token is "file" ever holds content.
   */
  function Table(rows: seq<Row>): (t: map<string, Entry>)
    requires WellFormed(rows)
    ensures forall p :: p in t && t[p].content.Some? ==> t[p].kind == "file"
  {
    if rows == [] then map["/" := RootEntry]
    else
      var prev := Table(rows[..|rows| - 1]);
      var row := rows[|rows| - 1];
      if row[0] == "/" then prev else prev[row[0] := EntryOf(row[1], row[2])]
  }

  /** Row `i` is the last row naming `p`. */
  predicate LastRowFor(rows: seq<Row>, p: string, i: int)
    requires WellFormed(rows)
  {
    0 <= i < |rows| && rows[i][0] == p && forall j :: i < j < |rows| ==> rows[j][0] != p
  }

  /** The paths the rows name. */
  function RowPaths(rows: seq<Row>): set<string>
    requires WellFormed(rows)
  {
    set i | 0 <= i < |rows| :: rows[i][0]
  }

  /** The keys of a loaded table: the root and the path of every row, nothing else. */
  lemma {:induction false} TableKeys(rows: seq<Row>)
    requires WellFormed(rows)
    ensures Table(rows).Keys == {"/"} + RowPaths(rows)
    decreases |rows|
  {
    if rows != [] {
      var n := |rows| - 1;
      var init := rows[..n];
      TableKeys(init);
      assert RowPaths(rows) == RowPaths(init) + {rows[n][0]} by {
        forall x | x in RowPaths(rows) ensures x in RowPaths(init) + {rows[n][0]} {
          var i :| 0 <= i < |rows| && rows[i][0] == x;
          if i < n {
            assert init[i] == rows[i];
          }
        }
        forall x | x in RowPaths(init) ensures x in RowPaths(rows) {
          var i :| 0 <= i < |init| && init[i][0] == x;
          assert rows[i] == init[i];
        }
      }
    }
  }

  /** The root is always the seeded directory, even when a row names "/". */
  lemma {:induction false} TableRoot(rows: seq<Row>)
    requires WellFormed(rows)
    ensures "/" in Table(rows) && Table(rows)["/"] == Entry("dir", None)
    decreases |rows|
  {
    if rows != [] {
      TableRoot(rows[..|rows| - 1]);
    }
  }

  /**
   * Every other path holds the entry of the last row naming it: that row's
   * type token and, exactly when the token is "file", its content.
   */
  lemma {:induction false} TableLookup(rows: seq<Row>, p: string, i: int)
    requires WellFormed(rows) && p != "/" && LastRowFor(rows, p, i)
    ensures p in Table(rows)
    ensures Table(rows)[p].kind == rows[i][1]
    ensures Table(rows)[p].content == if rows[i][1] == "file" then Some(rows[i][2]) else None
    decreases |rows|
  {
    var n := |rows| - 1;
    if i < n {
      var init := rows[..n];
      assert LastRowFor(init, p, i) by {
        forall j | i < j < |init| ensures init[j][0] != p {
          assert init[j] == rows[j];
        }
      }
      TableLookup(init, p, i);
      assert rows[n][0] != p;
    }
  }

  /**
   * Text of the `ValueError` raised by `path, type, content = row` for a row
   * that does not have three fields (CPython 3.12 wording): too few fields
   * give their count, too many do not.
   */
  function UnpackError(fields: nat): (m: string)
    requires fields != 3
    ensures fields < 3 ==> m == "not enough values to unpack (expected 3, got " + [DigitChar(fields)] + ")"
    ensures fields > 3 ==> m == "too many values to unpack (expected 3)"
  {
    if fields < 3 then "not enough values to unpack (expected 3, got " + NatToString(fields) + ")"
    else "too many values to unpack (expected 3)"
  }

  /** `str(n)`: the decimal digits of `n`, most significant first, with no leading zero. */
  function NatToString(n: nat): (s: string)
    ensures s != [] && IsDigits(s)
    ensures |s| > 1 ==> s[0] != '0'
    decreases n
  {
    if n < 10 then [DigitChar(n)] else NatToString(n / 10) + [DigitChar(n % 10)]
  }

  function DigitChar(d: nat): (c: char)
    requires d < 10
    ensures '0' <= c <= '9' && c as int - '0' as int == d
  {
    ('0' as int + d) as char
  }

  predicate IsDigits(s: string) {
    forall i :: 0 <= i < |s| ==> '0' <= s[i] <= '9'
  }

  /** The number a string of decimal digits denotes: the reference reading of `NatToString`. */
  function DecimalValue(s: string): nat
    requires IsDigits(s)
  {
    if s == [] then 0 else DecimalValue(s[..|s| - 1]) * 10 + (s[|s| - 1] as int - '0' as int)
  }

  /** Reading the digits back gives the number. */
  lemma {:induction false} NatToStringRoundTrip(n: nat)
    ensures DecimalValue(NatToString(n)) == n
    decreases n
  {
    var s := NatToString(n);
    if n < 10 {
      assert s[..0] == [];
    } else {
      NatToStringRoundTrip(n / 10);
      assert s[..|s| - 1] == NatToString(n / 10);
    }
  }

  function NotFoundMessage(csvPath: string): string
  {
    "Error: VFS file not found at '" + csvPath + "'"
  }

  function ParseErrorMessage(reason: string): string
  {
    "Error parsing VFS file: " + reason
  }

  function LoadedMessage(csvPath: string): string
  {
    "VFS loaded from " + csvPath
  }

  const DefaultMessage := "Default VFS created in memory."
  const DefaultFileText := "This is a default file."

  /** The population `create_default` installs. */
  function DefaultTable(): map<string, Entry>
  {
    map[
      "/" := Entry("dir", None),
      "/default_dir" := Entry("dir", None),
      "/default_file.txt" := Entry("file", Some(DefaultFileText))
    ]
  }

  /** The default population is what loading its two-row table would give. */
  lemma DefaultIsTableOfRows()
    ensures WellFormed([["/default_dir", "dir", ""], ["/default_file.txt", "file", DefaultFileText]])
    ensures DefaultTable() == Table([["/default_dir", "dir", ""], ["/default_file.txt", "file", DefaultFileText]])
  {
    var rows: seq<Row> := [["/default_dir", "dir", ""], ["/default_file.txt", "file", DefaultFileText]];
    assert rows[..1] == [["/default_dir", "dir", ""]];
    assert rows[..1][..0] == [];
    assert Table(rows[..1]) == map["/" := RootEntry]["/default_dir" := Entry("dir", None)];
    assert Table(rows) == Table(rows[..1])["/default_file.txt" := Entry("file", Some(DefaultFileText))];
  }

  /** Every default path is canonical, so resolving it gives it back. */
  lemma DefaultPathsCanonical()
    ensures forall p :: p in DefaultTable() ==> Paths.Canonical(p)
  {
    forall p | p in DefaultTable() ensures Paths.Canonical(p) {
      if p == "/default_dir" {
        assert '/' !in "default_dir";
        Paths.SplitWord("default_dir");
        assert p[1..] == "default_dir";
        assert Paths.IsName("default_dir");
      } else if p == "/default_file.txt" {
        assert '/' !in "default_file.txt";
        Paths.SplitWord("default_file.txt");
        assert p[1..] == "default_file.txt";
        assert Paths.IsName("default_file.txt");
      }
    }
  }

  class VFS {
    /** The mapping from path string to entry (`self.fs`). */
    var fs: map<string, Entry>
    /** The current working directory (`self.cwd`). */
    var cwd: string

    constructor ()
      ensures fs == map[] && cwd == "/"
    {
      fs := map[];
      cwd := "/";
    }

    /**
     * `load_from_csv`. The mapping is reset to the root before the rows are
     * read, so a failure after opening leaves the root and the rows entered
     * so far; only a failure to open leaves the old mapping in place.
     */
    method LoadFromCsv(csvPath: string, openResult: OpenResult, rows: array<Row>, readError: Option<string>)
      returns (ok: bool, message: string)
      modifies this
      ensures cwd == old(cwd)
      ensures openResult.FileNotFound? ==> !ok && fs == old(fs) && message == NotFoundMessage(csvPath)
      ensures openResult.OpenFailed? ==> !ok && fs == old(fs) && message == ParseErrorMessage(openResult.reason)
      ensures openResult.Opened? ==>
        var k := FirstBadRow(rows[..]);
        && fs == Table(rows[..k])
        && ok == (k == rows.Length && readError.None?)
        && message == (if k < rows.Length then ParseErrorMessage(UnpackError(|rows[k]|))
                       else if readError.Some? then ParseErrorMessage(readError.value)
                       else LoadedMessage(csvPath))
    {
      if openResult.FileNotFound? {
        return false, NotFoundMessage(csvPath);
      }
      if openResult.OpenFailed? {
        return false, ParseErrorMessage(openResult.reason);
      }
      fs := map["/" := RootEntry];
      var i := 0;
      while i < rows.Length
        invariant 0 <= i <= FirstBadRow(rows[..])
        invariant fs == Table(rows[..i])
        invariant cwd == old(cwd)
      {
        var row := rows[i];
        if |row| != 3 {
          return false, ParseErrorMessage(UnpackError(|row|));
        }
        var path, kind, content := row[0], row[1], row[2];
        assert rows[..i + 1][..i] == rows[..i];
        if path != "/" {
          fs := fs[path := EntryOf(kind, content)];
        }
        i := i + 1;
      }
      assert rows[..i] == rows[..];
      if readError.Some? {
        return false, ParseErrorMessage(readError.value);
      }
      return true, LoadedMessage(csvPath);
    }

    /** `create_default`: exactly the root, one directory and one file; `cwd` untouched. */
    method CreateDefault() returns (message: string)
      modifies this
      ensures fs == DefaultTable() && cwd == old(cwd)
      ensures fs.Keys == {"/", "/default_dir", "/default_file.txt"}
      ensures fs["/default_file.txt"] == Entry("file", Some("This is a default file."))
      ensures message == "Default VFS created in memory."
    {
      fs := DefaultTable();
      message := DefaultMessage;
    }

    /**
     * `get_full_path`, with the normalisation the method means (see
     * `Paths.FullPathAsWritten` for the backslash replacement as written).
     * Its frame is `cwd` alone, never the mapping: existence is not checked.
     */
    function GetFullPath(path: string): (r: string)
      reads this`cwd
      ensures Paths.Canonical(cwd) && !Paths.DoubleSlashRoot(path) ==> Paths.Canonical(r)
      ensures Paths.Canonical(cwd) ==> Paths.FullPath(cwd, r) == r
    {
      if Paths.Canonical(cwd) then
        Paths.FullPathCanonical(cwd, path);
        Paths.FullPathStable(cwd, path);
        Paths.FullPath(cwd, path)
      else
        Paths.FullPath(cwd, path)
    }
  }
}
