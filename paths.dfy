/**
 * POSIX path resolution as `VFS.get_full_path` performs it: `os.path.isabs`,
 * `os.path.join` and `os.path.normpath` of the POSIX flavour of Python's
 * `os.path`, followed by the backslash replacement the method applies.
 *
 * `Normpath` follows the normalisation algorithm of `posixpath.normpath`:
 * split on '/', drop empty and "." pieces, let ".." cancel the previous
 * name (at the root of an absolute path it is dropped, in a relative path
 * it is kept when nothing is left to cancel), join with '/', and put back
 * the leading slashes: two of them when the path starts with exactly two,
 * otherwise one.
 */
module Paths {

  /** `os.path.isabs` on POSIX. */
  predicate IsAbs(p: string) {
    |p| > 0 && p[0] == '/'
  }

  /** The one case in which POSIX keeps two leading slashes: exactly "//". */
  predicate DoubleSlashRoot(p: string) {
    |p| >= 2 && p[0] == '/' && p[1] == '/' && !(|p| >= 3 && p[2] == '/')
  }

  /** `s.split('/')`: at least one piece, none of them containing '/'. */
  function Split(s: string): (r: seq<string>)
    ensures |r| >= 1
    ensures forall i :: 0 <= i < |r| ==> '/' !in r[i]
    decreases |s|
  {
    if s == [] then [""]
    else if s[0] == '/' then [""] + Split(s[1..])
    else
      var rest := Split(s[1..]);
      [[s[0]] + rest[0]] + rest[1..]
  }

  /** `'/'.join(segs)`. */
  function Join(segs: seq<string>): string
  {
    if |segs| == 0 then ""
    else if |segs| == 1 then segs[0]
    else segs[0] + "/" + Join(segs[1..])
  }

  /** A piece that may stand in a normalised path: not empty, not "." or "..", no '/'. */
  predicate IsName(seg: string) {
    seg != "" && seg != "." && seg != ".." && '/' !in seg
  }

  predicate NoSlash(segs: seq<string>) {
    forall i :: 0 <= i < |segs| ==> '/' !in segs[i]
  }

  /** The pieces of a normalised absolute path: names only. */
  predicate AbsClean(segs: seq<string>) {
    forall i :: 0 <= i < |segs| ==> IsName(segs[i])
  }

  /** The pieces of a normalised relative path: names, with any ".." before every name. */
  predicate RelClean(segs: seq<string>) {
    && (forall i :: 0 <= i < |segs| ==> segs[i] == ".." || IsName(segs[i]))
    && (forall i, j :: 0 <= i < j < |segs| && segs[j] == ".." ==> segs[i] == "..")
  }

  /**
   * A canonical absolute path: "/" or '/' followed by names separated by
   * single slashes (so no ".", no "..", no "//" and no trailing '/').
   */
  predicate Canonical(p: string) {
    p == "/" || (IsAbs(p) && AbsClean(Split(p[1..])))
  }

  /** One turn of the normalisation loop over the pieces. */
  function Step(absolute: bool, acc: seq<string>, comp: string): seq<string>
  {
    if comp == "" || comp == "." then acc
    else if comp != ".." || (!absolute && acc == []) || (acc != [] && acc[|acc| - 1] == "..") then acc + [comp]
    else if acc != [] then acc[..|acc| - 1]
    else acc
  }

  /** The normalisation loop: `Step` over every piece, from left to right. */
  function Collapse(absolute: bool, acc: seq<string>, comps: seq<string>): seq<string>
    decreases |comps|
  {
    if comps == [] then acc
    else Collapse(absolute, Step(absolute, acc, comps[0]), comps[1..])
  }

  /** The leading slashes `normpath` puts back. */
  function Prefix(path: string): string
  {
    if DoubleSlashRoot(path) then "//"
    else if IsAbs(path) then "/"
    else ""
  }

  /** The pieces `normpath` keeps. */
  function NormSegs(path: string): seq<string>
  {
    Collapse(Prefix(path) != "", [], Split(path))
  }

  /** `os.path.normpath` on POSIX: never empty, and absolute exactly when its input is. */
  function Normpath(path: string): (r: string)
    ensures r != ""
    ensures IsAbs(r) <==> IsAbs(path)
  {
    if path == "" then "."
    else
      var segs := NormSegs(path);
      NormSegsClean(path);
      assert segs != [] ==> segs[0] <= Join(segs) by {
        if segs != [] {
          JoinStartsWithFirst(segs);
        }
      }
      var joined := Prefix(path) + Join(segs);
      if joined == "" then "." else joined
  }

  /** `os.path.join(a, b)` on POSIX: `b` itself when it is absolute, otherwise `a`, a slash unless `a` already ends in one, and `b`. */
  function JoinPath(a: string, b: string): (r: string)
    ensures IsAbs(b) ==> r == b
    ensures !IsAbs(b) ==> |a| + |b| <= |r| <= |a| + 1 + |b| && r[..|a|] == a && r[|r| - |b|..] == b
    ensures !IsAbs(b) && a != "" ==> '/' in r[|a| - 1..|r| - |b|]
    ensures IsAbs(r) <==> IsAbs(a) || IsAbs(b)
  {
    if IsAbs(b) then b
    else if a == "" || a[|a| - 1] == '/' then a + b
    else
      assert (a + "/" + b)[|a| - 1..|a| + 1][1] == '/';
      a + "/" + b
  }

  /** The absolute path `get_full_path` means to return for `path` seen from `cwd`. */
  function FullPath(cwd: string, path: string): (r: string)
    ensures r != ""
    ensures IsAbs(r) <==> IsAbs(cwd) || IsAbs(path)
  {
    if IsAbs(path) then Normpath(path) else Normpath(JoinPath(cwd, path))
  }

  /** `s.replace('\\', '/')`. */
  function ReplaceBackslashes(s: string): (r: string)
    ensures |r| == |s|
    ensures forall i :: 0 <= i < |s| ==> r[i] == (if s[i] == '\\' then '/' else s[i])
  {
    if s == [] then []
    else [if s[0] == '\\' then '/' else s[0]] + ReplaceBackslashes(s[1..])
  }

  /**
   * `get_full_path` as written: the backslash replacement runs after
   * normalising, so the result is the corrected resolution with every `\`
   * turned into a separator afterwards.
   */
  function FullPathAsWritten(cwd: string, path: string): (r: string)
    ensures r == ReplaceBackslashes(FullPath(cwd, path))
    ensures '\\' !in r
  {
    if IsAbs(path) then ReplaceBackslashes(Normpath(path))
    else ReplaceBackslashes(Normpath(JoinPath(cwd, path)))
  }

  // ---------------------------------------------------------------------
  // Splitting and joining

  lemma {:induction false} JoinSplit(s: string)
    ensures Join(Split(s)) == s
    decreases |s|
  {
    if s == [] {
    } else if s[0] == '/' {
      JoinSplit(s[1..]);
      assert Split(s) == [""] + Split(s[1..]);
    } else {
      JoinSplit(s[1..]);
      var rest := Split(s[1..]);
      assert Split(s) == [[s[0]] + rest[0]] + rest[1..];
      if |rest| == 1 {
        assert Join(rest) == rest[0];
      } else {
        assert Join(rest) == rest[0] + "/" + Join(rest[1..]);
        assert Split(s)[1..] == rest[1..];
      }
    }
  }

  lemma {:induction false} SplitWord(w: string)
    requires '/' !in w
    ensures Split(w) == [w]
    decreases |w|
  {
    if w != [] {
      assert '/' !in w[1..] by {
        forall i | 0 <= i < |w[1..]| ensures w[1..][i] != '/' {
          assert w[1..][i] == w[i + 1];
        }
      }
      SplitWord(w[1..]);
      assert w[0] != '/';
      assert Split(w) == [[w[0]] + w[1..]];
      assert [w[0]] + w[1..] == w;
    }
  }

  /** Splitting at a separator splits both sides independently. */
  lemma {:induction false} SplitConcat(a: string, b: string)
    ensures Split(a + "/" + b) == Split(a) + Split(b)
    decreases |a|, 1
  {
    var s := a + "/" + b;
    if a == [] {
      assert s == "/" + b;
      assert s[1..] == b;
    } else if a[0] == '/' {
      assert s[1..] == a[1..] + "/" + b;
      SplitConcat(a[1..], b);
    } else {
      SplitConcatWord(a, b);
    }
  }

  /** The case of `SplitConcat` where `a` starts with a character other than '/'. */
  lemma {:induction false} SplitConcatWord(a: string, b: string)
    requires a != [] && a[0] != '/'
    ensures Split(a + "/" + b) == Split(a) + Split(b)
    decreases |a|, 0
  {
    var c, t := a[0], a[1..];
    assert a == [c] + t;
    assert a + "/" + b == [c] + (t + "/" + b);
    SplitConcat(t, b);
    SplitCons(c, t + "/" + b);
    SplitCons(c, t);
    ExtendFirst([c], Split(t), Split(b));
  }

  /** `Split` of a string that starts with a non-separator, unfolded once. */
  lemma SplitCons(c: char, t: string)
    requires c != '/'
    ensures Split([c] + t) == [[c] + Split(t)[0]] + Split(t)[1..]
  {
    assert ([c] + t)[0] == c;
    assert ([c] + t)[1..] == t;
  }

  /** Extending the first element commutes with appending more elements. */
  lemma ExtendFirst<T>(x: seq<T>, ys: seq<seq<T>>, zs: seq<seq<T>>)
    requires |ys| >= 1
    ensures [x + (ys + zs)[0]] + (ys + zs)[1..] == ([x + ys[0]] + ys[1..]) + zs
  {
    assert (ys + zs)[0] == ys[0];
    assert (ys + zs)[1..] == ys[1..] + zs;
  }

  lemma {:induction false} SplitJoin(segs: seq<string>)
    requires |segs| >= 1 && NoSlash(segs)
    ensures Split(Join(segs)) == segs
    decreases |segs|
  {
    if |segs| == 1 {
      SplitWord(segs[0]);
    } else {
      SplitJoin(segs[1..]);
      SplitWord(segs[0]);
      SplitConcat(segs[0], Join(segs[1..]));
    }
  }

  lemma {:induction false} JoinStartsWithFirst(segs: seq<string>)
    requires |segs| >= 1
    ensures segs[0] <= Join(segs)
    decreases |segs|
  {
  }

  /** A path ending in '/' splits with an empty last piece. */
  lemma {:induction false} SplitTrailingSlash(s: string)
    requires |s| > 0 && s[|s| - 1] == '/'
    ensures |Split(s)| >= 2 && Split(s)[|Split(s)| - 1] == ""
    decreases |s|
  {
    if s[0] == '/' {
      if |s| > 1 {
        SplitTrailingSlash(s[1..]);
      }
    } else {
      SplitTrailingSlash(s[1..]);
    }
  }

  // ---------------------------------------------------------------------
  // The normalisation loop

  lemma {:induction false} CollapseAppend(absolute: bool, acc: seq<string>, xs: seq<string>, ys: seq<string>)
    ensures Collapse(absolute, acc, xs + ys) == Collapse(absolute, Collapse(absolute, acc, xs), ys)
    decreases |xs|
  {
    if xs != [] {
      assert (xs + ys)[0] == xs[0];
      assert (xs + ys)[1..] == xs[1..] + ys;
      CollapseAppend(absolute, Step(absolute, acc, xs[0]), xs[1..], ys);
    } else {
      assert xs + ys == ys;
    }
  }

  lemma {:induction false} CollapseAbsClean(acc: seq<string>, comps: seq<string>)
    requires AbsClean(acc) && NoSlash(comps)
    ensures AbsClean(Collapse(true, acc, comps))
    decreases |comps|
  {
    if comps != [] {
      var next := Step(true, acc, comps[0]);
      assert AbsClean(next);
      CollapseAbsClean(next, comps[1..]);
    }
  }

  lemma StepRelClean(acc: seq<string>, comp: string)
    requires RelClean(acc) && '/' !in comp
    ensures RelClean(Step(false, acc, comp))
  {
    var next := Step(false, acc, comp);
    if comp == "" || comp == "." {
    } else if comp != ".." {
      assert next == acc + [comp];
    } else if acc == [] {
      assert next == [".."];
    } else if acc[|acc| - 1] == ".." {
      assert next == acc + [".."];
      forall i | 0 <= i < |acc| ensures acc[i] == ".." {
        if i < |acc| - 1 {
          assert acc[|acc| - 1] == "..";
        }
      }
    } else {
      assert next == acc[..|acc| - 1];
    }
  }

  lemma {:induction false} CollapseRelClean(acc: seq<string>, comps: seq<string>)
    requires RelClean(acc) && NoSlash(comps)
    ensures RelClean(Collapse(false, acc, comps))
    decreases |comps|
  {
    if comps != [] {
      StepRelClean(acc, comps[0]);
      CollapseRelClean(Step(false, acc, comps[0]), comps[1..]);
    }
  }

  /** On pieces that are already normalised the loop changes nothing. */
  lemma {:induction false} CollapseKeeps(absolute: bool, acc: seq<string>, comps: seq<string>)
    requires if absolute then AbsClean(acc + comps) else RelClean(acc + comps)
    ensures Collapse(absolute, acc, comps) == acc + comps
    decreases |comps|
  {
    if comps != [] {
      var c := comps[0];
      var all := acc + comps;
      assert all[|acc|] == c;
      if c == ".." {
        assert !absolute;
        if acc != [] {
          assert all[|acc| - 1] == acc[|acc| - 1];
        }
      }
      assert Step(absolute, acc, c) == acc + [c];
      assert (acc + [c]) + comps[1..] == all;
      CollapseKeeps(absolute, acc + [c], comps[1..]);
    }
  }

  /** The pieces `normpath` keeps are clean: names only for an absolute path. */
  lemma NormSegsClean(path: string)
    ensures Prefix(path) != "" ==> AbsClean(NormSegs(path))
    ensures Prefix(path) == "" ==> RelClean(NormSegs(path))
  {
    if Prefix(path) != "" {
      CollapseAbsClean([], Split(path));
    } else {
      CollapseRelClean([], Split(path));
    }
  }

  lemma CollapseOfJoin(absolute: bool, segs: seq<string>)
    requires if absolute then AbsClean(segs) else RelClean(segs)
    ensures Collapse(absolute, [], Split(Join(segs))) == segs
  {
    if segs != [] {
      SplitJoin(segs);
      CollapseKeeps(absolute, [], segs);
      assert [] + segs == segs;
    }
  }

  // ---------------------------------------------------------------------
  // Properties of normpath

  /** A normal form `prefix + names` is a fixed point of `normpath`. */
  lemma NormpathFixesAbsolute(prefix: string, segs: seq<string>)
    requires prefix == "/" || prefix == "//"
    requires AbsClean(segs)
    ensures Normpath(prefix + Join(segs)) == prefix + Join(segs)
  {
    var p := prefix + Join(segs);
    if segs != [] {
      JoinStartsWithFirst(segs);
      assert Join(segs)[0] == segs[0][0];
      assert p[|prefix|] == segs[0][0];
    }
    assert Prefix(p) == prefix;
    if prefix == "/" {
      assert p == "" + "/" + Join(segs);
      SplitConcat("", Join(segs));
      assert Split(p) == [""] + Split(Join(segs));
    } else {
      assert p == "" + "/" + ("" + "/" + Join(segs));
      SplitConcat("", "" + "/" + Join(segs));
      SplitConcat("", Join(segs));
      assert Split(p) == [""] + ([""] + Split(Join(segs)));
      assert Collapse(true, [], Split(p)) == Collapse(true, [], [""] + Split(Join(segs)));
    }
    assert Collapse(true, [], [""] + Split(Join(segs))) == Collapse(true, [], Split(Join(segs)));
    CollapseOfJoin(true, segs);
  }

  lemma NormpathFixesRelative(segs: seq<string>)
    requires RelClean(segs) && segs != []
    ensures Normpath(Join(segs)) == Join(segs)
  {
    JoinStartsWithFirst(segs);
    assert segs[0] != "";
    assert Join(segs)[0] == segs[0][0];
    assert segs[0][0] != '/';
    assert Prefix(Join(segs)) == "";
    CollapseOfJoin(false, segs);
  }

  /** `normpath` of an absolute path: canonical, or '/' followed by a canonical path (POSIX's two-slash root). */
  lemma NormpathAbsolute(path: string)
    requires IsAbs(path)
    ensures !DoubleSlashRoot(path) ==> Canonical(Normpath(path))
    ensures DoubleSlashRoot(path) ==>
      var r := Normpath(path); |r| >= 2 && r[..2] == "//" && Canonical(r[1..])
  {
    var segs := NormSegs(path);
    NormSegsClean(path);
    var r := Normpath(path);
    assert r == Prefix(path) + Join(segs);
    var tail := "/" + Join(segs);
    if segs != [] {
      SplitJoin(segs);
      assert tail[1..] == Join(segs);
    }
    assert Canonical(tail);
    if DoubleSlashRoot(path) {
      assert r == "/" + tail;
      assert r[1..] == tail;
    } else {
      assert r == tail;
    }
  }

  /** Normalising twice is normalising once, for every input. */
  lemma NormpathIdempotent(path: string)
    ensures Normpath(Normpath(path)) == Normpath(path)
  {
    SplitWord(".");
    if path != "" {
      var segs := NormSegs(path);
      NormSegsClean(path);
      if Prefix(path) != "" {
        NormpathFixesAbsolute(Prefix(path), segs);
      } else if segs != [] {
        JoinStartsWithFirst(segs);
        assert Join(segs) != "";
        assert Prefix(path) + Join(segs) == Join(segs);
        assert Normpath(path) == Join(segs);
        NormpathFixesRelative(segs);
      } else {
        assert Normpath(path) == ".";
        assert NormSegs(".") == [];
      }
    }
  }

  /** A canonical path is its own normal form. */
  lemma CanonicalIsFixed(p: string)
    requires Canonical(p)
    ensures Normpath(p) == p
  {
    if p == "/" {
      NormpathFixesAbsolute("/", []);
    } else {
      var q := p[1..];
      JoinSplit(q);
      assert p == "/" + Join(Split(q));
      NormpathFixesAbsolute("/", Split(q));
    }
  }

  /** Only the root of a canonical path ends in '/'. */
  lemma CanonicalHasNoTrailingSlash(p: string)
    requires Canonical(p) && p != "/"
    ensures p[|p| - 1] != '/'
  {
    var q := p[1..];
    assert Split("") == [""];
    assert q != "";
    if q[|q| - 1] == '/' {
      SplitTrailingSlash(q);
    }
    assert p[|p| - 1] == q[|q| - 1];
  }

  // ---------------------------------------------------------------------
  // Properties of get_full_path

  /** Joining onto a canonical directory keeps a single leading slash. */
  lemma JoinOntoCanonical(cwd: string, path: string)
    requires Canonical(cwd) && !IsAbs(path)
    ensures IsAbs(JoinPath(cwd, path)) && !DoubleSlashRoot(JoinPath(cwd, path))
  {
    var j := JoinPath(cwd, path);
    if cwd == "/" {
      assert j == "/" + path;
    } else {
      var q := cwd[1..];
      assert Split(q)[0] != "";
      assert q != "" && q[0] != '/';
      assert j[..|cwd|] == cwd;
      assert j[1] == q[0];
    }
  }

  /** The resolved path is canonical, unless the input names POSIX's "//" root. */
  lemma FullPathCanonical(cwd: string, path: string)
    requires Canonical(cwd)
    ensures !DoubleSlashRoot(path) ==> Canonical(FullPath(cwd, path))
    ensures DoubleSlashRoot(path) ==>
      var r := FullPath(cwd, path); |r| >= 2 && r[..2] == "//" && Canonical(r[1..])
  {
    if IsAbs(path) {
      NormpathAbsolute(path);
    } else {
      JoinOntoCanonical(cwd, path);
      NormpathAbsolute(JoinPath(cwd, path));
    }
  }

  /** Resolving an already resolved path again changes nothing. */
  lemma FullPathStable(cwd: string, path: string)
    requires Canonical(cwd)
    ensures FullPath(cwd, FullPath(cwd, path)) == FullPath(cwd, path)
  {
    var r := FullPath(cwd, path);
    FullPathCanonical(cwd, path);
    assert IsAbs(r);
    if IsAbs(path) {
      NormpathIdempotent(path);
    } else {
      NormpathIdempotent(JoinPath(cwd, path));
    }
  }

  /** Resolving "." against a resolved path as the working directory gives it back. */
  lemma ResolveDotIsIdentity(cwd: string, path: string)
    requires Canonical(cwd)
    ensures FullPath(FullPath(cwd, path), ".") == FullPath(cwd, path)
  {
    var r := FullPath(cwd, path);
    FullPathCanonical(cwd, path);
    if r == "/" {
      DotAtRoot("/");
    } else if r == "//" {
      DotAtRoot("//");
    } else {
      FullPathStable(cwd, path);
      assert r[|r| - 1] != '/' by {
        if DoubleSlashRoot(path) {
          CanonicalHasNoTrailingSlash(r[1..]);
        } else {
          CanonicalHasNoTrailingSlash(r);
        }
      }
      assert JoinPath(r, ".") == r + "/" + ".";
      NormpathDotSuffix(r);
    }
  }

  /** "." seen from either root is that root. */
  lemma DotAtRoot(root: string)
    requires root == "/" || root == "//"
    ensures FullPath(root, ".") == root
  {
    SplitWord(".");
    var j := JoinPath(root, ".");
    if root == "/" {
      assert j == "" + "/" + ".";
      SplitConcat("", ".");
      assert Split(j) == ["", "."];
      assert Prefix(j) == "/";
      assert Collapse(true, [], Split(j)) == Collapse(true, [], ["."]);
      assert Collapse(true, [], ["."]) == Collapse(true, [], []);
      assert NormSegs(j) == [];
    } else {
      assert j == "" + "/" + ("" + "/" + ".");
      SplitConcat("", "" + "/" + ".");
      SplitConcat("", ".");
      assert Split(j) == ["", "", "."];
      assert Prefix(j) == "//";
      assert Collapse(true, [], Split(j)) == Collapse(true, [], ["", "."]);
      assert Collapse(true, [], ["", "."]) == Collapse(true, [], ["."]);
      assert Collapse(true, [], ["."]) == Collapse(true, [], []);
      assert NormSegs(j) == [];
    }
  }

  /** A normal form that does not end in '/' is kept when "/." is appended. */
  lemma NormpathDotSuffix(r: string)
    requires |r| >= 2 && Normpath(r) == r && r[|r| - 1] != '/'
    ensures Normpath(r + "/" + ".") == r
  {
    SplitWord(".");
    var j := r + "/" + ".";
    SplitConcat(r, ".");
    assert Prefix(j) == Prefix(r) by {
      assert j[0] == r[0] && j[1] == r[1];
      if |r| >= 3 {
        assert j[2] == r[2];
      }
    }
    CollapseAppend(Prefix(r) != "", [], Split(r), ["."]);
    assert NormSegs(j) == NormSegs(r);
  }

  /** ".." at the root stays at the root: "/../x" names what "/x" names. */
  lemma ParentAtRootStaysAtRoot(s: string)
    requires !IsAbs(s)
    ensures FullPath("/", "../" + s) == FullPath("/", s)
  {
    var a := JoinPath("/", "../" + s);
    var b := JoinPath("/", s);
    assert a == "" + "/" + (".." + "/" + s);
    assert b == "" + "/" + s;
    SplitConcat("", ".." + "/" + s);
    SplitConcat("..", s);
    SplitConcat("", s);
    SplitWord("..");
    assert Split(a) == [""] + ([".."] + Split(s));
    assert Split(b) == [""] + Split(s);
    assert Prefix(a) == "/" && Prefix(b) == "/";
    assert Collapse(true, [], Split(a)) == Collapse(true, [], [".."] + Split(s));
    assert Collapse(true, [], [".."] + Split(s)) == Collapse(true, [], Split(s));
    assert NormSegs(a) == NormSegs(b);
  }

  lemma ParentOfRoot()
    ensures FullPath("/", "..") == "/"
  {
    SplitWord("..");
    SplitConcat("", "..");
    assert JoinPath("/", "..") == "" + "/" + "..";
    assert Split("/..") == ["", ".."];
  }

  // ---------------------------------------------------------------------
  // Which path normpath names: what it removes

  /**
   * A piece sequence normalisation erases wherever it stands: an empty
   * piece, ".", or a name followed by "..".
   */
  predicate Vanishes(m: string) {
    || m == ""
    || m == "."
    || (|m| > 3 && m[|m| - 3..] == "/.." && IsName(m[..|m| - 3]))
  }

  /** The loop leaves its accumulator as it was after the pieces of a vanishing run. */
  lemma CollapseVanishes(absolute: bool, acc: seq<string>, m: string)
    requires Vanishes(m)
    ensures Collapse(absolute, acc, Split(m)) == acc
  {
    if m == "" {
      assert Split(m) == [""];
      assert Collapse(absolute, acc, [""]) == Collapse(absolute, acc, []);
    } else if m == "." {
      SplitWord(".");
      assert Collapse(absolute, acc, ["."]) == Collapse(absolute, acc, []);
    } else {
      var name := m[..|m| - 3];
      assert m == name + "/" + "..";
      SplitConcat(name, "..");
      SplitWord(name);
      SplitWord("..");
      assert Split(m) == [name, ".."];
      var up := acc + [name];
      assert Step(absolute, acc, name) == up;
      assert up[|up| - 1] == name;
      assert up[..|up| - 1] == acc;
      assert Step(absolute, up, "..") == acc;
      assert [name, ".."][1..] == [".."];
      assert Collapse(absolute, acc, [name, ".."]) == Collapse(absolute, up, [".."]);
      assert Collapse(absolute, up, [".."]) == Collapse(absolute, acc, []);
    }
  }

  /** Beyond its first two characters a path does not change its leading slashes. */
  lemma PrefixAfterSlash(p: string, x: string, y: string)
    requires p != "" && p != "/"
    ensures Prefix(p + "/" + x) == Prefix(p + "/" + y)
  {
    var s, t := p + "/" + x, p + "/" + y;
    if |p| >= 2 {
      assert s[0] == t[0] && s[1] == t[1] && s[2] == t[2];
    } else {
      assert s[0] == p[0] == t[0] && p[0] != '/';
    }
  }

  /** `normpath` erases a vanishing run between two separators. */
  lemma NormpathSkips(p: string, m: string, b: string)
    requires Vanishes(m)
    requires Prefix(p + "/" + (m + "/" + b)) == Prefix(p + "/" + b)
    ensures Normpath(p + "/" + (m + "/" + b)) == Normpath(p + "/" + b)
  {
    var s, t := p + "/" + (m + "/" + b), p + "/" + b;
    SplitConcat(p, m + "/" + b);
    SplitConcat(m, b);
    SplitConcat(p, b);
    var absolute := Prefix(t) != "";
    var acc := Collapse(absolute, [], Split(p));
    assert Split(s) == Split(p) + (Split(m) + Split(b));
    CollapseAppend(absolute, [], Split(p), Split(m) + Split(b));
    CollapseAppend(absolute, acc, Split(m), Split(b));
    CollapseAppend(absolute, [], Split(p), Split(b));
    CollapseVanishes(absolute, acc, m);
    assert NormSegs(s) == NormSegs(t);
    assert s != "" && t != "";
  }

  /**
   * Seen from any working directory, a vanishing run after the first piece
   * of the argument is erased: an empty piece ("a//b" names "a/b"), "."
   * ("a/./b" names "a/b"), and a name cancelled by the ".." after it
   * ("a/n/../b" names "a/b"). An argument "" or "/" before the run is
   * excluded: "//b" is POSIX's own root and "///b" is "/b".
   */
  lemma FullPathSkips(cwd: string, a: string, m: string, b: string)
    requires a != "" && a != "/" && Vanishes(m)
    ensures FullPath(cwd, a + "/" + m + "/" + b) == FullPath(cwd, a + "/" + b)
  {
    var x, y := a + "/" + m + "/" + b, a + "/" + b;
    assert x == a + "/" + (m + "/" + b);
    assert x[0] == a[0] == y[0];
    if IsAbs(a) {
      PrefixAfterSlash(a, m + "/" + b, b);
      NormpathSkips(a, m, b);
    } else {
      JoinSkips(cwd, a, m, b);
    }
  }

  lemma JoinSkips(cwd: string, a: string, m: string, b: string)
    requires a != "" && !IsAbs(a) && Vanishes(m)
    ensures Normpath(JoinPath(cwd, a + "/" + (m + "/" + b))) == Normpath(JoinPath(cwd, a + "/" + b))
  {
    var p := JoinPath(cwd, a);
    JoinPathExtend(cwd, a, m + "/" + b);
    JoinPathExtend(cwd, a, b);
    PrefixAfterSlash(p, m + "/" + b, b);
    NormpathSkips(p, m, b);
  }

  /** Extending a relative argument after a separator extends the joined path the same way. */
  lemma JoinPathExtend(cwd: string, a: string, t: string)
    requires a != "" && !IsAbs(a)
    ensures JoinPath(cwd, a + "/" + t) == JoinPath(cwd, a) + "/" + t
    ensures JoinPath(cwd, a) != "" && JoinPath(cwd, a) != "/"
  {
    var p := JoinPath(cwd, a);
    JoinPathAppend(cwd, a, "/" + t);
    assert a + ("/" + t) == a + "/" + t;
    assert p + ("/" + t) == p + "/" + t;
    assert p[|p| - |a|..] == a;
  }

  /** Joining onto a working directory commutes with extending a relative argument. */
  lemma JoinPathAppend(cwd: string, a: string, x: string)
    requires a != "" && !IsAbs(a)
    ensures JoinPath(cwd, a + x) == JoinPath(cwd, a) + x
  {
    assert (a + x)[0] == a[0];
    if cwd == "" || cwd[|cwd| - 1] == '/' {
      assert cwd + (a + x) == cwd + a + x;
    } else {
      assert cwd + "/" + (a + x) == cwd + "/" + a + x;
    }
  }

  /** The same at the head of a relative argument, seen from a resolved working directory. */
  lemma FullPathSkipsLeading(cwd: string, m: string, s: string)
    requires Canonical(cwd) && Vanishes(m) && m != "" && !IsAbs(s)
    ensures FullPath(cwd, m + "/" + s) == FullPath(cwd, s)
  {
    var x := m + "/" + s;
    assert m[0] != '/' by {
      if m != "." {
        assert m[0] == m[..|m| - 3][0];
      }
    }
    assert !IsAbs(x);
    var base := if cwd == "/" then "" else cwd;
    if cwd != "/" {
      CanonicalHasNoTrailingSlash(cwd);
    }
    assert JoinPath(cwd, x) == base + "/" + m + "/" + s;
    assert JoinPath(cwd, s) == base + "/" + s;
    JoinOntoCanonical(cwd, x);
    JoinOntoCanonical(cwd, s);
    NormpathSkips(base, m, s);
  }

  /** ".." cancels the name before it: from a resolved directory, "n/../x" names what "x" names. */
  lemma ParentCancelsName(cwd: string, name: string, s: string)
    requires Canonical(cwd) && IsName(name) && !IsAbs(s)
    ensures FullPath(cwd, name + "/../" + s) == FullPath(cwd, s)
  {
    var m := name + "/..";
    assert m[..|m| - 3] == name && m[|m| - 3..] == "/..";
    assert name + "/../" + s == m + "/" + s;
    FullPathSkipsLeading(cwd, m, s);
  }

  /** A leading "." is dropped: from a resolved directory, "./x" names what "x" names. */
  lemma LeadingDotIsDropped(cwd: string, s: string)
    requires Canonical(cwd) && !IsAbs(s)
    ensures FullPath(cwd, "./" + s) == FullPath(cwd, s)
  {
    assert "./" + s == "." + "/" + s;
    FullPathSkipsLeading(cwd, ".", s);
  }

  /** An empty piece is dropped: "a//b" names what "a/b" names. */
  lemma EmptyPieceIsDropped(cwd: string, a: string, b: string)
    requires a != "" && a != "/"
    ensures FullPath(cwd, a + "//" + b) == FullPath(cwd, a + "/" + b)
  {
    assert a + "//" + b == a + "/" + "" + "/" + b;
    FullPathSkips(cwd, a, "", b);
  }

  /**
   * A trailing '/' names the same path: `normpath` drops it. The inputs "",
   * "/" and "//" are excluded: "" becomes ".", "/" + "/" is POSIX's
   * two-slash root, and "//" + "/" falls back to one slash.
   */
  lemma NormpathTrailingSlash(p: string)
    requires p != "" && p != "/" && p != "//"
    ensures Normpath(p + "/") == Normpath(p)
  {
    var q := p + "/";
    assert q == p + "/" + "";
    SplitConcat(p, "");
    assert Split(q) == Split(p) + [""];
    assert Prefix(q) == Prefix(p) by {
      if |p| >= 3 {
        assert q[..3] == p[..3];
      }
    }
    CollapseAppend(Prefix(p) != "", [], Split(p), [""]);
    assert NormSegs(q) == NormSegs(p);
  }

  /** The same for a resolved argument: "x/" names what "x" names, from any working directory. */
  lemma FullPathTrailingSlash(cwd: string, x: string)
    requires x != "" && x != "/" && x != "//"
    ensures FullPath(cwd, x + "/") == FullPath(cwd, x)
  {
    if IsAbs(x) {
      NormpathTrailingSlash(x);
    } else {
      var j := JoinPath(cwd, x);
      JoinPathAppend(cwd, x, "/");
      assert j[|j| - |x|..] == x;
      assert j[|j| - |x|] == x[0] != '/';
      NormpathTrailingSlash(j);
    }
  }

  /** An empty argument names the working directory itself. */
  lemma EmptyArgumentIsCwd(cwd: string)
    requires Canonical(cwd)
    ensures FullPath(cwd, "") == cwd
  {
    CanonicalIsFixed(cwd);
    if cwd != "/" {
      CanonicalHasNoTrailingSlash(cwd);
      assert JoinPath(cwd, "") == cwd + "/";
      NormpathTrailingSlash(cwd);
    } else {
      assert JoinPath(cwd, "") == "/";
    }
  }

  // ---------------------------------------------------------------------
  // The backslash replacement

  lemma {:induction false} SplitLacks(c: char, s: string)
    requires c !in s
    ensures forall i :: 0 <= i < |Split(s)| ==> c !in Split(s)[i]
    decreases |s|
  {
    if s != [] {
      assert c !in s[1..] by {
        forall k | 0 <= k < |s[1..]| ensures s[1..][k] != c {
          assert s[1..][k] == s[k + 1];
        }
      }
      SplitLacks(c, s[1..]);
    }
  }

  predicate AllLack(c: char, segs: seq<string>) {
    forall i :: 0 <= i < |segs| ==> c !in segs[i]
  }

  lemma {:induction false} CollapseLacks(c: char, absolute: bool, acc: seq<string>, comps: seq<string>)
    requires AllLack(c, acc) && AllLack(c, comps)
    ensures AllLack(c, Collapse(absolute, acc, comps))
    decreases |comps|
  {
    if comps != [] {
      var next := Step(absolute, acc, comps[0]);
      assert AllLack(c, next);
      CollapseLacks(c, absolute, next, comps[1..]);
    }
  }

  lemma {:induction false} JoinLacks(c: char, segs: seq<string>)
    requires c != '/' && AllLack(c, segs)
    ensures c !in Join(segs)
    decreases |segs|
  {
    if |segs| > 1 {
      JoinLacks(c, segs[1..]);
    }
  }

  /** `normpath` only adds '/' and '.' to the characters of its input. */
  lemma NormpathLacks(c: char, path: string)
    requires c != '/' && c != '.' && c !in path
    ensures c !in Normpath(path)
  {
    SplitLacks(c, path);
    CollapseLacks(c, Prefix(path) != "", [], Split(path));
    JoinLacks(c, NormSegs(path));
  }

  lemma ReplaceKeeps(s: string)
    requires '\\' !in s
    ensures ReplaceBackslashes(s) == s
  {
  }

  /** Without backslashes in its inputs, `get_full_path` as written and as meant agree. */
  lemma AsWrittenAgreesWithoutBackslash(cwd: string, path: string)
    requires '\\' !in cwd && '\\' !in path
    ensures FullPathAsWritten(cwd, path) == FullPath(cwd, path)
  {
    if IsAbs(path) {
      NormpathLacks('\\', path);
      ReplaceKeeps(Normpath(path));
    } else {
      var j := JoinPath(cwd, path);
      assert '\\' !in j;
      NormpathLacks('\\', j);
      ReplaceKeeps(Normpath(j));
    }
  }

  /**
   * As written, a backslash survives normalisation and only then becomes a
   * separator: "a\..", seen from "/", resolves to "/a/..", which is not
   * canonical, where the corrected definition gives "/a\..".
   */
  lemma BackslashDefeatsNormalisation()
    ensures FullPathAsWritten("/", "a\\..") == "/a/.."
    ensures !Canonical(FullPathAsWritten("/", "a\\.."))
    ensures FullPath("/", "a\\..") == "/a\\.."
  {
    assert IsName("a\\..");
    NameFromRoot("a\\..");
    var w := FullPathAsWritten("/", "a\\..");
    assert w == ReplaceBackslashes("/a\\..");
    assert w == "/a/..";
    assert w[1..] == "a" + "/" + "..";
    SplitConcat("a", "..");
    SplitWord("a");
    SplitWord("..");
    assert Split(w[1..]) == ["a", ".."];
    assert !IsName(Split(w[1..])[1]);
  }

  /** A single name seen from the root resolves to that name under the root. */
  lemma NameFromRoot(name: string)
    requires IsName(name)
    ensures FullPath("/", name) == "/" + name
  {
    var j := JoinPath("/", name);
    assert j == "" + "/" + name;
    SplitConcat("", name);
    SplitWord(name);
    assert Split(j) == ["", name];
    assert Prefix(j) == "/";
    assert Collapse(true, [], Split(j)) == Collapse(true, [], [name]);
    assert NormSegs(j) == [name];
  }

}
