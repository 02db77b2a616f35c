/** The path cleaning and the file choice of the catch-all route of
    `shared_planner/api/__init__.py`, which serves the built web front end.
    `os.path.normpath` and the existence test in the build directory are
    parameters. */
module Serve {

  /** Whether `s` holds ".." at `i`. */
  predicate DotsAt(s: string, i: int) {
    0 <= i && i + 1 < |s| && s[i] == '.' && s[i + 1] == '.'
  }

  /** `s.replace("..", "")`: a scan from the left that drops each ".." it
      meets, the two dots at once. */
  function RemoveDots(s: string): (r: string)
    ensures |r| <= |s|
  {
    if DotsAt(s, 0) then RemoveDots(s[2..])
    else if s == [] then []
    else [s[0]] + RemoveDots(s[1..])
  }

  /** A text that does not start with ".." keeps its first character. */
  lemma FirstKept(s: string)
    requires s != [] && !DotsAt(s, 0)
    ensures RemoveDots(s) != [] && RemoveDots(s)[0] == s[0]
  {
  }

  /** No ".." is left: a dot that is kept is followed, in the text, by a
      character that is not a dot, and that character comes next. */
  lemma {:induction false} NoDotsLeft(s: string)
    ensures forall i :: !DotsAt(RemoveDots(s), i)
  {
    if s == [] {
    } else if DotsAt(s, 0) {
      NoDotsLeft(s[2..]);
    } else {
      var rest := RemoveDots(s[1..]);
      NoDotsLeft(s[1..]);
      var r := [s[0]] + rest;
      assert RemoveDots(s) == r;
      forall i ensures !DotsAt(r, i) {
        if i == 0 && rest != [] && s[0] == '.' {
          FirstKept(s[1..]);
          assert r[1] == s[1] != '.';
        } else if i > 0 {
          assert DotsAt(r, i) == DotsAt(rest, i - 1);
        }
      }
    }
  }

  /** A text without ".." is left as it is. */
  lemma {:induction false} RemoveDotsUnchanged(s: string)
    requires forall i :: !DotsAt(s, i)
    ensures RemoveDots(s) == s
  {
    if s != [] {
      forall i ensures !DotsAt(s[1..], i) {
        assert !DotsAt(s, i + 1);
      }
      RemoveDotsUnchanged(s[1..]);
      assert s == [s[0]] + s[1..];
    }
  }

  /** Removing twice is removing once. */
  lemma RemoveDotsIdempotent(s: string)
    ensures RemoveDots(RemoveDots(s)) == RemoveDots(s)
  {
    NoDotsLeft(s);
    RemoveDotsUnchanged(RemoveDots(s));
  }

  /** An absolute path stays absolute: a leading '/' is never removed. */
  lemma AbsoluteKept(s: string)
    requires s != [] && s[0] == '/'
    ensures RemoveDots(s) != [] && RemoveDots(s)[0] == '/'
  {
    FirstKept(s);
  }

  /** `sanitize_path(path)`. */
  function SanitizePath(path: string, normpath: string -> string): (r: string)
    ensures forall i :: !DotsAt(r, i)
    ensures |r| <= |normpath(path)|
  {
    NoDotsLeft(normpath(path));
    RemoveDots(normpath(path))
  }

  /** `base / p` with `pathlib`: an absolute `p` replaces the base. */
  function Under(base: string, p: string): (r: string)
    ensures p != [] && p[0] == '/' ==> r == p
    ensures (p == [] || p[0] != '/') ==> r == base + "/" + p
  {
    if p != [] && p[0] == '/' then p else base + "/" + p
  }

  /** `serve_my_app(rest_of_path)`: the file sent back, under the build
      directory `baseDir`. The index page for an empty cleaned path and for
      a path that does not exist, the file itself otherwise. `fileExists`
      tests whatever path `Under` gives, absolute ones included. */
  function ServeApp(restOfPath: string, normpath: string -> string, baseDir: string, fileExists: string -> bool): (r: string)
    ensures var p := SanitizePath(restOfPath, normpath);
      r == (if p != "" && fileExists(Under(baseDir, p)) then Under(baseDir, p) else Under(baseDir, "index.html"))
  {
    Choose(SanitizePath(restOfPath, normpath), baseDir, fileExists)
  }

  /** The file chosen for a cleaned path `p`. */
  function Choose(p: string, baseDir: string, fileExists: string -> bool): string {
    if p == "" then Under(baseDir, "index.html")
    else if fileExists(Under(baseDir, p)) then Under(baseDir, p)
    else Under(baseDir, "index.html")
  }

  /** The index page's name holds no "..". */
  lemma IndexHasNoDots()
    ensures forall i :: !DotsAt("index.html", i)
  {
    forall i | 0 <= i < 9
      ensures !DotsAt("index.html", i)
    {
      assert "index.html"[i] != '.' || "index.html"[i + 1] != '.';
    }
  }

  /** A cleaned path that is relative is served from inside the build
      directory, and what follows the directory holds no "..". */
  lemma RelativeServedInside(restOfPath: string, normpath: string -> string, baseDir: string, fileExists: string -> bool)
    requires var p := SanitizePath(restOfPath, normpath); p == [] || p[0] != '/'
    ensures exists rest ::
      && ServeApp(restOfPath, normpath, baseDir, fileExists) == baseDir + "/" + rest
      && forall i :: !DotsAt(rest, i)
  {
    var p := SanitizePath(restOfPath, normpath);
    if p != "" && fileExists(Under(baseDir, p)) {
      assert ServeApp(restOfPath, normpath, baseDir, fileExists) == baseDir + "/" + p;
    } else {
      IndexHasNoDots();
      assert ServeApp(restOfPath, normpath, baseDir, fileExists) == baseDir + "/" + "index.html";
    }
  }

  /** Removing ".." can make a relative path absolute: `normpath` leaves
      "../etc/passwd" as it is, and the removal turns it into
      "/etc/passwd", which `pathlib` then takes in place of the build
      directory. */
  lemma DotsMakeAbsolute()
    ensures RemoveDots("../etc/passwd") == "/etc/passwd"
  {
    assert DotsAt("../etc/passwd", 0);
    assert "../etc/passwd"[2..] == "/etc/passwd";
    assert forall i :: !DotsAt("/etc/passwd", i);
    RemoveDotsUnchanged("/etc/passwd");
  }

  /** An absolute path that `normpath` leaves absolute is served as it is,
      outside the build directory, whenever that file exists. */
  lemma AbsoluteServedOutside(restOfPath: string, normpath: string -> string, baseDir: string, fileExists: string -> bool)
    requires var p := normpath(restOfPath); p != [] && p[0] == '/'
    requires fileExists(RemoveDots(normpath(restOfPath)))
    ensures ServeApp(restOfPath, normpath, baseDir, fileExists) == RemoveDots(normpath(restOfPath))
    ensures ServeApp(restOfPath, normpath, baseDir, fileExists)[0] == '/'
  {
    AbsoluteKept(normpath(restOfPath));
  }

  // ---- the path cleaning as evidently intended -----------------------------

  /** `s.lstrip("/")`. */
  function DropLeadingSlashes(s: string): (r: string)
    ensures r == [] || r[0] != '/'
    ensures |r| <= |s| && r == s[|s| - |r|..]
  {
    if s != [] && s[0] == '/' then DropLeadingSlashes(s[1..]) else s
  }

  /** A part of a text without ".." holds none. */
  lemma NoDotsInSuffix(s: string, k: nat)
    requires k <= |s| && forall i :: !DotsAt(s, i)
    ensures forall i :: !DotsAt(s[k..], i)
  {
    forall i ensures !DotsAt(s[k..], i) {
      assert !DotsAt(s, i + k);
    }
  }

  /** `sanitize_path` as evidently intended: the ".." removed, then the
      leading '/' too, so that the result is always relative. */
  function SanitizePathFixed(path: string, normpath: string -> string): (r: string)
    ensures forall i :: !DotsAt(r, i)
    ensures r == [] || r[0] != '/'
  {
    var p := SanitizePath(path, normpath);
    NoDotsInSuffix(p, |p| - |DropLeadingSlashes(p)|);
    DropLeadingSlashes(p)
  }

  /** `serve_my_app` with the intended cleaning. */
  function ServeAppFixed(restOfPath: string, normpath: string -> string, baseDir: string, fileExists: string -> bool): string {
    Choose(SanitizePathFixed(restOfPath, normpath), baseDir, fileExists)
  }

  /** With the intended cleaning, every request is served from inside the
      build directory by a relative path without "..", whatever `normpath`
      returns. */
  lemma ServedInsideFixed(restOfPath: string, normpath: string -> string, baseDir: string, fileExists: string -> bool)
    ensures exists rest ::
      && ServeAppFixed(restOfPath, normpath, baseDir, fileExists) == baseDir + "/" + rest
      && (forall i :: !DotsAt(rest, i))
      && (rest == [] || rest[0] != '/')
  {
    var p := SanitizePathFixed(restOfPath, normpath);
    var rest := if p != "" && fileExists(Under(baseDir, p)) then p else "index.html";
    IndexHasNoDots();
    assert "index.html"[0] == 'i';
    assert ServeAppFixed(restOfPath, normpath, baseDir, fileExists) == Under(baseDir, rest) == baseDir + "/" + rest;
  }

  /** The path of `DotsMakeAbsolute` is cleaned into "etc/passwd", a path
      below the build directory. */
  lemma DotsStayRelativeFixed()
    ensures SanitizePathFixed("../etc/passwd", (x: string) => x) == "etc/passwd"
  {
    DotsMakeAbsolute();
    var p: string := "/etc/passwd";
    assert p[1..] == "etc/passwd";
    assert DropLeadingSlashes(p) == DropLeadingSlashes(p[1..]);
  }
}
