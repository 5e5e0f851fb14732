/** The two `posixpath` functions the core uses: `os.path.splitext` and `os.path.join`. */
module Paths {

  /** `s.rfind(c)`: the index of the last occurrence of `c`, or -1. */
  function RFind(s: string, c: char): (k: int)
    ensures -1 <= k < |s|
    ensures k >= 0 ==> s[k] == c
    ensures forall i :: k < i < |s| ==> s[i] != c
    decreases |s|
  {
    if |s| == 0 then -1
    else if s[|s| - 1] == c then |s| - 1
    else RFind(s[..|s| - 1], c)
  }

  /** `os.path.splitext(p)`: the extension starts at the last dot of the last path component,
      unless everything before that dot in the component is dots (leading dots do not start an
      extension). */
  function SplitExt(p: string): (r: (string, string))
  {
    var sepIndex := RFind(p, '/');
    var dotIndex := RFind(p, '.');
    if dotIndex > sepIndex && exists i :: sepIndex + 1 <= i < dotIndex && p[i] != '.' then
      (p[..dotIndex], p[dotIndex..])
    else
      (p, "")
  }

  /** `os.path.splitext(p)[1]`. */
  function Extension(p: string): string {
    SplitExt(p).1
  }

  /** What `splitext` guarantees: the two parts put together give the path back, and a
      non-empty extension is a dot followed by neither a dot nor a slash, preceded in its
      component by at least one character that is not a dot. */
  lemma SplitExtSpec(p: string)
    ensures SplitExt(p).0 + SplitExt(p).1 == p
    ensures var ext := SplitExt(p).1;
      ext == "" ||
      (ext[0] == '.' && '.' !in ext[1..] && '/' !in ext &&
       exists i :: 0 <= i < |p| - |ext| && p[i] != '.' && '/' !in p[i..|p| - |ext|])
  {
    var sepIndex := RFind(p, '/');
    var dotIndex := RFind(p, '.');
    if dotIndex > sepIndex && exists i :: sepIndex + 1 <= i < dotIndex && p[i] != '.' {
      var i :| sepIndex + 1 <= i < dotIndex && p[i] != '.';
      var ext := p[dotIndex..];
      assert |p| - |ext| == dotIndex;
      assert '.' !in ext[1..] by {
        forall j | 0 <= j < |ext| - 1 ensures ext[1..][j] != '.' {
          assert ext[1..][j] == p[dotIndex + 1 + j];
        }
      }
      assert '/' !in ext by {
        forall j | 0 <= j < |ext| ensures ext[j] != '/' {
          assert ext[j] == p[dotIndex + j];
        }
      }
      assert '/' !in p[i..dotIndex] by {
        forall j | 0 <= j < dotIndex - i ensures p[i..dotIndex][j] != '/' {
          assert p[i..dotIndex][j] == p[i + j];
        }
      }
    }
  }

  /** What `splitext` can return as an extension: nothing, or a dot followed by characters
      that are neither dots nor slashes. */
  predicate IsExtension(ext: string) {
    ext == "" || (ext[0] == '.' && '.' !in ext[1..] && '/' !in ext)
  }

  lemma ExtensionIsExtension(p: string)
    ensures IsExtension(Extension(p))
  {
    SplitExtSpec(p);
  }

  /** `os.path.join(a, b)`: an absolute `b` replaces `a`; otherwise a slash is inserted
      unless `a` is empty or already ends with one. */
  function Join(a: string, b: string): string {
    if |b| > 0 && b[0] == '/' then b
    else if |a| == 0 || a[|a| - 1] == '/' then a + b
    else a + "/" + b
  }

  /** `os.path.join(a, b, c)`. */
  function Join3(a: string, b: string, c: string): string {
    Join(Join(a, b), c)
  }

  /** A name `join` appends rather than restarts from: it does not begin with a slash. */
  predicate RelativeName(b: string) {
    |b| == 0 || b[0] != '/'
  }

  /** A single non-empty path component. */
  predicate PlainComponent(a: string) {
    |a| > 0 && '/' !in a
  }

  /** `splitext` takes the last dot of a name, whatever its letter case. */
  lemma ExtensionExamples()
    ensures Extension("a.tar.png") == ".png"
    ensures Extension("photo.JPG") == ".JPG"
  {
    var p := "a.tar.png";
    assert RFind(p, '/') == -1;
    assert p[5] == '.' && RFind(p, '.') == 5;
    assert p[0] != '.';
    assert p[5..] == ".png";
    var q := "photo.JPG";
    assert RFind(q, '/') == -1;
    assert q[5] == '.' && RFind(q, '.') == 5;
    assert q[0] != '.';
    assert q[5..] == ".JPG";
  }

  /** Names without an extension: leading dots only, no dot, or a dot in a directory name. */
  lemma NoExtensionExamples()
    ensures Extension(".png") == ""
    ensures Extension("..png") == ""
    ensures Extension("png") == ""
    ensures Extension("dir.d/file") == ""
  {
    var r := "dir.d/file";
    assert r[5] == '/' && RFind(r, '/') == 5;
    assert r[3] == '.' && RFind(r, '.') == 3;
  }

  /** The extension of a name whose last component has a plain stem: everything from the last
      dot on. */
  lemma ExtensionOfStem(stem: string, e: string)
    requires '/' !in stem && '/' !in e && '.' !in e
    requires exists i :: 0 <= i < |stem| && stem[i] != '.'
    ensures Extension(stem + "." + e) == "." + e
  {
    var p := stem + "." + e;
    var sepIndex := RFind(p, '/');
    var dotIndex := RFind(p, '.');
    assert p[|stem|] == '.';
    assert forall j :: 0 <= j < |stem| ==> p[j] == stem[j];
    assert forall j :: |stem| < j < |p| ==> p[j] == e[j - |stem| - 1];
    assert dotIndex == |stem|;
    assert '/' !in p;
    var i :| 0 <= i < |stem| && stem[i] != '.';
    assert p[i] != '.';
    assert p[dotIndex..] == "." + e;
  }

  /** A dot-free, slash-free stem followed by an extension has exactly that extension. */
  lemma ExtensionAfterStem(stem: string, ext: string)
    requires |stem| > 0 && '/' !in stem && '.' !in stem
    requires IsExtension(ext)
    ensures Extension(stem + ext) == ext
  {
    if ext == "" {
      assert stem + ext == stem;
      assert RFind(stem, '.') == -1;
    } else {
      var e := ext[1..];
      assert ext == "." + e;
      assert stem + ext == stem + "." + e;
      assert stem[0] != '.';
      ExtensionOfStem(stem, e);
    }
  }
}
