/**
 * What the `Path` value object guarantees: where a path built from a URL
 * lands, how its URL form round-trips, how it splits into chunks, when it
 * is hidden, and what its parent and its name are.
 */
module PathLemmas {
  import opened Wrappers
  import opened PyStr
  import PosixPath
  import opened Paths

  /** A '.' that starts a segment other than the first. */
  predicate DotAfterSep(s: string) {
    exists k :: 1 <= k < |s| && s[k] == '.' && s[k - 1] == '/'
  }

  /** Some segment of `s` starts with '.': the first, or one after a separator. */
  predicate DotSegment(s: string) {
    StartsWith(s, '.') || DotAfterSep(s)
  }

  /**
   * Built from any relative URL, a path is the root, one separator and the
   * URL without its leading separators; it exists exactly when the root
   * does not occur in that remainder. `..` segments are kept.
   */
  lemma FromRelUrlShape(root: string, relurl: string)
    requires ValidRoot(root)
    ensures var r := TrimStart(relurl, PosixPath.SepSet);
            && (FromRelUrl(root, relurl).Ok? <==> !Contains(r, root))
            && (FromRelUrl(root, relurl).Ok? ==>
                  && FromRelUrl(root, relurl).value == Path(root + "/" + r)
                  && UnderRoot(root, FromRelUrl(root, relurl).value))
  {
    var r := TrimStart(relurl, PosixPath.SepSet);
    var p := Path(root + "/" + r);
    assert PosixPath.Join(root, r) == root + "/" + r;
    assert p.abspath[..|root| + 1] == root + "/";
    assert AsRelativePath(root, p) == r;
  }

  /**
   * A path built from a URL is a directory exactly when the URL is empty or
   * ends with a separator, and its URL form ends with a separator exactly
   * when it is a directory; so the constructor's assertions never fire.
   */
  lemma IsDirIffTrailingSep(root: string, relurl: string, p: Path)
    requires ValidRoot(root)
    requires FromRelUrl(root, relurl) == Ok(p)
    ensures IsDir(p) <==> (relurl == [] || EndsWith(relurl, '/'))
    ensures AsUrl(root, p).Ok?
    ensures EndsWith(AsUrl(root, p).value, '/') <==> IsDir(p)
  {
    FromRelUrlShape(root, relurl);
    var r := TrimStart(relurl, PosixPath.SepSet);
    if r != [] {
      assert relurl[|relurl| - 1] == r[|r| - 1];
    } else if relurl != [] {
      assert relurl[|relurl| - 1] in PosixPath.SepSet;
    }
  }

  /** A path is directory-form exactly when it is non-empty and has no name after its last separator. */
  lemma IsDirNoName(p: Path)
    ensures IsDir(p) <==> p.abspath != [] && PosixPath.Basename(p.abspath) == []
  {
    if p.abspath != [] && PosixPath.Basename(p.abspath) == [] {
      assert PosixPath.LastSepEnd(p.abspath) == |p.abspath|;
    }
  }

  /** The URL form of a path never contains the root. */
  lemma AsUrlNeverContainsRoot(root: string, p: Path)
    requires ValidRoot(root)
    requires AsUrl(root, p).Ok?
    ensures !Contains(AsUrl(root, p).value, root)
  {
    var url := AsRelativePath(root, p);
    var u := AsUrl(root, p).value;
    if Contains(u, root) {
      if IsDir(p) && !EndsWith(url, '/') {
        ContainsAppend(url, '/', root);
      } else if !IsDir(p) {
        ContainsInPrefix(url, |u|, root);
      }
      assert false;
    }
  }

  /**
   * Round trip from the URL side: a URL without leading separators reads
   * back unchanged, trailing separators included; the empty URL reads back
   * as "/".
   */
  lemma UrlRoundTrip(root: string, r: string)
    requires ValidRoot(root)
    requires !StartsWith(r, '/') && !Contains(r, root)
    ensures FromRelUrl(root, r) == Ok(Path(root + "/" + r))
    ensures AsUrl(root, Path(root + "/" + r)) == Ok(if r == [] then "/" else r)
  {
    assert TrimStart(r, PosixPath.SepSet) == r;
    FromRelUrlShape(root, r);
    AsUrlUnderRoot(root, r);
  }

  lemma AsUrlUnderRoot(root: string, r: string)
    requires !Contains(r, root)
    ensures AsUrl(root, Path(root + "/" + r)) == Ok(if r == [] then "/" else r)
  {
    RelativePathUnderRoot(root, r);
    var p := Path(root + "/" + r);
    if r == [] {
      assert IsDir(p);
      assert AsUrl(root, p) == Ok([] + "/");
      assert [] + "/" == "/";
    } else if EndsWith(r, '/') {
      assert IsDir(p);
    } else {
      assert !IsDir(p);
      assert TrimEnd(r, PosixPath.SepSet) == r;
    }
  }

  lemma RelativePathUnderRoot(root: string, r: string)
    ensures AsRelativePath(root, Path(root + "/" + r)) == r
    ensures IsDir(Path(root + "/" + r)) <==> (r == [] || EndsWith(r, '/'))
  {
    assert (root + "/" + r)[|root| + 1..] == r;
  }

  /** Round trip from the path side: rebuilding a path from its URL form gives the same path. */
  lemma PathRoundTrip(root: string, relurl: string, p: Path)
    requires ValidRoot(root)
    requires FromRelUrl(root, relurl) == Ok(p)
    ensures AsUrl(root, p).Ok?
    ensures FromRelUrl(root, AsUrl(root, p).value) == Ok(p)
  {
    FromRelUrlShape(root, relurl);
    var r := TrimStart(relurl, PosixPath.SepSet);
    UrlRoundTrip(root, r);
    if r == [] {
      TrimStartPrefix("/", [], PosixPath.SepSet);
      assert "/" + [] == "/";
      FromRelUrlShape(root, "/");
    }
  }

  /**
   * The chunks of a path built from a URL are the pieces of the URL without
   * its leading separators; the last chunk is empty exactly for a directory.
   */
  lemma UrlChunksOfRelUrl(root: string, relurl: string, p: Path)
    requires ValidRoot(root)
    requires FromRelUrl(root, relurl) == Ok(p)
    ensures UrlChunks(root, p) == Split(TrimStart(relurl, PosixPath.SepSet), '/')
    ensures UrlChunks(root, p)[|UrlChunks(root, p)| - 1] == [] <==> IsDir(p)
  {
    FromRelUrlShape(root, relurl);
    UrlChunksUnderRoot(root, TrimStart(relurl, PosixPath.SepSet), p);
  }

  lemma UrlChunksUnderRoot(root: string, r: string, p: Path)
    requires p == Path(root + "/" + r)
    ensures UrlChunks(root, p) == Split(r, '/')
    ensures UrlChunks(root, p)[|UrlChunks(root, p)| - 1] == [] <==> IsDir(p)
  {
    RelativePathUnderRoot(root, r);
    SplitLastEmpty(r, '/');
  }

  lemma {:induction false} SplitFirstDot(s: string)
    ensures StartsWith(Split(s, '/')[0], '.') <==> StartsWith(s, '.')
  {
  }

  lemma {:induction false} SplitLaterDot(s: string)
    ensures AnyDotChunk(Split(s, '/')[1..]) <==> DotAfterSep(s)
  {
    if |s| > 0 {
      var rest := s[1..];
      var t := Split(rest, '/');
      SplitLaterDot(rest);
      if s[0] == '/' {
        assert Split(s, '/')[1..] == t;
        SplitFirstDot(rest);
        if DotAfterSep(s) {
          var k :| 1 <= k < |s| && s[k] == '.' && s[k - 1] == '/';
          if k >= 2 { assert rest[k - 1] == '.' && rest[k - 2] == '/'; }
        }
        if DotAfterSep(rest) {
          var j :| 1 <= j < |rest| && rest[j] == '.' && rest[j - 1] == '/';
          assert s[j + 1] == '.' && s[j] == '/';
        }
        if StartsWith(rest, '.') {
          assert s[1] == '.' && s[0] == '/';
        }
      } else {
        assert Split(s, '/')[1..] == t[1..];
        if DotAfterSep(s) {
          var k :| 1 <= k < |s| && s[k] == '.' && s[k - 1] == '/';
          assert rest[k - 1] == '.' && rest[k - 2] == '/';
        }
        if DotAfterSep(rest) {
          var j :| 1 <= j < |rest| && rest[j] == '.' && rest[j - 1] == '/';
          assert s[j + 1] == '.' && s[j] == '/';
        }
      }
    }
  }

  /** Some piece of a split starts with '.' exactly when some segment of the string does. */
  lemma SplitDot(s: string)
    ensures AnyDotChunk(Split(s, '/')) <==> DotSegment(s)
  {
    SplitFirstDot(s);
    SplitLaterDot(s);
  }

  /**
   * A path built from a URL is hidden exactly when some segment of the URL
   * (leading separators removed) starts with '.'.
   */
  lemma HiddenIffDotSegment(root: string, relurl: string, p: Path)
    requires ValidRoot(root)
    requires FromRelUrl(root, relurl) == Ok(p)
    ensures IsHidden(root, p) <==> DotSegment(TrimStart(relurl, PosixPath.SepSet))
  {
    UrlChunksOfRelUrl(root, relurl, p);
    SplitDot(TrimStart(relurl, PosixPath.SepSet));
  }

  /** A path built from a non-empty absolute string is that string, when it exists. */
  lemma FromAbsFileShape(root: string, a: string)
    ensures FromAbsFile(root, a).Ok? ==> a != [] && FromAbsFile(root, a) == Ok(Path(a))
    ensures a != [] && AsUrl(root, Path(a)).Ok? ==> FromAbsFile(root, a) == Ok(Path(a))
  {
  }

  /** A prefix of a path under the root that is at least the root has a URL form when the path does. */
  lemma PrefixAsUrl(root: string, p: Path, d: string)
    requires root != [] && |d| <= |p.abspath| && d == p.abspath[..|d|]
    requires AsUrl(root, p).Ok?
    ensures AsUrl(root, Path(d)).Ok?
  {
    var url := AsRelativePath(root, p);
    if |root| + 1 <= |d| {
      assert AsRelativePath(root, Path(d)) == url[..|d| - |root| - 1];
      if Contains(AsRelativePath(root, Path(d)), root) {
        ContainsInPrefix(url, |d| - |root| - 1, root);
      }
    }
  }

  /**
   * The parent of a path under the root is the path of its dirname, which
   * still starts with the root and never ends with a separator: `basedir`
   * appends none. For a directory-form path it is the same path without
   * its trailing separators, so the parent of `a/b/` is `a/b`.
   */
  lemma BasedirUnderRoot(root: string, p: Path)
    requires ValidRoot(root) && UnderRoot(root, p) && AsUrl(root, p).Ok?
    ensures Basedir(root, p) == Ok(Path(PosixPath.Dirname(p.abspath)))
    ensures !IsDir(Path(PosixPath.Dirname(p.abspath)))
    ensures |PosixPath.Dirname(p.abspath)| >= |root| && PosixPath.Dirname(p.abspath)[..|root|] == root
    ensures IsDir(p) ==> PosixPath.Dirname(p.abspath) == TrimEnd(p.abspath, PosixPath.SepSet)
  {
    PosixPath.DirnameUnder(root, p.abspath);
    PrefixAsUrl(root, p, PosixPath.Dirname(p.abspath));
    FromAbsFileShape(root, PosixPath.Dirname(p.abspath));
  }

  /**
   * The name of a path under the root is the text after the last separator
   * once trailing separators are removed; for a directory it is the name of
   * its parent, so `a/b/` is named `b`.
   */
  lemma BasenameUnderRoot(root: string, p: Path)
    requires ValidRoot(root) && UnderRoot(root, p) && AsUrl(root, p).Ok?
    ensures Basename(root, p) == Ok(PosixPath.Basename(TrimEnd(p.abspath, PosixPath.SepSet)))
    ensures IsDir(p) ==> Basedir(root, p).Ok? && Basename(root, p) == Basename(root, Basedir(root, p).value)
  {
    if IsDir(p) {
      BasedirUnderRoot(root, p);
      var d := PosixPath.Dirname(p.abspath);
      assert Basename(root, Path(d)) == Ok(PosixPath.Basename(d));
    } else {
      assert KeepTo(p.abspath, PosixPath.SepSet, |p.abspath|) == |p.abspath|;
      assert p.abspath[..|p.abspath|] == p.abspath;
    }
  }

  /**
   * `basename` fails only where the source recurses without end: on a path
   * of separators only, whose parent is the path itself.
   */
  lemma BasenameRecursionOnlyOnSeparators(root: string, p: Path)
    requires Basename(root, p) == Err(RecursionLimit)
    ensures PosixPath.AllSeps(p.abspath)
    ensures Basedir(root, p) == Ok(p)
  {
    FromAbsFileShape(root, PosixPath.Dirname(p.abspath));
    PosixPath.DirnameOfSeparators(p.abspath);
  }

  /** The unit tests' directory case: root "/tmp/foo", URL "a/b/". */
  lemma DirExample()
    ensures FromRelUrl("/tmp/foo", "a/b/") == Ok(Path("/tmp/foo/a/b/"))
    ensures IsDir(Path("/tmp/foo/a/b/"))
    ensures AsUrl("/tmp/foo", Path("/tmp/foo/a/b/")) == Ok("a/b/")
  {
    assert "/tmp/foo" + "/" + "a/b/" == "/tmp/foo/a/b/";
    NotContainsMissingChar("a/b/", "/tmp/foo", 2);
    UrlRoundTrip("/tmp/foo", "a/b/");
  }

  lemma DirExampleChunks()
    ensures UrlChunks("/tmp/foo", Path("/tmp/foo/a/b/")) == ["a", "b", ""]
  {
    assert "/tmp/foo" + "/" + "a/b/" == "/tmp/foo/a/b/";
    assert Split("a/b/", '/') == ["a", "b", ""] by {
      JoinThree("a", "b", "", '/');
      assert "a" + "/" + "b" + "/" + "" == "a/b/";
      SplitJoin(["a", "b", ""], '/');
    }
    UrlChunksUnderRoot("/tmp/foo", "a/b/", Path("/tmp/foo/a/b/"));
  }

  lemma DirExampleBasename()
    ensures Basename("/tmp/foo", Path("/tmp/foo/a/b/")) == Ok("b")
  {
    var root, p := "/tmp/foo", Path("/tmp/foo/a/b/");
    assert root + "/" + "a/b/" == p.abspath;
    NotContainsMissingChar("a/b/", root, 2);
    AsUrlUnderRoot(root, "a/b/");
    assert PosixPath.Join("/tmp/foo/a", "b") + "/" == p.abspath;
    PosixPath.DirEntryTrim("/tmp/foo/a", "b");
    PosixPath.BasenameAfter("/tmp/foo/a/b", 11);
    BasenameUnderRoot(root, p);
  }

  /** The unit tests' file case: root "/tmp/foo", URL "a/b/test.rst". */
  lemma FileExample()
    ensures FromRelUrl("/tmp/foo", "a/b/test.rst") == Ok(Path("/tmp/foo/a/b/test.rst"))
    ensures !IsDir(Path("/tmp/foo/a/b/test.rst"))
  {
    assert "/tmp/foo" + "/" + "a/b/test.rst" == "/tmp/foo/a/b/test.rst";
    NotContainsMissingChar("a/b/test.rst", "/tmp/foo", 2);
    UrlRoundTrip("/tmp/foo", "a/b/test.rst");
  }

  lemma FileExampleBasename()
    ensures Basename("/tmp/foo", Path("/tmp/foo/a/b/test.rst")) == Ok("test.rst")
  {
    assert "/tmp/foo/a/b/test.rst"[13..] == "test.rst";
    PosixPath.BasenameAfter("/tmp/foo/a/b/test.rst", 13);
  }

  lemma FileExampleChunks()
    ensures UrlChunks("/tmp/foo", Path("/tmp/foo/a/b/test.rst")) == ["a", "b", "test.rst"]
  {
    assert "/tmp/foo" + "/" + "a/b/test.rst" == "/tmp/foo/a/b/test.rst";
    assert Split("a/b/test.rst", '/') == ["a", "b", "test.rst"] by {
      JoinThree("a", "b", "test.rst", '/');
      assert "a" + "/" + "b" + "/" + "test.rst" == "a/b/test.rst";
      SplitJoin(["a", "b", "test.rst"], '/');
    }
    UrlChunksUnderRoot("/tmp/foo", "a/b/test.rst", Path("/tmp/foo/a/b/test.rst"));
  }

  lemma FileExampleNotHidden()
    ensures !IsHidden("/tmp/foo", Path("/tmp/foo/a/b/test.rst"))
  {
    FileExampleChunks();
  }

  /** The unit tests' hidden case: "a/.b.rst" names a dot file. */
  lemma HiddenExample()
    ensures FromRelUrl("/tmp/foo", "a/.b.rst") == Ok(Path("/tmp/foo/a/.b.rst"))
  {
    assert "/tmp/foo" + "/" + "a/.b.rst" == "/tmp/foo/a/.b.rst";
    NotContainsMissingChar("a/.b.rst", "/tmp/foo", 2);
    UrlRoundTrip("/tmp/foo", "a/.b.rst");
  }

  lemma HiddenExampleIsHidden()
    ensures IsHidden("/tmp/foo", Path("/tmp/foo/a/.b.rst"))
  {
    assert "/tmp/foo" + "/" + "a/.b.rst" == "/tmp/foo/a/.b.rst";
    assert Split("a/.b.rst", '/') == ["a", ".b.rst"] by {
      JoinTwo("a", ".b.rst", '/');
      assert "a" + "/" + ".b.rst" == "a/.b.rst";
      SplitJoin(["a", ".b.rst"], '/');
    }
    UrlChunksUnderRoot("/tmp/foo", "a/.b.rst", Path("/tmp/foo/a/.b.rst"));
  }

  /** A traversal attempt with leading separators stays under the root. */
  lemma TraversalExample()
    ensures FromRelUrl("/tmp/foo", "//etc/passwd") == Ok(Path("/tmp/foo/etc/passwd"))
  {
    NotContainsMissingChar("etc/passwd", "/tmp/foo", 2);
    assert "/tmp/foo" + "/" + "etc/passwd" == "/tmp/foo/etc/passwd";
    assert "//" + "etc/passwd" == "//etc/passwd";
    TrimStartPrefix("//", "etc/passwd", PosixPath.SepSet);
    FromRelUrlShape("/tmp/foo", "//etc/passwd");
  }

  /** Repeated trailing separators of a directory URL are kept, not collapsed. */
  lemma TrailingSeparatorsKept()
    ensures AsUrl("/tmp/foo", Path("/tmp/foo/a//")) == Ok("a//")
  {
    assert "/tmp/foo" + "/" + "a//" == "/tmp/foo/a//";
    NotContainsMissingChar("a//", "/tmp/foo", 2);
    AsUrlUnderRoot("/tmp/foo", "a//");
  }
}
