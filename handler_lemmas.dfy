/**
 * What the request handlers decide for a path that can be built: exactly
 * which paths `route_edit` and `route_post_save` turn away, when the
 * editor redirects, and the outcomes of the functional tests' requests.
 */
module HandlerLemmas {
  import opened Wrappers
  import opened PyStr
  import PosixPath
  import opened Paths
  import opened PathLemmas
  import opened Handlers

  /** The parent of a path built from a URL is the `Path` of its dirname, and it can be built. */
  lemma ParentOfBuilt(root: string, url: string, p: Path)
    requires ValidRoot(root) && FromRelUrl(root, url) == Ok(p)
    ensures UnderRoot(root, p) && AsUrl(root, p).Ok?
    ensures Basedir(root, p) == Ok(Path(PosixPath.Dirname(p.abspath)))
  {
    FromRelUrlShape(root, url);
    BasedirUnderRoot(root, p);
  }

  /** The request-validation failures shared by both handlers, beyond the file/directory test. */
  predicate ParentMissingOrHidden(root: string, fs: FileSystem, p: Path) {
    !IsRealDir(fs, PosixPath.Dirname(p.abspath)) || IsHidden(root, p)
  }

  /**
   * `route_edit` on a path that can be built: "not found" exactly when the
   * path is directory-form with no directory there, its parent directory
   * is missing or it is hidden; otherwise a redirect to the URL form plus
   * "/" exactly when a file-form path names a directory; otherwise the
   * editor, with the file's text when a file-form path names a file.
   */
  lemma EditDecision(root: string, fs: FileSystem, path: string, savemsg: Option<string>, p: Path)
    requires ValidRoot(root) && FromRelUrl(root, Strip(path)) == Ok(p)
    ensures var r := Edit(root, fs, path, savemsg);
            && (r == NotFound <==>
                  (IsDir(p) && !IsRealDir(fs, p.abspath)) || ParentMissingOrHidden(root, fs, p))
            && (r.Redirect? <==>
                  !ParentMissingOrHidden(root, fs, p) && !IsDir(p) && IsRealDir(fs, p.abspath))
            && (r.Redirect? ==> r.location == AsUrl(root, p).value + "/")
            && !r.Crash?
            && (r.Editor? ==> r == Editor(p, if IsRealFile(fs, p.abspath) && !IsDir(p)
                                           then fs.files[p.abspath] else "", savemsg))
  {
    ParentOfBuilt(root, Strip(path), p);
    var r := Edit(root, fs, path, savemsg);
    var parent := Path(PosixPath.Dirname(p.abspath));
    if IsDir(p) && !IsRealDir(fs, p.abspath) {
      assert r == NotFound;
    } else if !IsRealDir(fs, parent.abspath) || IsHidden(root, p) {
      assert r == NotFound;
    } else if !IsDir(p) && IsRealDir(fs, p.abspath) {
      assert r == Redirect(AsUrl(root, p).value + "/");
    } else {
      assert r == Editor(p, if IsRealFile(fs, p.abspath) && !IsDir(p) then fs.files[p.abspath] else "", savemsg);
    }
  }

  /** The three reasons `route_edit` answers "not found" for a path that can be built. */
  lemma EditRefused(root: string, fs: FileSystem, path: string, savemsg: Option<string>, p: Path)
    requires ValidRoot(root) && FromRelUrl(root, Strip(path)) == Ok(p)
    requires (IsDir(p) && !IsRealDir(fs, p.abspath)) || ParentMissingOrHidden(root, fs, p)
    ensures Edit(root, fs, path, savemsg) == NotFound
  {
    ParentOfBuilt(root, Strip(path), p);
  }

  /**
   * `route_post_save` on a path that can be built: turned away with "not
   * found" exactly when it is directory-form, names a directory, lies in a
   * missing directory or is hidden; otherwise the write goes ahead.
   */
  lemma SaveDecision(root: string, fs: FileSystem, path: string, p: Path)
    requires ValidRoot(root) && FromRelUrl(root, Strip(path)) == Ok(p)
    ensures SaveGuard(root, fs, path) ==
              if IsDir(p) || IsRealDir(fs, p.abspath) || ParentMissingOrHidden(root, fs, p)
              then Refused(NotFound) else Permitted(p)
  {
    ParentOfBuilt(root, Strip(path), p);
  }

  /**
   * A path `route_post_save` lets through is shown as the editor of the
   * saved text by the `route_edit` call that answers the save exactly
   * when its URL form does not start with whitespace: `route_edit` strips
   * the URL again, so `/ x` saves the file ` x` and then shows `x`.
   */
  lemma SavedPathIsEditable(root: string, fs: FileSystem, path: string, text: string, savemsg: Option<string>)
    requires ValidRoot(root) && SaveGuard(root, fs, path).Permitted?
    ensures var p := SaveGuard(root, fs, path).p;
            var u := AsUrl(root, p).value;
            Edit(root, Write(fs, p.abspath, text), u, savemsg) == Editor(p, text, savemsg) <==> Strip(u) == u
  {
    var p := SaveGuard(root, fs, path).p;
    var fs' := Write(fs, p.abspath, text);
    var u := AsUrl(root, p).value;
    if Strip(u) == u {
      ParentOfBuilt(root, Strip(path), p);
      PathRoundTrip(root, Strip(path), p);
      SaveDecision(root, fs, path, p);
      assert !IsDir(p) && !IsRealDir(fs', p.abspath) && !ParentMissingOrHidden(root, fs', p) by {
        assert fs'.dirs == fs.dirs;
      }
      assert IsRealFile(fs', p.abspath) && fs'.files[p.abspath] == text;
      EditDecision(root, fs', u, savemsg, p);
    } else {
      StripShorter(u);
      FromRelUrlShape(root, Strip(path));
      FromRelUrlShape(root, Strip(u));
      if FromRelUrl(root, Strip(u)).Ok? {
        var q := FromRelUrl(root, Strip(u)).value;
        assert |q.abspath| < |p.abspath|;
        EditDecision(root, fs', u, savemsg, q);
      }
    }
  }

  /** `strip()` changes a string only by making it shorter. */
  lemma StripShorter(s: string)
    requires Strip(s) != s
    ensures |Strip(s)| < |s|
  {
    var i :| PaddedAt(s, Strip(s), i, Whitespace);
    assert s[0..|s|] == s;
  }

  // The functional tests' requests, for any content root, any disk that
  // matches their setup and any request path that strips to the tested one.

  /** A plain name (no separator, no root in it) as a URL names the entry of that name directly under the root. */
  lemma TopLevelEntry(root: string, n: string)
    requires ValidRoot(root) && PosixPath.ValidName(n) && !Contains(n, root)
    ensures FromRelUrl(root, n) == Ok(Path(root + "/" + n))
    ensures AsUrl(root, Path(root + "/" + n)) == Ok(n)
    ensures PosixPath.Dirname(root + "/" + n) == root
    ensures !IsDir(Path(root + "/" + n))
    ensures IsHidden(root, Path(root + "/" + n)) <==> StartsWith(n, '.')
  {
    UrlRoundTrip(root, n);
    assert PosixPath.Join(root, n) == root + "/" + n;
    PosixPath.JoinNameParts(root, n);
    UrlChunksUnderRoot(root, n, Path(root + "/" + n));
    SplitPiece(n, '/');
    assert n[|n| - 1] in n;
  }

  /** The root directory is a real directory when it is on the disk. */
  lemma RootIsRealDir(root: string, fs: FileSystem)
    requires ValidRoot(root) && root in fs.dirs
    ensures IsRealDir(fs, root)
  {
    PosixPath.TrimEndNoSep(root);
  }

  /** `GET /edit/hi.rst` for a file that does not exist yet: the editor, empty. */
  lemma EditNewFile(root: string, fs: FileSystem, path: string, n: string)
    requires ValidRoot(root) && PosixPath.ValidName(n) && Strip(path) == n && !Contains(n, root)
    requires root in fs.dirs && root + "/" + n !in fs.dirs && root + "/" + n !in fs.files
    requires !StartsWith(n, '.')
    ensures Edit(root, fs, path, None) == Editor(Path(root + "/" + n), "", None)
  {
    var p := Path(root + "/" + n);
    assert FromRelUrl(root, Strip(path)) == Ok(p) && !IsDir(p) && !ParentMissingOrHidden(root, fs, p) by {
      TopLevelEntry(root, n);
      RootIsRealDir(root, fs);
    }
    assert !IsRealDir(fs, p.abspath) && !IsRealFile(fs, p.abspath) by { PosixPath.TrimEndNoSep(p.abspath); }
    EditDecision(root, fs, path, None, p);
  }

  /** `GET /edit/.hidden.rst`: not found, whatever is on the disk. */
  lemma EditHiddenFile(root: string, fs: FileSystem, path: string, n: string)
    requires ValidRoot(root) && PosixPath.ValidName(n) && Strip(path) == n && !Contains(n, root)
    requires StartsWith(n, '.')
    ensures Edit(root, fs, path, None) == NotFound
  {
    var p := Path(root + "/" + n);
    assert FromRelUrl(root, Strip(path)) == Ok(p) && IsHidden(root, p) by { TopLevelEntry(root, n); }
    EditRefused(root, fs, path, None, p);
  }

  /** `GET /edit/pages` where `pages` is a directory: a redirect to `pages/`. */
  lemma EditDirWithoutSlash(root: string, fs: FileSystem, path: string, n: string)
    requires ValidRoot(root) && PosixPath.ValidName(n) && Strip(path) == n && !Contains(n, root)
    requires root in fs.dirs && root + "/" + n in fs.dirs
    requires !StartsWith(n, '.')
    ensures Edit(root, fs, path, None) == Redirect(n + "/")
  {
    var p := Path(root + "/" + n);
    assert FromRelUrl(root, Strip(path)) == Ok(p) && AsUrl(root, p) == Ok(n) by { TopLevelEntry(root, n); }
    assert !IsDir(p) && !ParentMissingOrHidden(root, fs, p) by {
      TopLevelEntry(root, n);
      RootIsRealDir(root, fs);
    }
    assert IsRealDir(fs, p.abspath) by { PosixPath.TrimEndNoSep(p.abspath); }
    EditDecision(root, fs, path, None, p);
  }

  /** `GET /edit/notthere/` where `notthere` is not a directory: not found. */
  lemma EditMissingDir(root: string, fs: FileSystem, path: string, n: string)
    requires ValidRoot(root) && PosixPath.ValidName(n) && Strip(path) == n + "/" && !Contains(n + "/", root)
    requires root + "/" + n !in fs.dirs
    ensures Edit(root, fs, path, None) == NotFound
  {
    var p := Path(root + "/" + (n + "/"));
    assert FromRelUrl(root, Strip(path)) == Ok(p) by { UrlRoundTrip(root, n + "/"); }
    assert IsDir(p) && !IsRealDir(fs, p.abspath) by { TopLevelDirForm(root, n); }
    EditRefused(root, fs, path, None, p);
  }

  /** The directory form of a name directly under the root, stripped of its separator, is the entry of that name. */
  lemma TopLevelDirForm(root: string, n: string)
    requires ValidRoot(root) && PosixPath.ValidName(n)
    ensures TrimEnd(root + "/" + (n + "/"), PosixPath.SepSet) == root + "/" + n
  {
    assert PosixPath.Join(root, n) == root + "/" + n by { assert n[0] in n; }
    assert PosixPath.Join(root, n) + "/" == root + "/" + (n + "/");
    PosixPath.DirEntryTrim(root, n);
  }

  /** `POST /edit/hi.rst` in the root directory, where no directory of that name is: the write goes ahead. */
  lemma SaveNewFile(root: string, fs: FileSystem, path: string, n: string)
    requires ValidRoot(root) && PosixPath.ValidName(n) && Strip(path) == n && !Contains(n, root)
    requires root in fs.dirs && root + "/" + n !in fs.dirs
    requires !StartsWith(n, '.')
    ensures SaveGuard(root, fs, path) == Permitted(Path(root + "/" + n))
  {
    var p := Path(root + "/" + n);
    assert FromRelUrl(root, Strip(path)) == Ok(p) && !IsDir(p) && !ParentMissingOrHidden(root, fs, p) by {
      TopLevelEntry(root, n);
      RootIsRealDir(root, fs);
    }
    assert !IsRealDir(fs, p.abspath) by { PosixPath.TrimEndNoSep(p.abspath); }
    SaveDecision(root, fs, path, p);
  }

  /** `POST /edit/.hidden.rst`: not found, whatever is on the disk. */
  lemma SaveHiddenFile(root: string, fs: FileSystem, path: string, n: string)
    requires ValidRoot(root) && PosixPath.ValidName(n) && Strip(path) == n && !Contains(n, root)
    requires StartsWith(n, '.')
    ensures SaveGuard(root, fs, path) == Refused(NotFound)
  {
    var p := Path(root + "/" + n);
    assert FromRelUrl(root, Strip(path)) == Ok(p) && IsHidden(root, p) by { TopLevelEntry(root, n); }
    SaveDecision(root, fs, path, p);
  }

  /** `POST /edit/nothere/hi.rst` where `nothere` is not a directory: not found. */
  lemma SaveMissingDir(root: string, fs: FileSystem, path: string, d: string, n: string)
    requires ValidRoot(root) && PosixPath.ValidName(d) && PosixPath.ValidName(n)
    requires Strip(path) == d + "/" + n && !Contains(d + "/" + n, root)
    requires root + "/" + d !in fs.dirs
    ensures SaveGuard(root, fs, path) == Refused(NotFound)
  {
    var p := Path(root + "/" + (d + "/" + n));
    assert FromRelUrl(root, Strip(path)) == Ok(p) by { UrlRoundTrip(root, d + "/" + n); }
    assert ParentMissingOrHidden(root, fs, p) by {
      NestedEntry(root, d, n);
      PosixPath.TrimEndNoSep(root + "/" + d);
    }
    SaveDecision(root, fs, path, p);
  }

  /** The entry `n` of the sub-directory `d` of the root lies in `root/d`. */
  lemma NestedEntry(root: string, d: string, n: string)
    requires ValidRoot(root) && PosixPath.ValidName(d) && PosixPath.ValidName(n)
    ensures !EndsWith(root + "/" + d, '/')
    ensures PosixPath.Dirname(root + "/" + (d + "/" + n)) == root + "/" + d
  {
    var dir := root + "/" + d;
    assert dir[|dir| - 1] == d[|d| - 1];
    assert PosixPath.Join(dir, n) == dir + "/" + n by { assert n[0] in n; }
    assert dir + "/" + n == root + "/" + (d + "/" + n);
    PosixPath.JoinNameParts(dir, n);
  }

  /** `POST /make/publish` with no extra targets: `make publish` runs in the site directory above `content`. */
  lemma MakePublish(site: string, target: string)
    requires ValidRoot(site) && Strip(target) == "publish"
    ensures MakeTarget(site + "/content", [], target) == RunMake(["make", "publish"], site)
  {
    assert PosixPath.Join(site, "content") == site + "/content";
    PosixPath.JoinNameParts(site, "content");
  }
}
