/**
 * The request handlers of shoebill/__init__.py that decide what to do with
 * a path: `route_edit` (show a file or a directory), `route_post_save`
 * (write a file, stage it and commit it) and the allow-list test of
 * `route_run_make_target`.
 *
 * The disk is a `FileSystem` value: the real directories and the real
 * files with their text. The Git repository is an optional `Repo`: the
 * commits made so far. What `is_dirty()` answers is asked afresh on every
 * save, so both of its answers are parameters of the save.
 */
module Handlers {
  import opened Wrappers
  import opened PyStr
  import PosixPath
  import opened Paths

  /** Directories and files on disk, each named by its absolute path without a trailing separator. */
  datatype FileSystem = FileSystem(dirs: set<string>, files: map<string, string>)

  predicate ValidFileSystem(fs: FileSystem) {
    && (forall d :: d in fs.dirs ==> !EndsWith(d, '/'))
    && (forall f :: f in fs.files ==> !EndsWith(f, '/') && f !in fs.dirs)
  }

  /** `os.path.isdir`: trailing separators name the same directory. */
  predicate IsRealDir(fs: FileSystem, s: string) {
    TrimEnd(s, PosixPath.SepSet) in fs.dirs
  }

  /** `os.path.isfile` */
  predicate IsRealFile(fs: FileSystem, s: string) {
    s in fs.files
  }

  /** `os.path.isdir` ignores trailing separators: `d/` names the directory `d`. */
  lemma IsRealDirTrailingSep(fs: FileSystem, s: string)
    ensures IsRealDir(fs, s + "/") <==> IsRealDir(fs, s)
  {
    PosixPath.TrimEndSep(s);
  }

  /** `os.path.isfile` answers false for a directory and for any path ending with a separator. */
  lemma RealFileIsNoDir(fs: FileSystem, s: string)
    requires ValidFileSystem(fs)
    ensures IsRealFile(fs, s) ==> !IsRealDir(fs, s)
    ensures !IsRealFile(fs, s + "/")
  {
    if IsRealFile(fs, s) {
      PosixPath.TrimEndNoSep(s);
    }
  }

  /** `open(s, "w").write(text)` */
  function Write(fs: FileSystem, s: string, text: string): (r: FileSystem)
    ensures r.dirs == fs.dirs && s in r.files && r.files[s] == text
    ensures forall f :: f != s ==> (f in r.files <==> f in fs.files)
    ensures forall f :: f != s && f in fs.files ==> r.files[f] == fs.files[f]
  {
    fs.(files := fs.files[s := text])
  }

  /** Writing a file where no directory is keeps directories and files apart. */
  lemma WriteKeepsValid(fs: FileSystem, s: string, text: string)
    requires ValidFileSystem(fs) && !EndsWith(s, '/') && !IsRealDir(fs, s)
    ensures ValidFileSystem(Write(fs, s, text))
  {
    PosixPath.TrimEndNoSep(s);
  }

  /** The exceptions a handler lets escape; the server answers them with an error status. */
  datatype Failure =
    | PathFailure(PathError)     // building or using a `Path` raised
    | MissingFormField(string)   // `request.forms[name]` on a field the form lacks

  /** What a handler answers. */
  datatype Page =
    | NotFound                   // the `path_not_found` error page
    | Redirect(location: string) // `bottle.redirect` to a URL relative to the current one
    | Editor(path: Path, contents: string, savemsg: Option<string>)  // the `edit` template
    | Crash(failure: Failure)

  const SavedMsg: string := "Saved."
  const NoChangesMsg: string := "No changes to be saved!"

  /**
   * `route_edit(path, savemsg)`: the editor for the path, unless it names a
   * missing directory, lies in a missing directory or is hidden; a file-form
   * path that names a directory is redirected to its directory form.
   */
  function Edit(root: string, fs: FileSystem, path: string, savemsg: Option<string>): (r: Page)
    ensures r.Editor? ==> !IsHidden(root, r.path) && r.savemsg == savemsg
    ensures r.Editor? && IsDir(r.path) ==> IsRealDir(fs, r.path.abspath) && r.contents == []
    ensures r.Editor? && !IsDir(r.path) ==>
              && !IsRealDir(fs, r.path.abspath)
              && r.contents == (if IsRealFile(fs, r.path.abspath) then fs.files[r.path.abspath] else [])
    ensures r.Redirect? ==> EndsWith(r.location, '/')
  {
    match FromRelUrl(root, Strip(path))
    case Err(e) => Crash(PathFailure(e))
    case Ok(p) =>
      if IsDir(p) && !IsRealDir(fs, p.abspath) then NotFound
      else
        match Basedir(root, p)
        case Err(e) => Crash(PathFailure(e))
        case Ok(b) =>
          if !IsRealDir(fs, b.abspath) then NotFound
          else if IsHidden(root, p) then NotFound
          else if !IsDir(p) && IsRealDir(fs, p.abspath) then
            match AsUrl(root, p)
            case Err(e) => Crash(PathFailure(e))
            case Ok(u) => Redirect(u + "/")
          else
            Editor(p, if IsRealFile(fs, p.abspath) && !IsDir(p) then fs.files[p.abspath] else "", savemsg)
  }

  /** The outcome of the checks `route_post_save` makes before it writes. */
  datatype SaveCheck = Refused(page: Page) | Permitted(p: Path)

  /**
   * The guards of `route_post_save`: the path must be file-form, must not
   * name a directory, must lie in a real directory and must not be hidden.
   */
  function SaveGuard(root: string, fs: FileSystem, path: string): (c: SaveCheck)
    ensures c.Refused? ==> c.page.NotFound? || c.page.Crash?
    ensures c.Permitted? ==>
              && FromRelUrl(root, Strip(path)) == Ok(c.p)
              && !IsDir(c.p) && !IsRealDir(fs, c.p.abspath) && !IsHidden(root, c.p)
              && AsUrl(root, c.p).Ok?
  {
    match FromRelUrl(root, Strip(path))
    case Err(e) => Refused(Crash(PathFailure(e)))
    case Ok(p) =>
      if IsDir(p) || IsRealDir(fs, p.abspath) then Refused(NotFound)
      else
        match Basedir(root, p)
        case Err(e) => Refused(Crash(PathFailure(e)))
        case Ok(b) =>
          if !IsRealDir(fs, b.abspath) then Refused(NotFound)
          else if IsHidden(root, p) then Refused(NotFound)
          else Permitted(p)
  }

  /** The logged-in user of the authentication layer. */
  datatype User = User(username: string, email: Option<string>)

  datatype Commit = Commit(message: string, author: Option<string>)

  /** The Git repository: the commits made so far. */
  datatype Repo = Repo(log: seq<Commit>)

  /** `post_get("desc") or "Update %s" % path.as_abs_path` */
  function CommitMessage(desc: string, p: Path): (m: string)
    ensures m != []
    ensures Strip(desc) != [] ==> m == Strip(desc)
    ensures Strip(desc) == [] ==> m == "Update " + p.abspath
  {
    if Strip(desc) != [] then Strip(desc) else "Update " + p.abspath
  }

  /** `"%s <%s>" % (cu.username, cu.email_addr or "")` */
  function Author(u: User): (a: string)
    ensures |a| == |u.username| + |u.email.GetOr("")| + 3
    ensures a[..|u.username|] == u.username && a[|u.username|..|u.username| + 2] == " <"
    ensures a[|u.username| + 2..|a| - 1] == u.email.GetOr("") && a[|a| - 1] == '>'
  {
    u.username + " <" + u.email.GetOr("") + ">"
  }

  /** The author passed to `git commit`: none without authentication. */
  function CommitAuthor(user: Option<User>): (a: Option<string>)
    ensures a.Some? <==> user.Some?
    ensures a.Some? ==> a.value == Author(user.value) && EndsWith(a.value, '>')
  {
    if user.Some? then Some(Author(user.value)) else None
  }

  /** The save leaves the repository alone: the file existed and nothing is dirty before or after staging. */
  predicate NoChanges(existed: bool, dirtyBefore: bool, dirtyAfterAdd: bool) {
    existed && !dirtyBefore && !dirtyAfterAdd
  }

  /**
   * The site being edited: the content root, the disk and the optional
   * repository (the module globals `content_path` and `git_repo`).
   */
  class Site {
    const root: string
    var fs: FileSystem
    var repo: Option<Repo>

    predicate Valid()
      reads this
    {
      ValidRoot(root) && ValidFileSystem(fs)
    }

    constructor (root: string, fs: FileSystem, repo: Option<Repo>)
      requires ValidRoot(root) && ValidFileSystem(fs)
      ensures Valid()
      ensures this.root == root && this.fs == fs && this.repo == repo
    {
      this.root := root;
      this.fs := fs;
      this.repo := repo;
    }

    /**
     * `route_post_save(path)` with the form fields `file_contents` and
     * `desc`. `user` is the logged-in user when authentication is on;
     * `dirtyBefore` and `dirtyAfterAdd` are what `is_dirty()` answers
     * before and after the file is staged.
     */
    method PostSave(path: string, contents: string, desc: Option<string>, user: Option<User>,
                    dirtyBefore: bool, dirtyAfterAdd: bool)
      returns (page: Page)
      requires Valid()
      modifies this
      ensures Valid()
      ensures SaveGuard(root, old(fs), path).Refused? ==>
                page == SaveGuard(root, old(fs), path).page && fs == old(fs) && repo == old(repo)
      ensures SaveGuard(root, old(fs), path).Permitted? ==>
                var p := SaveGuard(root, old(fs), path).p;
                var existed := IsRealFile(old(fs), p.abspath);
                var noChanges := old(repo).Some? && NoChanges(existed, dirtyBefore, dirtyAfterAdd);
                var missingDesc := old(repo).Some? && !noChanges && desc.None?;
                && fs == Write(old(fs), p.abspath, contents)
                && (old(repo).None? ==> repo == None)
                && (old(repo).Some? && (noChanges || desc.None?) ==> repo == old(repo))
                && (old(repo).Some? && !noChanges && desc.Some? ==>
                      repo == Some(Repo(old(repo).value.log + [Commit(CommitMessage(desc.value, p), CommitAuthor(user))])))
                && (missingDesc ==> page == Crash(MissingFormField("desc")))
                && (!missingDesc ==>
                      page == Edit(root, fs, AsUrl(root, p).value, Some(if noChanges then NoChangesMsg else SavedMsg)))
    {
      var check, existed := Store(path, contents);
      if check.Refused? {
        return check.page;
      }
      var url := AsUrl(root, check.p).value;
      if repo.None? {
        return Edit(root, fs, url, Some(SavedMsg));
      }
      var outcome := StageAndCommit(check.p, existed, desc, user, dirtyBefore, dirtyAfterAdd);
      if outcome.Err? {
        return Crash(outcome.error);
      }
      return Edit(root, fs, url, Some(outcome.value));
    }

    /**
     * The first half of `route_post_save`: the guards, then the write.
     * `existed` is whether the file was there before the write.
     */
    method Store(path: string, contents: string) returns (check: SaveCheck, existed: bool)
      requires Valid()
      modifies this`fs
      ensures Valid()
      ensures check == SaveGuard(root, old(fs), path)
      ensures check.Refused? ==> fs == old(fs) && !existed
      ensures check.Permitted? ==>
                existed == IsRealFile(old(fs), check.p.abspath) && fs == Write(old(fs), check.p.abspath, contents)
    {
      check := SaveGuard(root, fs, path);
      if check.Refused? {
        return check, false;
      }
      existed := IsRealFile(fs, check.p.abspath);
      WriteKeepsValid(fs, check.p.abspath, contents);
      fs := Write(fs, check.p.abspath, contents);
    }

    /**
     * The second half of `route_post_save` when a repository exists: stage
     * the file, then commit unless nothing changed. The answer is the
     * message the editor shows, or the failure of reading the missing
     * `desc` field.
     */
    method StageAndCommit(p: Path, existed: bool, desc: Option<string>, user: Option<User>,
                          dirtyBefore: bool, dirtyAfterAdd: bool)
      returns (outcome: Result<string, Failure>)
      requires repo.Some?
      modifies this`repo
      ensures var noChanges := NoChanges(existed, dirtyBefore, dirtyAfterAdd);
              && (noChanges ==> outcome == Ok(NoChangesMsg) && repo == old(repo))
              && (!noChanges && desc.None? ==> outcome == Err(MissingFormField("desc")) && repo == old(repo))
              && (!noChanges && desc.Some? ==>
                    && outcome == Ok(SavedMsg)
                    && repo == Some(Repo(old(repo).value.log + [Commit(CommitMessage(desc.value, p), CommitAuthor(user))])))
    {
      var repoIsDirty := dirtyBefore;
      repoIsDirty := repoIsDirty || dirtyAfterAdd;
      if existed && !repoIsDirty {
        return Ok(NoChangesMsg);
      }
      if desc.None? {
        return Err(MissingFormField("desc"));
      }
      var message := CommitMessage(desc.value, p);
      repo := Some(repo.value.(log := repo.value.log + [Commit(message, CommitAuthor(user))]));
      return Ok(SavedMsg);
    }
  }

  /** What `route_run_make_target` does with a target. */
  datatype MakeOutcome =
    | UnknownTarget                          // the "Unknown make target" error page
    | RunMake(argv: seq<string>, cwd: string) // `subprocess.Popen(argv, cwd=cwd)`

  /**
   * The allow-list of `route_run_make_target`: after stripping, `publish`
   * and the targets given with `--target` run `make` in the site directory,
   * the parent of the content root.
   */
  function MakeTarget(root: string, makeTargets: seq<string>, target: string): (r: MakeOutcome)
    ensures r.RunMake? <==> Strip(target) == "publish" || Strip(target) in makeTargets
    ensures r.RunMake? ==> r.argv == ["make", Strip(target)] && r.cwd == PosixPath.Dirname(root)
  {
    var t := Strip(target);
    if t != "publish" && t !in makeTargets then UnknownTarget
    else RunMake(["make", t], PosixPath.Dirname(root))
  }
}
