/**
 * The `Path` value object of shoebill/__init__.py: a location inside the
 * content root, built from a URL-relative string or an absolute string,
 * with its URL form, its segments, its hidden flag, its parent and its name.
 *
 * The content root (the module global `content_path`) is a parameter
 * `root` of every operation. The application sets it to
 * `os.path.join(site, "content")`, which is never empty and never ends
 * with a separator: `ValidRoot`.
 */
module Paths {
  import opened Wrappers
  import opened PyStr
  import PosixPath

  /** The ways building or using a `Path` raises in the source. */
  datatype PathError =
    | MissingRelUrl   // neither argument given: `None.lstrip` raises
    | RootInUrl       // the assertion that the root does not occur in the URL
    | KindMismatch    // the constructor's file/directory consistency assertions
    | RecursionLimit  // `basename` on a path of separators only never returns

  datatype Path = Path(abspath: string)

  predicate ValidRoot(root: string) {
    root != [] && !EndsWith(root, '/')
  }

  /** The absolute path starts with the root followed by a separator. */
  predicate UnderRoot(root: string, p: Path) {
    |p.abspath| > |root| && p.abspath[..|root| + 1] == root + "/"
  }

  /** `is_dir`: the path is meant to be a directory because it ends with a separator. */
  predicate IsDir(p: Path) {
    EndsWith(p.abspath, '/')
  }

  /** `as_relative_path`: the absolute path with the root and one separator cut off. */
  function AsRelativePath(root: string, p: Path): (r: string)
    ensures |r| <= |p.abspath| && r == p.abspath[|p.abspath| - |r|..]
    ensures UnderRoot(root, p) ==> p.abspath == root + "/" + r
    ensures |r| == if |root| < |p.abspath| then |p.abspath| - |root| - 1 else 0
  {
    var trunc := |root| + 1;
    if trunc <= |p.abspath| then p.abspath[trunc..] else ""
  }

  /**
   * `as_url`: the relative path, forced to end with one separator for a
   * directory and stripped of trailing separators for a file; an error
   * when the root string occurs in it.
   */
  function AsUrl(root: string, p: Path): (r: Result<string, PathError>)
    ensures r.Ok? <==> !Contains(AsRelativePath(root, p), root)
    ensures r.Ok? ==> (EndsWith(r.value, '/') <==> IsDir(p))
    ensures r.Ok? && IsDir(p) ==>
              r.value == AsRelativePath(root, p) || r.value == AsRelativePath(root, p) + "/"
    ensures r.Ok? && IsDir(p) ==> (r.value == AsRelativePath(root, p) <==> EndsWith(AsRelativePath(root, p), '/'))
    ensures r.Ok? && !IsDir(p) ==> r.value == TrimEnd(AsRelativePath(root, p), PosixPath.SepSet)
  {
    var url := AsRelativePath(root, p);
    if Contains(url, root) then Err(RootInUrl)
    else if IsDir(p) then Ok(if EndsWith(url, '/') then url else url + "/")
    else Ok(TrimEnd(url, PosixPath.SepSet))
  }

  /**
   * `Path(relurl, absfile)`: a non-empty `absfile` is taken as it is;
   * otherwise the leading separators of `relurl` are stripped and the rest
   * is joined onto the root. The consistency assertions on `as_url` follow.
   */
  function Construct(root: string, relurl: Option<string>, absfile: Option<string>): (r: Result<Path, PathError>)
    ensures r != Err(KindMismatch)
    ensures r.Ok? ==> AsUrl(root, r.value).Ok?
  {
    var abs :- if absfile.Some? && absfile.value != [] then Ok(absfile.value)
               else if relurl.None? then Err(MissingRelUrl)
               else Ok(PosixPath.Join(root, TrimStart(relurl.value, PosixPath.SepSet)));
    var p := Path(abs);
    var url :- AsUrl(root, p);
    if IsDir(p) == EndsWith(url, '/') then Ok(p) else Err(KindMismatch)
  }

  /** `Path(relurl=...)`: the only way it fails is the assertion that the root is not in the URL. */
  function FromRelUrl(root: string, relurl: string): (r: Result<Path, PathError>)
    ensures r.Err? ==> r.error == RootInUrl
    ensures r.Ok? ==> AsUrl(root, r.value).Ok? && (IsDir(r.value) <==> EndsWith(AsUrl(root, r.value).value, '/'))
  {
    Construct(root, Some(relurl), None)
  }

  /** `Path(absfile=...)`: the string itself, when it is non-empty and has a URL form. */
  function FromAbsFile(root: string, absfile: string): (r: Result<Path, PathError>)
    ensures absfile == [] ==> r == Err(MissingRelUrl)
    ensures absfile != [] ==> (r.Ok? <==> AsUrl(root, Path(absfile)).Ok?)
    ensures r.Ok? ==> r.value == Path(absfile)
  {
    Construct(root, None, Some(absfile))
  }

  /** `url_chunks`: the relative path split on the separator. */
  function UrlChunks(root: string, p: Path): (r: seq<string>)
    ensures |r| >= 1 && JoinWith(r, '/') == AsRelativePath(root, p)
    ensures forall i :: 0 <= i < |r| ==> '/' !in r[i]
  {
    JoinSplit(AsRelativePath(root, p), '/');
    Split(AsRelativePath(root, p), '/')
  }

  /** The loop of `is_hidden`: whether some chunk starts with a dot. */
  function AnyDotChunk(cs: seq<string>): (b: bool)
    ensures b <==> exists i :: 0 <= i < |cs| && StartsWith(cs[i], '.')
  {
    if cs == [] then false
    else if StartsWith(cs[0], '.') then true
    else
      assert forall i :: 1 <= i < |cs| ==> cs[i] == cs[1..][i - 1];
      AnyDotChunk(cs[1..])
  }

  /** `is_hidden`: some chunk of the relative path starts with a dot. */
  predicate IsHidden(root: string, p: Path): (b: bool)
    ensures b <==> exists i :: 0 <= i < |UrlChunks(root, p)| && StartsWith(UrlChunks(root, p)[i], '.')
  {
    AnyDotChunk(UrlChunks(root, p))
  }

  /** `basedir`: a new `Path` built from the dirname of the absolute path. */
  function Basedir(root: string, p: Path): (r: Result<Path, PathError>)
    ensures r.Ok? <==> PosixPath.Dirname(p.abspath) != [] && AsUrl(root, Path(PosixPath.Dirname(p.abspath))).Ok?
    ensures r.Ok? ==> r.value == Path(PosixPath.Dirname(p.abspath))
  {
    FromAbsFile(root, PosixPath.Dirname(p.abspath))
  }

  /**
   * `basename`: for a file, the text after the last separator; for a
   * directory, the basename of `basedir()`. When `basedir()` is again a
   * directory the source recurses without end.
   */
  function Basename(root: string, p: Path): (r: Result<string, PathError>)
    ensures r.Ok? ==> '/' !in r.value
    ensures !IsDir(p) ==> r == Ok(PosixPath.Basename(p.abspath))
    decreases IsDir(p)
  {
    if !IsDir(p) then Ok(PosixPath.Basename(p.abspath))
    else
      var q :- Basedir(root, p);
      if IsDir(q) then Err(RecursionLimit) else Basename(root, q)
  }
}
