/**
 * `Path.list_current_dir` of shoebill/__init__.py: the sub-directories and
 * files of the directory holding a path, each as a `Path`, sorted by name,
 * with hidden entries dropped.
 *
 * The source reads the names from the first step of `os.walk` on that
 * directory; here that step is a parameter: `None` when the walk yields
 * nothing (the directory does not exist), otherwise the two name lists.
 */
module Listing {
  import opened Wrappers
  import opened PyStr
  import PosixPath
  import opened Paths
  import opened PathLemmas

  /** The directory names and file names of the first triple `os.walk` yields. */
  datatype WalkTop = WalkTop(dirnames: seq<string>, filenames: seq<string>)

  datatype ListError =
    | NoSuchDir              // `next` on an empty walk raises StopIteration
    | EntryError(PathError)  // building the `Path` of an entry raises

  datatype Listing = Listing(dirs: seq<Path>, files: seq<Path>)

  /** Names as a directory walk reports them: non-empty and free of separators. */
  predicate ValidWalk(top: WalkTop) {
    (forall i :: 0 <= i < |top.dirnames| ==> PosixPath.ValidName(top.dirnames[i]))
    && (forall i :: 0 <= i < |top.filenames| ==> PosixPath.ValidName(top.filenames[i]))
  }

  /** The directory being listed: `os.path.dirname` of the absolute path. */
  function ListedDir(p: Path): string {
    PosixPath.Dirname(p.abspath)
  }

  /** The absolute string of entry `n` of `bdn`: `os.path.join(bdn, n)` plus `suffix`. */
  function EntryPath(bdn: string, n: string, suffix: string): string {
    PosixPath.Join(bdn, n) + suffix
  }

  /** `[Path(absfile=EntryPath(bdn, n, suffix)) for n in names]`, raising at the first entry that fails. */
  function Entries(root: string, bdn: string, names: seq<string>, suffix: string): (r: Result<seq<Path>, PathError>)
    ensures r.Ok? ==> |r.value| == |names|
  {
    if names == [] then Ok([])
    else
      var q :- FromAbsFile(root, EntryPath(bdn, names[0], suffix));
      var rest :- Entries(root, bdn, names[1..], suffix);
      Ok([q] + rest)
  }

  /** Entry `i` of the built list is the `Path` built from the string of name `i`. */
  lemma {:induction false} EntriesAt(root: string, bdn: string, names: seq<string>, suffix: string)
    requires Entries(root, bdn, names, suffix).Ok?
    ensures forall i :: 0 <= i < |names| ==>
              FromAbsFile(root, EntryPath(bdn, names[i], suffix)) == Ok(Entries(root, bdn, names, suffix).value[i])
  {
    if names != [] {
      var tail := names[1..];
      var es := Entries(root, bdn, names, suffix).value;
      var rest := Entries(root, bdn, tail, suffix).value;
      EntriesAt(root, bdn, tail, suffix);
      forall i | 0 <= i < |names|
        ensures FromAbsFile(root, EntryPath(bdn, names[i], suffix)) == Ok(es[i])
      {
        if i > 0 {
          assert names[i] == tail[i - 1] && es[i] == rest[i - 1];
        }
      }
    }
  }

  /** Every entry built is the `Path` of its string, and that string has a URL. */
  lemma EntriesShape(root: string, bdn: string, names: seq<string>, suffix: string)
    requires Entries(root, bdn, names, suffix).Ok?
    ensures forall i :: 0 <= i < |names| ==>
              Entries(root, bdn, names, suffix).value[i] == Path(EntryPath(bdn, names[i], suffix))
              && AsUrl(root, Path(EntryPath(bdn, names[i], suffix))).Ok?
  {
    EntriesAt(root, bdn, names, suffix);
    forall i | 0 <= i < |names|
      ensures Entries(root, bdn, names, suffix).value[i] == Path(EntryPath(bdn, names[i], suffix))
      ensures AsUrl(root, Path(EntryPath(bdn, names[i], suffix))).Ok?
    {
      FromAbsFileShape(root, EntryPath(bdn, names[i], suffix));
    }
  }

  /** The entries of the names are built exactly when the `Path` of every entry can be built. */
  lemma EntriesOk(root: string, bdn: string, names: seq<string>, suffix: string)
    ensures Entries(root, bdn, names, suffix).Ok? <==>
              forall i :: 0 <= i < |names| ==> FromAbsFile(root, EntryPath(bdn, names[i], suffix)).Ok?
  {
    if forall i :: 0 <= i < |names| ==> FromAbsFile(root, EntryPath(bdn, names[i], suffix)).Ok? {
      EntriesOkIf(root, bdn, names, suffix);
    } else if Entries(root, bdn, names, suffix).Ok? {
      EntriesAt(root, bdn, names, suffix);
    }
  }

  lemma {:induction false} EntriesOkIf(root: string, bdn: string, names: seq<string>, suffix: string)
    requires forall i :: 0 <= i < |names| ==> FromAbsFile(root, EntryPath(bdn, names[i], suffix)).Ok?
    ensures Entries(root, bdn, names, suffix).Ok?
  {
    if names != [] {
      var tail := names[1..];
      forall i | 0 <= i < |tail| ensures FromAbsFile(root, EntryPath(bdn, tail[i], suffix)).Ok? {
        assert tail[i] == names[i + 1];
      }
      EntriesOkIf(root, bdn, tail, suffix);
    }
  }

  /** `[q for q in ps if not q.is_hidden]` */
  function Visible(root: string, ps: seq<Path>): (r: seq<Path>)
    ensures forall q :: q in r <==> q in ps && !IsHidden(root, q)
  {
    if ps == [] then []
    else if IsHidden(root, ps[0]) then Visible(root, ps[1..])
    else [ps[0]] + Visible(root, ps[1..])
  }

  /** `list_current_dir` */
  function ListCurrentDir(root: string, p: Path, top: Option<WalkTop>): (r: Result<Listing, ListError>)
    ensures r.Ok? <==>
              top.Some?
              && Entries(root, ListedDir(p), Sort(top.value.dirnames), "/").Ok?
              && Entries(root, ListedDir(p), Sort(top.value.filenames), "").Ok?
    ensures r.Ok? ==> forall q :: q in r.value.dirs ==> !IsHidden(root, q)
    ensures r.Ok? ==> forall q :: q in r.value.files ==> !IsHidden(root, q)
  {
    var bdn := ListedDir(p);
    if top.None? then Err(NoSuchDir)
    else
      match Entries(root, bdn, Sort(top.value.dirnames), "/")
      case Err(e) => Err(EntryError(e))
      case Ok(ds) =>
        match Entries(root, bdn, Sort(top.value.filenames), "")
        case Err(e) => Err(EntryError(e))
        case Ok(fs) => Ok(Listing(Visible(root, ds), Visible(root, fs)))
  }

  /** The names, in order, whose entries of `bdn` are not hidden. */
  function VisibleNames(root: string, bdn: string, names: seq<string>, suffix: string): (r: seq<string>)
    ensures forall n :: n in r <==> n in names && !IsHidden(root, Path(EntryPath(bdn, n, suffix)))
    ensures IsSubseq(r, names)
  {
    if names == [] then []
    else if IsHidden(root, Path(EntryPath(bdn, names[0], suffix))) then VisibleNames(root, bdn, names[1..], suffix)
    else
      var rest := VisibleNames(root, bdn, names[1..], suffix);
      assert ([names[0]] + rest)[1..] == rest;
      [names[0]] + rest
  }

  /** The names of the listed directories, in listing order. */
  function ListedDirNames(root: string, p: Path, top: WalkTop): seq<string> {
    VisibleNames(root, ListedDir(p), Sort(top.dirnames), "/")
  }

  /** The names of the listed files, in listing order. */
  function ListedFileNames(root: string, p: Path, top: WalkTop): seq<string> {
    VisibleNames(root, ListedDir(p), Sort(top.filenames), "")
  }

  /** Filtering the built entries is building the entries of the names that survive the filter. */
  lemma {:induction false} VisibleOfEntries(root: string, bdn: string, names: seq<string>, suffix: string)
    requires Entries(root, bdn, names, suffix).Ok?
    ensures Entries(root, bdn, VisibleNames(root, bdn, names, suffix), suffix)
            == Ok(Visible(root, Entries(root, bdn, names, suffix).value))
  {
    if names != [] {
      var es := Entries(root, bdn, names, suffix).value;
      VisibleOfEntries(root, bdn, names[1..], suffix);
      assert Entries(root, bdn, names[1..], suffix).value == es[1..];
    }
  }

  /** The listing is the entries of the listed names: sub-directories with a trailing separator, files without. */
  lemma ListingEntries(root: string, p: Path, top: WalkTop)
    requires ListCurrentDir(root, p, Some(top)).Ok?
    ensures Entries(root, ListedDir(p), ListedDirNames(root, p, top), "/")
            == Ok(ListCurrentDir(root, p, Some(top)).value.dirs)
    ensures Entries(root, ListedDir(p), ListedFileNames(root, p, top), "")
            == Ok(ListCurrentDir(root, p, Some(top)).value.files)
  {
    VisibleOfEntries(root, ListedDir(p), Sort(top.dirnames), "/");
    VisibleOfEntries(root, ListedDir(p), Sort(top.filenames), "");
  }

  /** Both name lists are in `sorted` order. */
  lemma ListedNamesSorted(root: string, p: Path, top: WalkTop)
    ensures Sorted(ListedDirNames(root, p, top))
    ensures Sorted(ListedFileNames(root, p, top))
  {
    SortedSubseq(ListedDirNames(root, p, top), Sort(top.dirnames));
    SortedSubseq(ListedFileNames(root, p, top), Sort(top.filenames));
  }

  lemma SortSameMembers(names: seq<string>)
    ensures forall n :: n in Sort(names) <==> n in names
  {
    var sorted := Sort(names);
    forall n ensures n in sorted <==> n in names {
      assert n in sorted <==> n in multiset(sorted);
      assert n in names <==> n in multiset(names);
    }
  }

  /** A name is listed exactly when the walk reports it and its entry is not hidden. */
  lemma ListedNamesComplete(root: string, p: Path, top: WalkTop)
    ensures forall n :: n in ListedDirNames(root, p, top) <==>
              n in top.dirnames && !IsHidden(root, Path(EntryPath(ListedDir(p), n, "/")))
    ensures forall n :: n in ListedFileNames(root, p, top) <==>
              n in top.filenames && !IsHidden(root, Path(EntryPath(ListedDir(p), n, "")))
  {
    SortSameMembers(top.dirnames);
    SortSameMembers(top.filenames);
  }

  /** A directory whose entries lie under the root: the root itself, or a path under it with no trailing separator. */
  predicate ListableDir(root: string, bdn: string) {
    bdn == root || (UnderRoot(root, Path(bdn)) && !EndsWith(bdn, '/'))
  }

  /** The directory listed for a path under the root is listable. */
  lemma ListedDirListable(root: string, p: Path)
    requires ValidRoot(root) && UnderRoot(root, p)
    ensures ListableDir(root, ListedDir(p))
  {
    PosixPath.DirnameUnder(root, p.abspath);
    var d := PosixPath.Dirname(p.abspath);
    if d != root {
      assert d == p.abspath[..|d|];
      assert d[..|root| + 1] == p.abspath[..|root| + 1];
    }
  }

  /** A listable directory is a non-empty string that does not end with a separator. */
  lemma ListableDirForm(root: string, bdn: string)
    requires ValidRoot(root) && ListableDir(root, bdn)
    ensures bdn != [] && bdn[|bdn| - 1] != PosixPath.Sep
  {
  }

  /** An entry of a listable directory is the directory, a separator and the name. */
  lemma EntryJoin(root: string, bdn: string, n: string, suffix: string)
    requires ValidRoot(root) && ListableDir(root, bdn) && PosixPath.ValidName(n)
    ensures EntryPath(bdn, n, suffix) == bdn + "/" + n + suffix
  {
    assert n[0] in n;
  }

  /** An entry of a listable directory lies under the root. */
  lemma EntryUnderRoot(root: string, bdn: string, n: string, suffix: string)
    requires ValidRoot(root) && ListableDir(root, bdn) && PosixPath.ValidName(n)
    ensures UnderRoot(root, Path(EntryPath(bdn, n, suffix)))
    ensures bdn == root ==> AsRelativePath(root, Path(EntryPath(bdn, n, suffix))) == n + suffix
    ensures bdn != root ==>
              AsRelativePath(root, Path(EntryPath(bdn, n, suffix))) == bdn[|root| + 1..] + "/" + n + suffix
  {
    EntryJoin(root, bdn, n, suffix);
    assert bdn + "/" + n + suffix == bdn + "/" + (n + suffix);
    BelowListable(root, bdn, n + suffix);
  }

  lemma BelowListable(root: string, bdn: string, rest: string)
    requires ValidRoot(root) && ListableDir(root, bdn)
    ensures UnderRoot(root, Path(bdn + "/" + rest))
    ensures bdn == root ==> AsRelativePath(root, Path(bdn + "/" + rest)) == rest
    ensures bdn != root ==> AsRelativePath(root, Path(bdn + "/" + rest)) == bdn[|root| + 1..] + "/" + rest
  {
    var e := bdn + "/" + rest;
    if bdn != root {
      assert e[..|root| + 1] == bdn[..|root| + 1];
      assert e[|root| + 1..] == bdn[|root| + 1..] + "/" + rest;
    } else {
      assert e[..|root| + 1] == root + "/";
      assert e[|root| + 1..] == rest;
    }
  }

  /** A directory entry `bdn/n/` is a directory named `n` inside `bdn`. */
  lemma DirEntryShape(root: string, bdn: string, n: string)
    requires ValidRoot(root) && ListableDir(root, bdn) && PosixPath.ValidName(n)
    requires AsUrl(root, Path(EntryPath(bdn, n, "/"))).Ok?
    ensures IsDir(Path(EntryPath(bdn, n, "/")))
    ensures Basename(root, Path(EntryPath(bdn, n, "/"))) == Ok(n)
    ensures PosixPath.Dirname(TrimEnd(EntryPath(bdn, n, "/"), PosixPath.SepSet)) == bdn
  {
    ListableDirForm(root, bdn);
    PosixPath.JoinNameParts(bdn, n);
    PosixPath.DirEntryTrim(bdn, n);
    EntryUnderRoot(root, bdn, n, "/");
    BasenameUnderRoot(root, Path(EntryPath(bdn, n, "/")));
  }

  /** A file entry `bdn/n` is a file named `n` inside `bdn`. */
  lemma FileEntryShape(root: string, bdn: string, n: string)
    requires ValidRoot(root) && ListableDir(root, bdn) && PosixPath.ValidName(n)
    ensures !IsDir(Path(EntryPath(bdn, n, "")))
    ensures Basename(root, Path(EntryPath(bdn, n, ""))) == Ok(n)
    ensures PosixPath.Dirname(EntryPath(bdn, n, "")) == bdn
  {
    ListableDirForm(root, bdn);
    PosixPath.JoinNameParts(bdn, n);
    assert EntryPath(bdn, n, "") == PosixPath.Join(bdn, n);
  }

  /** An entry whose name starts with a dot is hidden. */
  lemma DotNameHidden(root: string, bdn: string, n: string, suffix: string)
    requires ValidRoot(root) && ListableDir(root, bdn) && PosixPath.ValidName(n)
    requires StartsWith(n, '.')
    ensures IsHidden(root, Path(EntryPath(bdn, n, suffix)))
  {
    EntryUnderRoot(root, bdn, n, suffix);
    var rel := AsRelativePath(root, Path(EntryPath(bdn, n, suffix)));
    if bdn != root {
      var k := |bdn| - |root|;
      assert rel[k] == '.' && rel[k - 1] == '/';
      assert DotAfterSep(rel);
    }
    SplitDot(rel);
  }

  /** No listed name starts with a dot. */
  lemma ListedNamesNoDot(root: string, p: Path, top: WalkTop)
    requires ValidRoot(root) && UnderRoot(root, p) && AsUrl(root, p).Ok?
    requires ValidWalk(top)
    ensures forall n :: n in ListedDirNames(root, p, top) ==> !StartsWith(n, '.')
    ensures forall n :: n in ListedFileNames(root, p, top) ==> !StartsWith(n, '.')
  {
    var bdn := ListedDir(p);
    ListedDirListable(root, p);
    ListedNamesComplete(root, p, top);
    forall n | n in ListedDirNames(root, p, top) ensures !StartsWith(n, '.') {
      if StartsWith(n, '.') {
        DotNameHidden(root, bdn, n, "/");
      }
    }
    forall n | n in ListedFileNames(root, p, top) ensures !StartsWith(n, '.') {
      if StartsWith(n, '.') {
        DotNameHidden(root, bdn, n, "");
      }
    }
  }

  /** Every listed directory is a dir-form path inside the listed directory whose basename is its name. */
  lemma ListingDirsShape(root: string, p: Path, top: WalkTop)
    requires ValidRoot(root) && UnderRoot(root, p) && AsUrl(root, p).Ok?
    requires ValidWalk(top)
    requires ListCurrentDir(root, p, Some(top)).Ok?
    ensures |ListCurrentDir(root, p, Some(top)).value.dirs| == |ListedDirNames(root, p, top)|
    ensures forall i :: 0 <= i < |ListCurrentDir(root, p, Some(top)).value.dirs| ==>
              IsDir(ListCurrentDir(root, p, Some(top)).value.dirs[i])
              && Basename(root, ListCurrentDir(root, p, Some(top)).value.dirs[i]) == Ok(ListedDirNames(root, p, top)[i])
              && PosixPath.Dirname(TrimEnd(ListCurrentDir(root, p, Some(top)).value.dirs[i].abspath, PosixPath.SepSet))
                 == ListedDir(p)
  {
    var bdn, ns := ListedDir(p), ListedDirNames(root, p, top);
    var ds := ListCurrentDir(root, p, Some(top)).value.dirs;
    ListingEntries(root, p, top);
    EntriesShape(root, bdn, ns, "/");
    ListedDirListable(root, p);
    ListedNamesComplete(root, p, top);
    forall i | 0 <= i < |ds|
      ensures IsDir(ds[i]) && Basename(root, ds[i]) == Ok(ns[i])
      ensures PosixPath.Dirname(TrimEnd(ds[i].abspath, PosixPath.SepSet)) == bdn
    {
      assert ns[i] in ns;
      DirEntryShape(root, bdn, ns[i]);
    }
  }

  /** Every listed file is a file-form path inside the listed directory whose basename is its name. */
  lemma ListingFilesShape(root: string, p: Path, top: WalkTop)
    requires ValidRoot(root) && UnderRoot(root, p) && AsUrl(root, p).Ok?
    requires ValidWalk(top)
    requires ListCurrentDir(root, p, Some(top)).Ok?
    ensures |ListCurrentDir(root, p, Some(top)).value.files| == |ListedFileNames(root, p, top)|
    ensures forall i :: 0 <= i < |ListCurrentDir(root, p, Some(top)).value.files| ==>
              !IsDir(ListCurrentDir(root, p, Some(top)).value.files[i])
              && Basename(root, ListCurrentDir(root, p, Some(top)).value.files[i]) == Ok(ListedFileNames(root, p, top)[i])
              && PosixPath.Dirname(ListCurrentDir(root, p, Some(top)).value.files[i].abspath) == ListedDir(p)
  {
    var bdn, ns := ListedDir(p), ListedFileNames(root, p, top);
    var fs := ListCurrentDir(root, p, Some(top)).value.files;
    ListingEntries(root, p, top);
    EntriesShape(root, bdn, ns, "");
    ListedDirListable(root, p);
    ListedNamesComplete(root, p, top);
    forall i | 0 <= i < |fs|
      ensures !IsDir(fs[i]) && Basename(root, fs[i]) == Ok(ns[i])
      ensures PosixPath.Dirname(fs[i].abspath) == bdn
    {
      assert ns[i] in ns;
      FileEntryShape(root, bdn, ns[i]);
    }
  }
}
