# Shoebill path resolver and request checks, in Dafny

Shoebill is a small web editor for the content directory of a Pelican or
Nikola site. Its one piece of real logic is the `Path` value object of
`shoebill/__init__.py`. A `Path` maps a URL-relative path onto an absolute
path under the content root, and classifies it: directory or file form,
hidden or visible. It also gives the path's parent, its name and a listing
of its directory. Three request handlers use it to decide what a request
may do:

- `route_edit` shows a file or a directory;
- `route_post_save` writes a file, stages it and commits it;
- `route_run_make_target` checks a build target against an allow-list.

This project models those pieces and proves what they promise.

- `pystr.dfy` (`PyStr`): the Python 2.7 string operations the code uses.
  These are `startswith`, `endswith`, `in`, `lstrip`/`rstrip` with a
  character set, `strip()`, `split`/`join` on one character, and the
  ordering and insertion sort behind `sorted`.
- `posixpath.dfy` (`PosixPath`): `os.path.join`, `dirname` and
  `basename` as Python's `posixpath` defines them. The package targets
  Linux, so the separator is `/` and the split/join at lines 75 and 117
  is the identity (proved as `PyStr.JoinSplit`).
- `paths.dfy` (`Paths`): the `Path` datatype and its members. The module
  global `content_path` is the parameter `root` of every operation.
- `path_lemmas.dfy` (`PathLemmas`): where a path built from a URL lands,
  the round trips of its URL form, its chunks, when it is hidden, and its
  parent and name. The unit tests' cases are lemmas here.
- `listing.dfy` (`Listing`): `list_current_dir`. The first step of
  `os.walk` is a parameter.
- `handlers.dfy` (`Handlers`): the disk is a `FileSystem` value: the
  real directories and the real files with their text. The repository is
  an optional `Repo` value: the commits made so far. The two answers
  `is_dirty()` gives during a save are parameters of that save.
  `route_edit` and the guards of `route_post_save` are functions. The
  save itself is the method `PostSave` on the class `Site`, which holds
  the disk and the repository it updates; its two halves, the write
  (`Store`) and the commit (`StageAndCommit`), are methods of their own.
  The make-target allow-list is a function.
- `handler_lemmas.dfy` (`HandlerLemmas`): exactly which requests each
  handler turns away. The functional tests' requests are stated here for
  any content root and any disk that match their setup.

Where the source raises, the model returns an error value: `PathError`,
`ListError`, or the `Crash` page of a handler. A `requires` clause only
states what the application itself guarantees: the content root is
`os.path.join(site, "content")`, so it is never empty and never ends with
`/` (`Paths.ValidRoot`).

Three behaviours of the code are easy to misread; the model follows the
code:

- `as_url` does not collapse repeated trailing separators of a directory
  (`PathLemmas.TrailingSeparatorsKept`: `a//` stays `a//`).
- `basedir` does not append a separator. The parent of `a/b/` is the
  file-form path `root/a/b`, and that is why a directory's `basename` is
  its own last name.
- `list_current_dir` lists `dirname` of the absolute path. For a
  directory-form path that is the directory itself; for a file it is the
  directory that holds the file.

## Model

| member | source | states |
|---|---|---|
| `PyStr.TrimStart` | shoebill/__init__.py:74 | `lstrip` removes exactly a maximal leading run of characters from the set; what remains is a suffix that does not start with one |
| `PyStr.TrimEnd` | shoebill/__init__.py:126 | `rstrip` keeps a prefix whose removed tail lies in the set and whose last character is outside it |
| `PyStr.Strip` | shoebill/__init__.py:199-200 | `strip()` gives a part of the input with only whitespace around it in the input, and the result neither starts nor ends with whitespace |
| `PyStr.Split` | shoebill/__init__.py:128-130 | `split` gives at least one piece, and no piece contains the separator |
| `PyStr.JoinSplit` | shoebill/__init__.py:75 | joining the pieces of a split with the same separator gives back the string, so the separator exchange at lines 75 and 117 changes nothing when both separators are `/` |
| `PyStr.SplitJoin` | shoebill/__init__.py:117 | splitting a join of separator-free pieces gives back the pieces |
| `PyStr.SplitLastEmpty` | shoebill/__init__.py:128-130 | the last piece of a split is empty exactly when the string is empty or ends with the separator |
| `PyStr.LexLeTotal` | shoebill/__init__.py:177 | the string ordering `sorted` uses is total |
| `PyStr.LexLeTransitive` | shoebill/__init__.py:177 | that ordering is transitive |
| `PyStr.LexLeAntisymmetric` | shoebill/__init__.py:177 | that ordering is antisymmetric |
| `PyStr.Insert` | shoebill/__init__.py:177 | inserting into a sorted list keeps it sorted and adds exactly the one element |
| `PyStr.Sort` | shoebill/__init__.py:177 | `sorted` returns a sorted permutation of its input |
| `PyStr.SortedSubseq` | shoebill/__init__.py:178 | filtering a sorted list keeps it sorted |
| `PosixPath.Basename` | shoebill/__init__.py:190 | `os.path.basename` is the separator-free tail after the last separator |
| `PosixPath.Dirname` | shoebill/__init__.py:149 | `os.path.dirname` is a prefix that ends before the basename; only separators lie between them; it keeps no trailing separator unless it is all separators; it is empty exactly when there is no separator; a dirname made of separators is the whole separator run before the basename |
| `PosixPath.Join` | shoebill/__init__.py:76 | `os.path.join(a, b)` ends with `b`; it is `b` alone when `b` is absolute, and otherwise starts with `a` and puts a separator before `b`; its length adds one separator exactly when `a` is non-empty and does not already end with one |
| `PosixPath.JoinNameParts` | shoebill/__init__.py:177-180 | a directory entry joined onto its directory has that directory as its dirname and its name as its basename |
| `PosixPath.DirnameUnder` | shoebill/__init__.py:149 | the dirname of a path under `root/` still starts with the root and never ends with a separator; for a directory-form path it is the path without its trailing separators |
| `PosixPath.DirnameOfSeparators` | shoebill/__init__.py:185-188 | a directory-form path whose dirname is again directory-form consists only of separators and is its own dirname |
| `Paths.AsRelativePath` | shoebill/__init__.py:100-108 | the relative path is the suffix of the absolute path left after cutting `len(root) + 1` characters, and empty when the path is no longer than that (the root itself gives `""`); for a path under the root the absolute path is root, `/`, relative path |
| `Paths.AsUrl` | shoebill/__init__.py:110-126 | fails exactly when the root occurs in the relative path (the assertion at 118); otherwise ends with `/` exactly for a directory; a directory's URL form is its relative path exactly when that already ends with `/`, and the relative path plus `/` otherwise; a file has its trailing separators stripped |
| `PathLemmas.IsDirNoName` | shoebill/__init__.py:83-90 | `is_dir` holds exactly when the absolute path is non-empty and has no name after its last separator |
| `Paths.FromRelUrl` | shoebill/__init__.py:71-81 | building from a URL fails only with the assertion that the root is not in the URL; a built path has a URL form that ends with `/` exactly when the path is a directory |
| `Paths.FromAbsFile` | shoebill/__init__.py:71-72 | building from an empty string fails as `None.lstrip` does; from a non-empty one it succeeds exactly when that string has a URL form, and the path is the string itself |
| `Paths.IsHidden` | shoebill/__init__.py:132-142 | a path is hidden exactly when some chunk of its relative path starts with `.` |
| `Paths.Basedir` | shoebill/__init__.py:144-150 | the parent is built exactly when the dirname is non-empty and has a URL form, and it is then the path of the dirname |
| `Paths.Construct` | shoebill/__init__.py:63-81 | never fails with the file/directory consistency assertions of lines 78-81, and every path it builds has a URL form |
| `Paths.UrlChunks` | shoebill/__init__.py:128-130 | the chunks joined with `/` are the relative path, and no chunk contains `/` |
| `Paths.AnyDotChunk` | shoebill/__init__.py:132-142 | the loop of `is_hidden` answers true exactly when some chunk starts with `.` |
| `Paths.Basename` | shoebill/__init__.py:185-190 | a file's name is the `basename` of its absolute path; any name returned has no separator |
| `PathLemmas.FromRelUrlShape` | shoebill/__init__.py:74-76 | a path built from any relative URL is root, `/`, the URL without its leading `/`, so it starts with `root/`; `..` segments are kept, so this is prefix containment only; building fails exactly when the root occurs in that remainder |
| `PathLemmas.IsDirIffTrailingSep` | shoebill/__init__.py:78-90 | a path built from a URL is a directory exactly when the URL is empty or ends with `/`, and its URL form ends with `/` exactly when it is a directory, so the constructor's assertions hold |
| `PathLemmas.AsUrlNeverContainsRoot` | shoebill/__init__.py:116-126 | the URL form never contains the root string |
| `PathLemmas.UrlRoundTrip` | shoebill/__init__.py:101-126 | a URL with no leading `/` and no root in it reads back unchanged from `as_url`, trailing separators included; the empty URL reads back as `/` |
| `PathLemmas.PathRoundTrip` | shoebill/__init__.py:63-126 | rebuilding a path from its URL form gives the same path |
| `PathLemmas.UrlChunksOfRelUrl` | shoebill/__init__.py:128-130 | the chunks of a path built from a URL are the pieces of the URL without its leading `/`; the last chunk is empty exactly for a directory |
| `PathLemmas.SplitDot` | shoebill/__init__.py:138-140 | some piece of a split on `/` starts with `.` exactly when the string starts with `.` or has a `.` right after a `/` |
| `PathLemmas.HiddenIffDotSegment` | shoebill/__init__.py:132-142 | a path built from a URL is hidden exactly when some segment of the URL, leading separators removed, starts with `.` |
| `PathLemmas.FromAbsFileShape` | shoebill/__init__.py:71-72 | a path built from an absolute string is that string unchanged, and it can be built whenever that string is non-empty and has a URL form |
| `PathLemmas.BasedirUnderRoot` | shoebill/__init__.py:144-150 | the parent of a path under the root is the path of its dirname; it still starts with the root and is never directory-form; for a directory it is the path without its trailing separators |
| `PathLemmas.BasenameUnderRoot` | shoebill/__init__.py:185-190 | the name of a path under the root is the basename of the path without trailing separators; a directory's name is the name of its parent |
| `PathLemmas.BasenameRecursionOnlyOnSeparators` | shoebill/__init__.py:185-188 | `basename` recurses without end only on a path made of separators alone, whose parent is itself |
| `PathLemmas.DirExample` | tests/test_basic.py:21-37 | with root `/tmp/foo`, the URL `a/b/` gives `/tmp/foo/a/b/`, a directory whose URL form is `a/b/` |
| `PathLemmas.DirExampleChunks` | tests/test_basic.py:39-40 | the chunks of `a/b/` are `a`, `b` and the empty string |
| `PathLemmas.DirExampleBasename` | tests/test_basic.py:32-33 | the name of `a/b/` is `b` |
| `PathLemmas.FileExample` | tests/test_basic.py:52-59 | the URL `a/b/test.rst` gives `/tmp/foo/a/b/test.rst`, which is not a directory |
| `PathLemmas.FileExampleBasename` | tests/test_basic.py:55-56 | the name of `a/b/test.rst` is `test.rst` |
| `PathLemmas.FileExampleChunks` | tests/test_basic.py:61-62 | the chunks of `a/b/test.rst` are `a`, `b`, `test.rst` |
| `PathLemmas.FileExampleNotHidden` | tests/test_basic.py:64-65 | `a/b/test.rst` is not hidden |
| `PathLemmas.HiddenExample` | tests/test_basic.py:67-68 | the URL `a/.b.rst` gives `/tmp/foo/a/.b.rst` |
| `PathLemmas.HiddenExampleIsHidden` | tests/test_basic.py:67-69 | `a/.b.rst` is hidden |
| `PathLemmas.TraversalExample` | shoebill/__init__.py:74 | the traversal attempt `//etc/passwd` resolves to `/tmp/foo/etc/passwd`, inside the root |
| `PathLemmas.TrailingSeparatorsKept` | shoebill/__init__.py:120-124 | the URL form of the directory `a//` is `a//`: repeated trailing separators are not collapsed |
| `Listing.Entries` | shoebill/__init__.py:177-180 | when every entry path can be built, there is one path per name, in the order of the names |
| `Listing.EntriesOk` | shoebill/__init__.py:177-180 | the entries are built exactly when every single entry path can be built |
| `Listing.EntriesShape` | shoebill/__init__.py:177-180 | every built entry is the path of `join(directory, name)` plus the suffix, and has a URL form |
| `Listing.Visible` | shoebill/__init__.py:178-181 | the filter keeps exactly the entries that are not hidden |
| `Listing.ListCurrentDir` | shoebill/__init__.py:168-183 | the listing exists exactly when the walk yields a first step and every entry can be built; neither list holds a hidden entry |
| `Listing.VisibleNames` | shoebill/__init__.py:177-181 | the names kept are exactly those whose entry is not hidden, in their original order |
| `Listing.ListingEntries` | shoebill/__init__.py:177-181 | the listed directories are the entries of the kept names with `/` appended, and the listed files are the entries of the kept names as they are |
| `Listing.ListedNamesSorted` | shoebill/__init__.py:177-181 | both lists are sorted by name |
| `Listing.ListedNamesComplete` | shoebill/__init__.py:176-181 | a name is listed exactly when the walk reports it and its entry is not hidden |
| `Listing.DotNameHidden` | shoebill/__init__.py:178-181 | an entry whose name starts with `.` is hidden |
| `Listing.ListedNamesNoDot` | shoebill/__init__.py:178-181 | no listed name starts with `.` |
| `Listing.ListingDirsShape` | shoebill/__init__.py:174-178 | every listed directory is directory-form, is named by its name, and lies in the listed directory (`dirname` of the receiver) |
| `Listing.ListingFilesShape` | shoebill/__init__.py:174-181 | every listed file is file-form, is named by its name, and has the listed directory as its dirname |
| `Handlers.IsRealDirTrailingSep` | shoebill/__init__.py:152-158 | `is_real_dir` (`IsRealDir`) ignores a trailing separator: `d/` is a real directory exactly when `d` is |
| `Handlers.RealFileIsNoDir` | shoebill/__init__.py:160-166 | `is_real_file` (`IsRealFile`) never holds for a real directory, nor for any path ending with a separator |
| `Handlers.Write` | shoebill/__init__.py:342-343 | writing sets the file's text, keeps every directory and leaves every other file as it was |
| `Handlers.Edit` | shoebill/__init__.py:269-313 | the editor is shown only for a visible path; for a directory only when it is a real directory, and with empty contents; for a file-form path only when no directory of that name exists, and with the file's text or empty for a new file; every redirect is to a URL ending with `/` |
| `Handlers.SaveGuard` | shoebill/__init__.py:324-336 | a refusal is the not-found page or a crash; a permitted path is the built path, is file-form, names no directory, is not hidden and has a URL form |
| `Handlers.CommitMessage` | shoebill/__init__.py:355 | the message is the stripped description, or `Update ` and the absolute path when that is empty |
| `Handlers.Author` | shoebill/__init__.py:357-360 | the author is the username, ` <`, the e-mail address or nothing, and `>` |
| `Handlers.CommitAuthor` | shoebill/__init__.py:357-364 | a commit has an author exactly when a user is logged in, and it is that user's formatted author string |
| `Handlers.Site.constructor` | shoebill/__init__.py:50-52 | a site holds the given root, disk and optional repository |
| `Handlers.Site.PostSave` | shoebill/__init__.py:316-366 | a refused save changes nothing and answers the guard's page. A permitted save always overwrites the file with the posted text. Without a repository it answers "Saved.". With one, it answers "No changes to be saved!" and adds no commit exactly when the file existed and `is_dirty()` answered false both before and after staging. Otherwise it appends exactly one commit, with the message and author above, and answers "Saved." (or crashes when the form has no `desc` field) |
| `Handlers.Site.Store` | shoebill/__init__.py:324-343 | the guards of the save decide; a refused save leaves the disk as it was; a permitted save overwrites the file with the posted text, and reports whether the file existed before the write |
| `Handlers.Site.StageAndCommit` | shoebill/__init__.py:348-364 | nothing is committed and the answer is "No changes to be saved!" exactly when the file existed and `is_dirty()` answered false both before and after staging, and the log is then unchanged. Otherwise a missing `desc` field is a failure with no commit, and a present one appends exactly one commit with the message and author above |
| `Handlers.MakeTarget` | shoebill/__init__.py:390-403 | a target runs exactly when, stripped, it is `publish` or in the allow-list; it then runs `make` with that target in the site directory, the parent of the content root |
| `HandlerLemmas.ParentOfBuilt` | shoebill/__init__.py:288 | the parent of a path built from a URL can always be built; it is the path of its dirname |
| `HandlerLemmas.EditDecision` | shoebill/__init__.py:281-303 | for a path that can be built, `route_edit` never crashes. It answers not found exactly when the path is directory-form with no directory there, or its parent directory is missing, or it is hidden. Otherwise it redirects to the URL form plus `/` exactly when a file-form path names a directory. Otherwise it shows the editor of that path |
| `HandlerLemmas.EditRefused` | shoebill/__init__.py:284-294 | each of the three checks alone (directory-form with no directory, missing parent, hidden) makes `route_edit` answer not found |
| `HandlerLemmas.SaveDecision` | shoebill/__init__.py:324-336 | for a path that can be built, the save is refused with not found exactly when the path is directory-form, names a real directory, lies in a missing directory or is hidden, and permitted otherwise |
| `HandlerLemmas.SavedPathIsEditable` | shoebill/__init__.py:346-366 | the `route_edit` call that answers a permitted save shows the editor of the saved file with the new text exactly when the URL form does not start with whitespace |
| `HandlerLemmas.EditNewFile` | tests/test_functional.py:95-98 | `GET /edit/hi.rst` for a file that does not exist yet shows an empty editor |
| `HandlerLemmas.EditMissingDir` | tests/test_functional.py:100-104 | `GET /edit/notthere/` for a missing directory answers not found |
| `HandlerLemmas.EditHiddenFile` | tests/test_functional.py:106-109 | `GET /edit/.hidden.rst` answers not found |
| `HandlerLemmas.EditDirWithoutSlash` | tests/test_functional.py:111-114 | `GET /edit/pages` for a directory redirects to `pages/` |
| `HandlerLemmas.SaveMissingDir` | tests/test_functional.py:123-126 | `POST /edit/nothere/hi.rst` in a missing directory answers not found |
| `HandlerLemmas.SaveHiddenFile` | tests/test_functional.py:128-131 | `POST /edit/.hidden.rst` answers not found |
| `HandlerLemmas.SaveNewFile` | tests/test_functional.py:133-136 | `POST /edit/hi.rst` in the content directory is permitted |
| `HandlerLemmas.MakePublish` | tests/test_functional.py:142-155 | `POST /make/publish` with no extra targets runs `make publish` in the site directory |

## Left out

- HTTP routing, the templates, and the rendering of the `error`/`msg` pages are not modelled. A handler's answer is the `Page` datatype. The template variables `git_enabled`, `make_targets` and `aaa_enabled` that `route_edit` passes are not modelled.
- Authentication and sessions are not modelled: `aaa.require` and the login, logout, password and admin routes are calls into an authentication library. The logged-in user is a parameter of the save.
- The Git binding is reduced to a commit log. The working tree and the index are not modelled, so what `is_dirty()` answers before and after `git add` are two parameters of each save rather than derived from the disk.
- Running `make`: the subprocess and its captured output are process I/O. The model stops at the allow-list test and the command it would run. The GET redirect on `/make` is not modelled.
- `gen_random_token` is not modelled: it reads `os.urandom` and base64-encodes the bytes.
- Startup is not modelled: `main`, `parse_args`, `check_site_dir` and `setup_git_repo` parse the command line and check the disk.
- `os.walk`, `os.path.isdir` and `os.path.isfile` are not modelled as calls. The walk's first step is a parameter, and the disk is a set of directories and a map of files. Symbolic links and permissions are not modelled.
- IsRealDir, IsRealFile, Write: the disk is keyed by the path string as written, with only trailing separators ignored by `IsRealDir`. On a POSIX disk `a//b` and `a/b` name the same entry; here they are two keys. So for a URL with a repeated inner separator, `Edit` can show the editor where the program redirects (`os.path.isdir` at line 296 is true), and `Site.PostSave` can write a second key and report a different `already_existing` (line 338) than the program. `.` and `..` segments need no such care: such paths are refused as hidden.
- `Path.__repr__` and `as_abs_path` are not modelled as members: one formats text and the other returns the `abspath` field.
- Windows separators are not modelled: `os.sep` is `/`.
- Concurrent requests are not modelled: each handler call is one step on the site's state.
