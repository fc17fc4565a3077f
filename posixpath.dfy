/**
 * The three `os.path` functions the editor calls, as Python's `posixpath`
 * defines them on Linux, where the separator is '/'.
 */
module PosixPath {
  import opened PyStr

  const Sep: char := '/'
  const SepSet: set<char> := {'/'}

  predicate AllSeps(s: string) {
    forall k :: 0 <= k < |s| ==> s[k] == Sep
  }

  /** A directory-entry name as a directory walk reports it: non-empty, no separator. */
  predicate ValidName(n: string) {
    n != [] && Sep !in n
  }

  /** `p.rfind('/') + 1`: the index just past the last separator, 0 when there is none. */
  function LastSepEnd(p: string): (i: nat)
    ensures i <= |p|
    ensures i > 0 ==> p[i - 1] == Sep
    ensures forall k :: i <= k < |p| ==> p[k] != Sep
  {
    LastSepBefore(p, |p|)
  }

  /** The index just past the last separator before index `j`, 0 when there is none. */
  function LastSepBefore(p: string, j: nat): (i: nat)
    requires j <= |p|
    ensures i <= j
    ensures i > 0 ==> p[i - 1] == Sep
    ensures forall k :: i <= k < j ==> p[k] != Sep
  {
    if j == 0 then 0
    else if p[j - 1] == Sep then j
    else LastSepBefore(p, j - 1)
  }

  /** `posixpath.basename`: the text after the last separator. */
  function Basename(p: string): (r: string)
    ensures Sep !in r
    ensures |r| <= |p| && r == p[|p| - |r|..]
    ensures |r| < |p| ==> p[|p| - |r| - 1] == Sep
  {
    p[LastSepEnd(p)..]
  }

  /** The basename is the text after a separator that has no separator after it. */
  lemma BasenameAfter(p: string, k: nat)
    requires 0 < k <= |p| && p[k - 1] == Sep && Sep !in p[k..]
    ensures Basename(p) == p[k..]
  {
    assert p[k - 1] == Sep;
    assert forall j :: k <= j < |p| ==> p[j] == p[k..][j - k];
  }

  /**
   * `posixpath.dirname`: everything before the last separator, with the
   * separators that end it removed unless it consists of separators only.
   */
  function Dirname(p: string): (r: string)
    ensures |r| + |Basename(p)| <= |p| && r == p[..|r|]
    ensures forall k :: |r| <= k < |p| - |Basename(p)| ==> p[k] == Sep
    ensures r == [] || AllSeps(r) || r[|r| - 1] != Sep
    ensures r == [] <==> Sep !in p
    ensures AllSeps(r) ==> |r| + |Basename(p)| == |p|
  {
    var head := p[..LastSepEnd(p)];
    if head != [] && !AllSeps(head) then TrimEnd(head, SepSet) else head
  }

  /** `posixpath.join(a, b)`: `b` placed under `a` with one separator between. */
  function Join(a: string, b: string): (r: string)
    ensures |r| >= |b| && r[|r| - |b|..] == b
    ensures StartsWith(b, Sep) ==> r == b
    ensures !StartsWith(b, Sep) ==> |r| >= |a| && r[..|a|] == a
    ensures !StartsWith(b, Sep) && a != [] ==> |r| > |b| && r[|r| - |b| - 1] == Sep
    ensures !StartsWith(b, Sep) && (a == [] || EndsWith(a, Sep)) ==> |r| == |a| + |b|
    ensures !StartsWith(b, Sep) && a != [] && !EndsWith(a, Sep) ==> |r| == |a| + |b| + 1
  {
    if StartsWith(b, Sep) then b
    else if a == [] || EndsWith(a, Sep) then a + b
    else a + [Sep] + b
  }

  /** The dirname of a path that ends with a separator is the path with its trailing separators removed. */
  lemma DirnameOfDirForm(p: string)
    requires EndsWith(p, Sep) && !AllSeps(p)
    ensures Dirname(p) == TrimEnd(p, SepSet)
  {
    assert p[..|p|] == p;
  }

  /** A dirname result that is neither empty nor all separators has no trailing separator to remove. */
  lemma TrimEndOfDirname(d: string)
    requires d == [] || AllSeps(d) || d[|d| - 1] != Sep
    requires !AllSeps(d)
    ensures TrimEnd(d, SepSet) == d
  {
  }

  /** The entry named `n` in directory `d` has `d` as its dirname and `n` as its basename. */
  lemma {:induction false} JoinNameParts(d: string, n: string)
    requires ValidName(n)
    requires d == [] || AllSeps(d) || d[|d| - 1] != Sep
    ensures Dirname(Join(d, n)) == d
    ensures Basename(Join(d, n)) == n
  {
    var j := Join(d, n);
    if d == [] {
      assert j == n;
    } else if EndsWith(d, Sep) {
      assert j == d + n;
      assert LastSepEnd(j) == |d|;
      assert j[..|d|] == d;
    } else {
      assert j == d + [Sep] + n;
      assert LastSepEnd(j) == |d| + 1;
      assert j[..|d| + 1] == d + [Sep];
      assert !AllSeps(d + [Sep]) by { assert (d + [Sep])[|d| - 1] != Sep; }
    }
  }

  /** A directory walk's directory entry `d/n/`: stripping the slash gives the entry `d/n`. */
  lemma DirEntryTrim(d: string, n: string)
    requires ValidName(n)
    ensures TrimEnd(Join(d, n) + [Sep], SepSet) == Join(d, n)
    ensures Dirname(Join(d, n) + [Sep]) == Join(d, n)
  {
    var j := Join(d, n);
    assert (j + [Sep])[..|j|] == j;
    assert j[|j| - 1] == n[|n| - 1];
    assert !AllSeps(j + [Sep]) by { assert (j + [Sep])[|j| - 1] != Sep; }
    DirnameOfDirForm(j + [Sep]);
  }

  /** A dirname that begins a path under `root/` keeps the root and loses its trailing separators. */
  lemma DirnameUnder(root: string, p: string)
    requires root != [] && root[|root| - 1] != Sep
    requires |p| > |root| && p[..|root| + 1] == root + [Sep]
    ensures |Dirname(p)| >= |root| && Dirname(p)[..|root|] == root
    ensures !EndsWith(Dirname(p), Sep)
    ensures EndsWith(p, Sep) ==> Dirname(p) == TrimEnd(p, SepSet)
  {
    DirnameKeepsRoot(root, p);
    if EndsWith(p, Sep) {
      assert !AllSeps(p) by { assert p[|root| - 1] != Sep; }
      DirnameOfDirForm(p);
    }
  }

  lemma DirnameKeepsRoot(root: string, p: string)
    requires root != [] && root[|root| - 1] != Sep
    requires |p| > |root| && p[..|root| + 1] == root + [Sep]
    ensures |Dirname(p)| >= |root| && Dirname(p)[..|root|] == root
    ensures p[|root| - 1] != Sep
  {
    var i := DirnameHead(root, p);
    var h := p[..i];
    TrimEndKeeps(h, |root| - 1);
    assert h[..|root|] == root by {
      assert h[..|root|] == p[..|root| + 1][..|root|];
    }
  }

  lemma DirnameHead(root: string, p: string) returns (i: nat)
    requires root != [] && root[|root| - 1] != Sep
    requires |p| > |root| && p[..|root| + 1] == root + [Sep]
    ensures i == LastSepEnd(p) && |root| < i <= |p|
    ensures p[..i][|root| - 1] != Sep
    ensures Dirname(p) == TrimEnd(p[..i], SepSet)
  {
    i := LastSepEnd(p);
    assert p[|root|] == Sep by { assert p[..|root| + 1][|root|] == Sep; }
    assert p[|root| - 1] == root[|root| - 1] by { assert p[..|root| + 1][|root| - 1] == root[|root| - 1]; }
    assert !AllSeps(p[..i]) by { assert p[..i][|root| - 1] != Sep; }
  }

  /** Trimming trailing separators keeps everything up to a character that is not one. */
  lemma TrimEndKeeps(h: string, k: nat)
    requires k < |h| && h[k] != Sep
    ensures |TrimEnd(h, SepSet)| > k && TrimEnd(h, SepSet)[..k + 1] == h[..k + 1]
  {
  }

  /** A path that does not end with a separator is its own `rstrip('/')`. */
  lemma TrimEndNoSep(s: string)
    requires !EndsWith(s, Sep)
    ensures TrimEnd(s, SepSet) == s
  {
    assert KeepTo(s, SepSet, |s|) == |s|;
    assert s[..|s|] == s;
  }

  /** `rstrip('/')` removes a separator added at the end along with the ones before it. */
  lemma TrimEndSep(s: string)
    ensures TrimEnd(s + [Sep], SepSet) == TrimEnd(s, SepSet)
  {
    var t := s + [Sep];
    var r1, r2 := TrimEnd(t, SepSet), TrimEnd(s, SepSet);
    assert r2 == t[..|r2|];
    assert forall k :: |r2| <= k < |t| ==> t[k] in SepSet;
  }

  /** Adding a separator to a path that does not end with one is undone by `rstrip('/')`. */
  lemma TrimEndAppendSep(s: string)
    requires !EndsWith(s, Sep)
    ensures TrimEnd(s + [Sep], SepSet) == s
  {
    var t := s + [Sep];
    assert KeepTo(t, SepSet, |t|) == KeepTo(t, SepSet, |s|);
    assert s != [] ==> t[|s| - 1] == s[|s| - 1];
    assert KeepTo(t, SepSet, |s|) == |s|;
    assert t[..|s|] == s;
  }

  /** A directory-form path whose dirname is again directory-form consists of separators and is its own dirname. */
  lemma DirnameOfSeparators(p: string)
    requires EndsWith(p, Sep) && EndsWith(Dirname(p), Sep)
    ensures AllSeps(p) && Dirname(p) == p
  {
    assert LastSepEnd(p) == |p|;
    assert p[..|p|] == p;
  }
}
