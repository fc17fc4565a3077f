/**
 * The few Python 2.7 string operations the editor relies on: `startswith`,
 * `endswith`, `in`, `lstrip`/`rstrip` with a character set, `strip()`,
 * `split` on one character, and the ordering `sorted` uses.
 */
module PyStr {

  predicate StartsWith(s: string, c: char) {
    |s| > 0 && s[0] == c
  }

  predicate EndsWith(s: string, c: char) {
    |s| > 0 && s[|s| - 1] == c
  }

  /** `t` occurs in `s` starting at index `i`. */
  predicate OccursAt(s: string, t: string, i: int) {
    0 <= i <= |s| - |t| && s[i..i + |t|] == t
  }

  /** Python's `t in s` on strings: `t` occurs in `s` as a contiguous block. */
  predicate Contains(s: string, t: string) {
    exists i | 0 <= i <= |s| - |t| :: OccursAt(s, t, i)
  }

  lemma ContainsAt(s: string, t: string, i: int)
    requires OccursAt(s, t, i)
    ensures Contains(s, t)
  {
  }

  /** A string cannot contain a pattern one of whose characters it lacks. */
  lemma NotContainsMissingChar(s: string, t: string, k: int)
    requires 0 <= k < |t| && t[k] !in s
    ensures !Contains(s, t)
  {
    forall i | 0 <= i <= |s| - |t| ensures !OccursAt(s, t, i) {
      assert s[i + k] in s;
    }
  }

  /** An occurrence inside a prefix is an occurrence in the whole string. */
  lemma ContainsInPrefix(s: string, k: nat, t: string)
    requires k <= |s| && Contains(s[..k], t)
    ensures Contains(s, t)
  {
    var i :| 0 <= i <= k - |t| && OccursAt(s[..k], t, i);
    assert s[i..i + |t|] == s[..k][i..i + |t|];
    ContainsAt(s, t, i);
  }

  /**
   * Appending a character that `t` does not end with cannot create an
   * occurrence of a non-empty `t`.
   */
  lemma ContainsAppend(s: string, c: char, t: string)
    requires |t| > 0 && t[|t| - 1] != c
    requires Contains(s + [c], t)
    ensures Contains(s, t)
  {
    var i :| 0 <= i <= |s| + 1 - |t| && OccursAt(s + [c], t, i);
    if i + |t| == |s| + 1 {
      assert false;
    }
    assert s[i..i + |t|] == (s + [c])[i..i + |t|];
    ContainsAt(s, t, i);
  }

  /** The index of the first character at or after `i` that is not in `cs`, or `|s|`. */
  function SkipFrom(s: string, cs: set<char>, i: nat): (j: nat)
    requires i <= |s|
    ensures i <= j <= |s|
    ensures forall k :: i <= k < j ==> s[k] in cs
    ensures j == |s| || s[j] !in cs
    decreases |s| - i
  {
    if i < |s| && s[i] in cs then SkipFrom(s, cs, i + 1) else i
  }

  /** The index just past the last character before `j` that is not in `cs`, or 0. */
  function KeepTo(s: string, cs: set<char>, j: nat): (i: nat)
    requires j <= |s|
    ensures i <= j
    ensures forall k :: i <= k < j ==> s[k] in cs
    ensures i == 0 || s[i - 1] !in cs
  {
    if j > 0 && s[j - 1] in cs then KeepTo(s, cs, j - 1) else j
  }

  /** Python's `s.lstrip(cs)`: drop every leading character that is in `cs`. */
  function TrimStart(s: string, cs: set<char>): (r: string)
    ensures |r| <= |s| && r == s[|s| - |r|..]
    ensures forall k :: 0 <= k < |s| - |r| ==> s[k] in cs
    ensures r == [] || r[0] !in cs
  {
    s[SkipFrom(s, cs, 0)..]
  }

  /** `lstrip` removes exactly a leading run of characters from `cs`. */
  lemma TrimStartPrefix(p: string, s: string, cs: set<char>)
    requires forall k :: 0 <= k < |p| ==> p[k] in cs
    requires s == [] || s[0] !in cs
    ensures TrimStart(p + s, cs) == s
  {
    var x := p + s;
    assert forall k :: 0 <= k < |p| ==> x[k] == p[k];
    assert s != [] ==> x[|p|] == s[0];
    assert SkipFrom(x, cs, 0) == |p|;
    assert x[|p|..] == s;
  }

  /** Python's `s.rstrip(cs)`: drop every trailing character that is in `cs`. */
  function TrimEnd(s: string, cs: set<char>): (r: string)
    ensures |r| <= |s| && r == s[..|r|]
    ensures forall k :: |r| <= k < |s| ==> s[k] in cs
    ensures r == [] || r[|r| - 1] !in cs
  {
    s[..KeepTo(s, cs, |s|)]
  }

  /** The characters Python 2.7's byte-string `strip()` removes. */
  const Whitespace: set<char> := {' ', '\t', '\n', '\r', '\U{000B}', '\U{000C}'}

  /** `s` is `r` found at index `i` with only characters from `cs` before and after it. */
  predicate PaddedAt(s: string, r: string, i: int, cs: set<char>) {
    && OccursAt(s, r, i)
    && (forall k :: 0 <= k < i ==> s[k] in cs)
    && (forall k :: i + |r| <= k < |s| ==> s[k] in cs)
  }

  /** Python's `s.strip()`: `s` is `r` with only whitespace around it. */
  function Strip(s: string): (r: string)
    ensures exists i :: PaddedAt(s, r, i, Whitespace)
    ensures r == [] || (r[0] !in Whitespace && r[|r| - 1] !in Whitespace)
  {
    TrimBothPadded(s, Whitespace);
    TrimEnd(TrimStart(s, Whitespace), Whitespace)
  }

  lemma TrimBothPadded(s: string, cs: set<char>)
    ensures PaddedAt(s, TrimEnd(TrimStart(s, cs), cs), |s| - |TrimStart(s, cs)|, cs)
  {
    var a := SkipFrom(s, cs, 0);
    var t := s[a..];
    var m := KeepTo(t, cs, |t|);
    assert t[..m] == s[a..a + m];
    forall k | a + m <= k < |s| ensures s[k] in cs {
      assert s[k] == t[k - a];
    }
  }

  /** A string with no whitespace at either end is its own `strip()`. */
  lemma {:induction false} StripUnchanged(s: string)
    requires s == [] || (s[0] !in Whitespace && s[|s| - 1] !in Whitespace)
    ensures Strip(s) == s
  {
  }

  lemma {:induction false} StripIdempotent(s: string)
    ensures Strip(Strip(s)) == Strip(s)
  {
    StripUnchanged(Strip(s));
  }

  /** Python's `s.split(c)`: the pieces between occurrences of `c`. */
  function Split(s: string, c: char): (r: seq<string>)
    ensures |r| >= 1
    ensures forall i :: 0 <= i < |r| ==> c !in r[i]
  {
    if |s| == 0 then [""]
    else
      var rest := Split(s[1..], c);
      if s[0] == c then [""] + rest else [[s[0]] + rest[0]] + rest[1..]
  }

  /** Python's `c.join(parts)`. */
  function JoinWith(parts: seq<string>, c: char): string
    requires |parts| >= 1
  {
    if |parts| == 1 then parts[0] else parts[0] + [c] + JoinWith(parts[1..], c)
  }

  lemma JoinTwo(x: string, y: string, c: char)
    ensures JoinWith([x, y], c) == x + [c] + y
  {
    assert [x, y][1..] == [y];
  }

  lemma JoinThree(x: string, y: string, z: string, c: char)
    ensures JoinWith([x, y, z], c) == x + [c] + y + [c] + z
  {
    assert [x, y, z][1..] == [y, z];
    JoinTwo(y, z, c);
  }

  /** Joining the pieces of a split with the same separator gives back the string. */
  lemma {:induction false} JoinSplit(s: string, c: char)
    ensures JoinWith(Split(s, c), c) == s
  {
    if |s| > 0 {
      var rest := Split(s[1..], c);
      JoinSplit(s[1..], c);
      if s[0] == c {
        assert Split(s, c)[1..] == rest;
      } else {
        var r := Split(s, c);
        if |rest| == 1 {
          assert r == [[s[0]] + rest[0]];
        } else {
          assert r[1..] == rest[1..];
          assert JoinWith(r, c) == [s[0]] + rest[0] + [c] + JoinWith(rest[1..], c);
        }
        assert JoinWith(r, c) == [s[0]] + JoinWith(rest, c);
      }
    }
  }

  /** The last piece of a split is empty exactly when the string is empty or ends with the separator. */
  lemma {:induction false} SplitLastEmpty(s: string, c: char)
    ensures Split(s, c)[|Split(s, c)| - 1] == [] <==> (s == [] || EndsWith(s, c))
  {
    if |s| > 0 {
      var rest := s[1..];
      var t := Split(rest, c);
      SplitLastEmpty(rest, c);
      if s[0] != c && |t| == 1 {
        JoinSplit(rest, c);
        assert rest == t[0];
      }
    }
  }

  /** Splitting a join of separator-free pieces gives back the pieces. */
  lemma {:induction false} SplitJoin(parts: seq<string>, c: char)
    requires |parts| >= 1
    requires forall i :: 0 <= i < |parts| ==> c !in parts[i]
    ensures Split(JoinWith(parts, c), c) == parts
  {
    if |parts| == 1 {
      SplitPiece(parts[0], c);
    } else {
      SplitJoin(parts[1..], c);
      SplitPrefix(parts[0], JoinWith(parts[1..], c), c);
      assert parts == [parts[0]] + parts[1..];
    }
  }

  lemma {:induction false} SplitPiece(w: string, c: char)
    requires c !in w
    ensures Split(w, c) == [w]
  {
    if |w| > 0 {
      SplitPiece(w[1..], c);
      assert [w[0]] + w[1..] == w;
    }
  }

  lemma {:induction false} SplitPrefix(w: string, rest: string, c: char)
    requires c !in w
    ensures Split(w + [c] + rest, c) == [w] + Split(rest, c)
  {
    if |w| == 0 {
      assert w + [c] + rest == [c] + rest;
      assert ([c] + rest)[1..] == rest;
    } else {
      SplitPrefix(w[1..], rest, c);
      assert (w + [c] + rest)[1..] == w[1..] + [c] + rest;
      assert [w[0]] + w[1..] == w;
    }
  }

  /** Python's ordering of strings: lexicographic by character code. */
  predicate LexLe(a: string, b: string) {
    if a == [] then true
    else if b == [] then false
    else if a[0] != b[0] then a[0] < b[0]
    else LexLe(a[1..], b[1..])
  }

  lemma {:induction false} LexLeTotal(a: string, b: string)
    ensures LexLe(a, b) || LexLe(b, a)
  {
    if a != [] && b != [] && a[0] == b[0] {
      LexLeTotal(a[1..], b[1..]);
    }
  }

  lemma {:induction false} LexLeTransitive(a: string, b: string, c: string)
    requires LexLe(a, b) && LexLe(b, c)
    ensures LexLe(a, c)
  {
    if a != [] && b != [] && c != [] && a[0] == b[0] == c[0] {
      LexLeTransitive(a[1..], b[1..], c[1..]);
    }
  }

  lemma {:induction false} LexLeAntisymmetric(a: string, b: string)
    requires LexLe(a, b) && LexLe(b, a)
    ensures a == b
  {
    if a != [] && b != [] {
      LexLeAntisymmetric(a[1..], b[1..]);
      assert a == [a[0]] + a[1..] && b == [b[0]] + b[1..];
    }
  }

  predicate Sorted(s: seq<string>) {
    forall i, j :: 0 <= i < j < |s| ==> LexLe(s[i], s[j])
  }

  function Insert(x: string, s: seq<string>): (r: seq<string>)
    requires Sorted(s)
    ensures Sorted(r)
    ensures multiset(r) == multiset(s) + multiset{x}
  {
    if s == [] then [x]
    else if LexLe(x, s[0]) then
      InsertFront(x, s);
      [x] + s
    else
      var t := Insert(x, s[1..]);
      LexLeTotal(x, s[0]);
      InsertBehind(s[0], x, s[1..], t);
      assert s == [s[0]] + s[1..];
      [s[0]] + t
  }

  lemma InsertFront(x: string, s: seq<string>)
    requires Sorted(s) && s != [] && LexLe(x, s[0])
    ensures Sorted([x] + s)
  {
    var r := [x] + s;
    forall i, j | 0 <= i < j < |r| ensures LexLe(r[i], r[j]) {
      if i == 0 && j > 1 {
        LexLeTransitive(x, s[0], s[j - 1]);
      }
    }
  }

  lemma InsertBehind(h: string, x: string, s: seq<string>, t: seq<string>)
    requires Sorted([h] + s) && Sorted(t) && LexLe(h, x)
    requires multiset(t) == multiset(s) + multiset{x}
    ensures Sorted([h] + t)
  {
    var r := [h] + t;
    forall i, j | 0 <= i < j < |r| ensures LexLe(r[i], r[j]) {
      if i == 0 {
        var y := t[j - 1];
        assert y in multiset(t);
        if y != x {
          assert y in multiset(s);
          var k :| 0 <= k < |s| && s[k] == y;
          assert ([h] + s)[0] == h && ([h] + s)[k + 1] == y;
        }
      } else {
        assert r[i] == t[i - 1] && r[j] == t[j - 1];
      }
    }
  }

  /** `r` is `s` with some elements left out, the rest kept in order. */
  predicate IsSubseq(r: seq<string>, s: seq<string>)
    decreases |s|
  {
    r == [] || (s != [] && ((r[0] == s[0] && IsSubseq(r[1..], s[1..])) || IsSubseq(r, s[1..])))
  }

  lemma {:induction false} SubseqMembers(r: seq<string>, s: seq<string>)
    requires IsSubseq(r, s)
    ensures forall x :: x in r ==> x in s
    decreases |s|
  {
    if r != [] {
      if r[0] == s[0] && IsSubseq(r[1..], s[1..]) {
        SubseqMembers(r[1..], s[1..]);
        forall x | x in r ensures x in s {
          if x == r[0] {
            assert s[0] in s;
          } else {
            var k :| 0 <= k < |r| && r[k] == x;
            assert r[1..][k - 1] == x;
            assert x in s[1..];
            var m :| 0 <= m < |s| - 1 && s[1..][m] == x;
            assert s[m + 1] == x;
          }
        }
      } else {
        SubseqMembers(r, s[1..]);
      }
    }
  }

  /** Leaving elements out of a sorted list keeps it sorted. */
  lemma {:induction false} SortedSubseq(r: seq<string>, s: seq<string>)
    requires Sorted(s) && IsSubseq(r, s)
    ensures Sorted(r)
    decreases |s|
  {
    if r != [] {
      var t := s[1..];
      assert Sorted(t) by {
        forall i, j | 0 <= i < j < |t| ensures LexLe(t[i], t[j]) {
          assert t[i] == s[i + 1] && t[j] == s[j + 1];
        }
      }
      if r[0] == s[0] && IsSubseq(r[1..], t) {
        SortedSubseq(r[1..], t);
        SubseqMembers(r[1..], t);
        forall i, j | 0 <= i < j < |r| ensures LexLe(r[i], r[j]) {
          assert r[j] == r[1..][j - 1] && r[j] in r[1..];
          var k :| 0 <= k < |t| && t[k] == r[j];
          assert s[k + 1] == r[j];
          if i > 0 {
            assert r[i] == r[1..][i - 1];
          }
        }
      } else {
        SortedSubseq(r, t);
      }
    }
  }

  /** Python's `sorted` on a list of strings (an insertion sort). */
  function Sort(s: seq<string>): (r: seq<string>)
    ensures Sorted(r)
    ensures multiset(r) == multiset(s)
  {
    if s == [] then []
    else
      assert s == [s[0]] + s[1..];
      Insert(s[0], Sort(s[1..]))
  }
}
