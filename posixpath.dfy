/**
 * The part of Python's `os.path` (POSIX flavour, separator '/') that the
 * codec relies on: `splitext`, which splits a path into a root and an
 * extension.
 */
module PosixPath {

  /** i is the position of the last c in s, or -1 when s has no c (`str.rfind`). */
  predicate IsLast(s: string, c: char, i: int) {
    && -1 <= i < |s|
    && (i >= 0 ==> s[i] == c)
    && forall j :: i < j < |s| ==> s[j] != c
  }

  function RFind(s: string, c: char): (i: int)
    ensures IsLast(s, c, i)
  {
    if s == [] then -1
    else if s[|s| - 1] == c then |s| - 1
    else RFind(s[..|s| - 1], c)
  }

  lemma LastUnique(s: string, c: char, i: int, j: int)
    requires IsLast(s, c, i) && IsLast(s, c, j)
    ensures i == j
  {
  }

  /** s has no occurrence of c. */
  predicate Lacks(s: string, c: char) {
    forall k :: 0 <= k < |s| ==> s[k] != c
  }

  /** Every character of s at a position in [lo, hi) is a dot. */
  predicate DotsOnly(s: string, lo: int, hi: int) {
    forall k :: lo <= k < hi && 0 <= k < |s| ==> s[k] == '.'
  }

  /** A non-empty extension: a dot followed by anything but dots and separators. */
  predicate IsExtension(e: string) {
    |e| >= 1 && e[0] == '.' && forall k :: 1 <= k < |e| ==> e[k] != '.' && e[k] != '/'
  }

  /**
   * The final component of root (everything after its last '/') has a
   * character other than a dot, so a dot after it starts an extension.
   */
  predicate HasStem(root: string) {
    !DotsOnly(root, RFind(root, '/') + 1, |root|)
  }

  /**
   * `os.path.splitext(p)`: the extension runs from the last dot of the final
   * component to the end, unless that component has nothing but dots before
   * it (a dotfile such as ".DSB" has no extension).
   */
  function SplitExt(p: string): (r: (string, string))
    ensures r.0 + r.1 == p
    ensures r.1 == "" || IsExtension(r.1)
  {
    var sepIndex := RFind(p, '/');
    var dotIndex := RFind(p, '.');
    if dotIndex > sepIndex && !DotsOnly(p, sepIndex + 1, dotIndex) then
      SuffixFromLastDot(p, sepIndex, dotIndex);
      (p[..dotIndex], p[dotIndex..])
    else
      (p, "")
  }

  lemma SuffixFromLastDot(p: string, sepIndex: int, dotIndex: int)
    requires IsLast(p, '/', sepIndex) && IsLast(p, '.', dotIndex) && dotIndex > sepIndex
    ensures p[..dotIndex] + p[dotIndex..] == p
    ensures IsExtension(p[dotIndex..])
  {
    var e := p[dotIndex..];
    assert forall k :: 0 <= k < |e| ==> e[k] == p[dotIndex + k];
  }

  /** `os.path.splitext(p)[1]`. */
  function Ext(p: string): string {
    SplitExt(p).1
  }

  /** A stem followed by an extension splits back into the two. */
  lemma ExtOfStemAndExtension(root: string, e: string)
    requires HasStem(root) && IsExtension(e)
    ensures SplitExt(root + e) == (root, e)
    ensures Ext(root + e) == e
  {
    var p := root + e;
    var s := RFind(root, '/');
    assert forall k :: 0 <= k < |root| ==> p[k] == root[k];
    assert forall k :: |root| <= k < |p| ==> p[k] == e[k - |root|];
    assert IsLast(p, '/', s);
    LastUnique(p, '/', s, RFind(p, '/'));
    assert IsLast(p, '.', |root|);
    LastUnique(p, '.', |root|, RFind(p, '.'));
    var k :| s + 1 <= k < |root| && 0 <= k && root[k] != '.';
    assert p[k] != '.';
    assert p[..|root|] == root;
    assert p[|root|..] == e;
  }

  /** Conversely, a non-empty extension always follows a stem. */
  lemma ExtHasStem(p: string)
    requires Ext(p) != ""
    ensures IsExtension(Ext(p))
    ensures HasStem(SplitExt(p).0)
  {
    var sepIndex := RFind(p, '/');
    var dotIndex := RFind(p, '.');
    assert dotIndex > sepIndex && !DotsOnly(p, sepIndex + 1, dotIndex);
    var root := p[..dotIndex];
    assert SplitExt(p).0 == root;
    assert forall j :: 0 <= j < |root| ==> root[j] == p[j];
    assert IsLast(root, '/', sepIndex);
    LastUnique(root, '/', sepIndex, RFind(root, '/'));
    var k :| sepIndex + 1 <= k < dotIndex && 0 <= k < |p| && p[k] != '.';
    assert root[k] != '.';
  }

  /** The extension `splitext` finds is exactly a stem-and-extension split. */
  lemma ExtCharacterisation(p: string, e: string)
    requires e != ""
    ensures Ext(p) == e <==> IsExtension(e) && |e| <= |p| && p[|p| - |e|..] == e && HasStem(p[..|p| - |e|])
  {
    if Ext(p) == e {
      ExtHasStem(p);
      var root := SplitExt(p).0;
      assert root + e == p;
      assert |e| <= |p|;
      assert root == p[..|p| - |e|];
      assert p[|p| - |e|..] == e;
    }
    if IsExtension(e) && |e| <= |p| && p[|p| - |e|..] == e && HasStem(p[..|p| - |e|]) {
      assert p == p[..|p| - |e|] + e;
      ExtOfStemAndExtension(p[..|p| - |e|], e);
    }
  }

  /** A name with no separator that does not start with a dot is a stem. */
  lemma PlainNameHasStem(root: string)
    requires Lacks(root, '/') && |root| > 0 && root[0] != '.'
    ensures HasStem(root)
  {
    LastUnique(root, '/', -1, RFind(root, '/'));
  }

  /** A path with no dot at all has no extension. */
  lemma NoDotNoExt(p: string)
    requires Lacks(p, '.')
    ensures Ext(p) == ""
  {
    LastUnique(p, '.', -1, RFind(p, '.'));
  }

  /** A dotfile, a bare dot followed by a would-be extension, has no extension. */
  lemma DotfileNoExt(e: string)
    requires IsExtension(e)
    ensures Ext(e) == ""
  {
    LastUnique(e, '/', -1, RFind(e, '/'));
    LastUnique(e, '.', 0, RFind(e, '.'));
  }

  /** A dot in a directory name does not start an extension of the file under it. */
  lemma DotInDirectoryNoExt(dir: string, name: string)
    requires Lacks(name, '.') && Lacks(name, '/')
    ensures Ext(dir + "/" + name) == ""
  {
    var p := dir + "/" + name;
    assert forall k :: |dir| < k < |p| ==> p[k] == name[k - |dir| - 1];
    assert IsLast(p, '/', |dir|);
    LastUnique(p, '/', |dir|, RFind(p, '/'));
  }
}
