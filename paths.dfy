/**
 * The two `os.path` functions the rename workflow uses, with POSIX
 * semantics (`posixpath`): `join(a, b)` and the extension half of `splitext(p)`.
 */
module Paths {

  /** `s.rfind(c)`: the index of the last `c` in `s`, or -1 when there is none. */
  function LastIndex(s: string, c: char): (i: int)
    ensures -1 <= i < |s|
    ensures i >= 0 ==> s[i] == c
    ensures forall j :: i < j < |s| ==> s[j] != c
  {
    if s == [] then -1
    else if s[|s| - 1] == c then |s| - 1
    else LastIndex(s[..|s| - 1], c)
  }

  /** The position of a `c` with no `c` after it is the one `rfind` reports. */
  lemma LastIndexAt(s: string, c: char, i: nat)
    requires i < |s| && s[i] == c
    requires forall j :: i < j < |s| ==> s[j] != c
    ensures LastIndex(s, c) == i
  {
  }

  /** `os.path.join(a, b)`: an absolute `b` wins; otherwise one `/` separates the parts. */
  function Join(a: string, b: string): (p: string)
  {
    if |b| > 0 && b[0] == '/' then b
    else if a == [] || a[|a| - 1] == '/' then a + b
    else a + "/" + b
  }

  /** The part of `p` after its last `/`, which is the part `Join` appended. */
  lemma JoinEndsWithName(a: string, b: string)
    requires forall i :: 0 <= i < |b| ==> b[i] != '/'
    ensures Join(a, b)[|Join(a, b)| - |b|..] == b
    ensures LastIndex(Join(a, b), '/') < |Join(a, b)| - |b|
  {
    var p := Join(a, b);
    assert p[|p| - |b|..] == b;
  }

  /**
   * The extension `os.path.splitext(p)` returns: from the last `.` on,
   * provided that dot comes after the last `/` and the file name before it
   * is not made of dots only; otherwise the empty string.
   */
  function SplitExt(p: string): (ext: string)
    ensures |ext| <= |p| && ext == p[|p| - |ext|..]
    ensures ext != [] ==> ext[0] == '.'
    ensures forall i :: 0 < i < |ext| ==> ext[i] != '.' && ext[i] != '/'
    ensures ext != [] <==>
      && LastIndex(p, '.') > LastIndex(p, '/')
      && exists k :: LastIndex(p, '/') + 1 <= k < LastIndex(p, '.') && p[k] != '.'
    ensures ext != [] ==> |p| - |ext| == LastIndex(p, '.')
  {
    var sep := LastIndex(p, '/');
    var dot := LastIndex(p, '.');
    if dot > sep && exists k :: sep + 1 <= k < dot && p[k] != '.' then p[dot..] else []
  }

  /**
   * Renaming to `base + ext` inside a folder keeps `ext` as the extension
   * `splitext` sees, as long as `base` is a plain file name that is not all dots.
   */
  lemma SplitExtOfJoin(folder: string, base: string, ext: string)
    requires forall i :: 0 <= i < |base| ==> base[i] != '/'
    requires exists k :: 0 <= k < |base| && base[k] != '.'
    requires ext != [] && ext[0] == '.'
    requires forall i :: 0 < i < |ext| ==> ext[i] != '.' && ext[i] != '/'
    ensures SplitExt(Join(folder, base + ext)) == ext
  {
    var b := base + ext;
    assert forall i :: 0 <= i < |b| ==> b[i] != '/' by {
      forall i | 0 <= i < |b| ensures b[i] != '/' {
        if i >= |base| { assert b[i] == ext[i - |base|]; }
      }
    }
    var p := Join(folder, b);
    JoinEndsWithName(folder, b);
    var start := |p| - |b|;
    var dotAt := |p| - |ext|;
    assert p[dotAt] == b[|base|] == '.';
    assert p[dotAt..] == ext by {
      assert p[start..] == b;
      assert b[|base|..] == ext;
    }
    forall j | dotAt < j < |p| ensures p[j] != '.' {
      assert p[j] == ext[j - dotAt];
    }
    LastIndexAt(p, '.', dotAt);
    var k :| 0 <= k < |base| && base[k] != '.';
    assert p[start + k] == b[k] == base[k];
    var sep := LastIndex(p, '/');
    assert sep + 1 <= start + k < dotAt && p[start + k] != '.';
    assert SplitExt(p) == p[dotAt..];
  }
}
