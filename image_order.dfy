/**
 * `get_image_order_from_docx`: the list of archive paths whose order decides
 * the output ordinals. Its three inputs are the relationship targets that
 * python-docx reports (empty when the document cannot be opened), the text
 * of `word/document.xml` (empty when it cannot be read) and the archive's
 * member names.
 */
module ImageOrder {
  import opened Text
  import EmbedScan

  const WordDir: string := "word/"
  const MediaDir: string := "word/media/"

  /** The relationship tier: each target containing "image", prefixed with `word/`, in the order given. */
  function RelImagePaths(targets: seq<string>): seq<string>
  {
    if targets == [] then []
    else
      var last := targets[|targets| - 1];
      RelImagePaths(targets[..|targets| - 1]) + (if Contains(last, "image") then [WordDir + last] else [])
  }

  /** Each id prefixed with `word/`, in the order given: cutting `word/` off each path gives the ids back. */
  function WordPaths(ids: seq<string>): (paths: seq<string>)
    ensures |paths| == |ids|
    ensures forall k :: 0 <= k < |paths| ==> StartsWith(paths[k], WordDir) && paths[k][|WordDir|..] == ids[k]
  {
    seq(|ids|, k requires 0 <= k < |ids| => WordDir + ids[k])
  }

  /** `[f for f in names if f.startswith('word/media/')]`. */
  function MediaMembers(names: seq<string>): seq<string>
  {
    if names == [] then []
    else
      var last := names[|names| - 1];
      MediaMembers(names[..|names| - 1]) + (if StartsWith(last, MediaDir) then [last] else [])
  }

  /** A path belongs to the relationship tier exactly when it is `word/` plus a target containing "image". */
  lemma {:induction false} RelImagePathsMembers(targets: seq<string>, path: string)
    ensures path in RelImagePaths(targets) <==>
      exists t :: t in targets && Contains(t, "image") && path == WordDir + t
  {
    if targets != [] {
      var init := targets[..|targets| - 1];
      RelImagePathsMembers(init, path);
      assert targets == init + [targets[|targets| - 1]];
    }
  }

  /** `rel_path in media_files`: a member name under `word/media/`. */
  lemma {:induction false} MediaMembersMembers(names: seq<string>, path: string)
    ensures path in MediaMembers(names) <==> path in names && StartsWith(path, MediaDir)
  {
    if names != [] {
      var init := names[..|names| - 1];
      MediaMembersMembers(init, path);
      assert names == init + [names[|names| - 1]];
    }
  }

  // ----- Python's sorted() on strings: lexicographic by code point -----

  /** Python's `a <= b` on strings. */
  predicate LexLe(a: string, b: string)
    decreases |a|
  {
    a == [] || (b != [] && (a[0] < b[0] || (a[0] == b[0] && LexLe(a[1..], b[1..]))))
  }

  lemma {:induction false} LexLeTotal(a: string, b: string)
    ensures LexLe(a, b) || LexLe(b, a)
    decreases |a|
  {
    if a != [] && b != [] && a[0] == b[0] {
      LexLeTotal(a[1..], b[1..]);
    }
  }

  lemma {:induction false} LexLeTransitive(a: string, b: string, c: string)
    requires LexLe(a, b) && LexLe(b, c)
    ensures LexLe(a, c)
    decreases |a|
  {
    if a != [] && a[0] == b[0] && b[0] == c[0] {
      LexLeTransitive(a[1..], b[1..], c[1..]);
    }
  }

  predicate LexSorted(s: seq<string>) {
    forall i, j :: 0 <= i < j < |s| ==> LexLe(s[i], s[j])
  }

  /** Insert `x` into the sorted `r` just after the last element not greater than it. */
  function LexInsert(x: string, r: seq<string>): seq<string>
  {
    if r == [] || LexLe(r[|r| - 1], x) then r + [x]
    else LexInsert(x, r[..|r| - 1]) + [r[|r| - 1]]
  }

  /** `sorted(names)`. */
  function LexSort(names: seq<string>): seq<string>
  {
    if names == [] then [] else LexInsert(names[|names| - 1], LexSort(names[..|names| - 1]))
  }

  lemma {:induction false} LexInsertSorted(x: string, r: seq<string>)
    requires LexSorted(r)
    ensures LexSorted(LexInsert(x, r))
    ensures forall i :: 0 <= i < |LexInsert(x, r)| ==> LexInsert(x, r)[i] == x || LexInsert(x, r)[i] in r
  {
    if r == [] || LexLe(r[|r| - 1], x) {
      var t := r + [x];
      forall i, j | 0 <= i < j < |t| ensures LexLe(t[i], t[j]) {
        if j == |r| {
          if i < |r| - 1 {
            LexLeTransitive(r[i], r[|r| - 1], x);
          }
        } else {
          assert t[i] == r[i] && t[j] == r[j];
        }
      }
    } else {
      var init := r[..|r| - 1];
      var last := r[|r| - 1];
      LexInsertSorted(x, init);
      var u := LexInsert(x, init);
      LexLeTotal(x, last);
      forall i | 0 <= i < |u| ensures LexLe(u[i], last) {
        if u[i] != x {
          var j :| 0 <= j < |init| && init[j] == u[i];
          assert r[j] == u[i];
        }
      }
      var t := u + [last];
      forall i, j | 0 <= i < j < |t| ensures LexLe(t[i], t[j]) {
        if j < |u| {
          assert t[i] == u[i] && t[j] == u[j];
        }
      }
    }
  }

  lemma {:induction false} LexInsertPermutes(x: string, r: seq<string>)
    ensures multiset(LexInsert(x, r)) == multiset(r) + multiset{x}
  {
    if r != [] && !LexLe(r[|r| - 1], x) {
      var init := r[..|r| - 1];
      assert r == init + [r[|r| - 1]];
      LexInsertPermutes(x, init);
    }
  }

  /** `sorted` returns its input rearranged into ascending order. */
  lemma {:induction false} LexSortCorrect(names: seq<string>)
    ensures LexSorted(LexSort(names))
    ensures multiset(LexSort(names)) == multiset(names)
  {
    if names != [] {
      var init := names[..|names| - 1];
      LexSortCorrect(init);
      LexInsertSorted(names[|names| - 1], LexSort(init));
      LexInsertPermutes(names[|names| - 1], LexSort(init));
      assert names == init + [names[|names| - 1]];
    }
  }

  // ----- The order itself -----

  /** The two reference tiers, concatenated without removing duplicates. */
  function Tiers(targets: seq<string>, xml: string): seq<string> {
    RelImagePaths(targets) + WordPaths(EmbedScan.EmbedIds(xml))
  }

  /** The order `get_image_order_from_docx` returns. */
  function ResolvedOrder(targets: seq<string>, xml: string, names: seq<string>): seq<string> {
    if Tiers(targets, xml) != [] then Tiers(targets, xml) else LexSort(MediaMembers(names))
  }

  /**
   * `get_image_order_from_docx`, with its two appending loops: first every
   * relationship target mentioning "image", then every `r:embed` id, each
   * prefixed with `word/`; only if both add nothing, the sorted media members.
   */
  method GetImageOrder(targets: seq<string>, xml: string, names: seq<string>) returns (order: seq<string>)
    ensures order == ResolvedOrder(targets, xml, names)
  {
    order := [];
    var i := 0;
    while i < |targets|
      invariant 0 <= i <= |targets|
      invariant order == RelImagePaths(targets[..i])
    {
      assert targets[..i + 1][..i] == targets[..i];
      if Contains(targets[i], "image") {
        order := order + [WordDir + targets[i]];
      }
      i := i + 1;
    }
    assert targets[..i] == targets;
    var refs := EmbedScan.EmbedIds(xml);
    var j := 0;
    while j < |refs|
      invariant 0 <= j <= |refs|
      invariant order == RelImagePaths(targets) + WordPaths(refs[..j])
    {
      order := order + [WordDir + refs[j]];
      j := j + 1;
    }
    assert refs[..j] == refs;
    if order == [] {
      order := LexSort(MediaMembers(names));
    }
  }

  /**
   * The order is the relationship tier followed by the `r:embed` tier, with
   * duplicates kept, whenever either tier found something; the sorted
   * `word/media/` members are used exactly when both found nothing.
   */
  lemma ImageOrderTiers(targets: seq<string>, xml: string, names: seq<string>)
    ensures var order := ResolvedOrder(targets, xml, names);
      && |RelImagePaths(targets)| + |EmbedScan.EmbedIds(xml)| > 0 ==>
           order[..|RelImagePaths(targets)|] == RelImagePaths(targets)
           && order[|RelImagePaths(targets)|..] == WordPaths(EmbedScan.EmbedIds(xml))
    ensures var order := ResolvedOrder(targets, xml, names);
      |RelImagePaths(targets)| + |EmbedScan.EmbedIds(xml)| == 0 ==>
        LexSorted(order) && multiset(order) == multiset(MediaMembers(names))
  {
    LexSortCorrect(MediaMembers(names));
  }

  /**
   * An entry of the `r:embed` tier is `word/` plus a relationship id; unless
   * that id itself starts with `media/` it is never a media member, so
   * extraction skips it.
   */
  lemma EmbedPathNotMedia(id: string, names: seq<string>)
    requires !StartsWith(id, "media/")
    ensures WordDir + id !in MediaMembers(names)
  {
    MediaMembersMembers(names, WordDir + id);
    UnderMediaDir(id);
  }

  lemma UnderMediaDir(id: string)
    ensures StartsWith(WordDir + id, MediaDir) ==> StartsWith(id, "media/")
  {
    if StartsWith(WordDir + id, MediaDir) {
      assert id[..6] == (WordDir + id)[5..11] == MediaDir[5..11];
    }
  }
}
