/**
 * The ordering `load_image_files` puts on a folder listing:
 * `files.sort(key=lambda x: int(''.join(filter(str.isdigit, x)) or '0'))`,
 * a stable sort (`SortBy`, Python's `list.sort(key=...)`) by the number
 * spelled by all the digits of a name (`SortKey`, the lambda).
 */
module FolderSort {
  import opened Decimal

  /** `''.join(filter(str.isdigit, name))`, for ASCII digits. */
  function DigitsOf(name: string): (d: string)
    ensures AllDigits(d) && |d| <= |name|
  {
    if name == [] then []
    else
      var last := name[|name| - 1];
      DigitsOf(name[..|name| - 1]) + (if IsDigit(last) then [last] else [])
  }

  lemma {:induction false} DigitsOfConcat(a: string, b: string)
    ensures DigitsOf(a + b) == DigitsOf(a) + DigitsOf(b)
    decreases |b|
  {
    if b == [] {
      assert a + b == a;
    } else {
      var init := b[..|b| - 1];
      assert (a + b)[..|a + b| - 1] == a + init;
      DigitsOfConcat(a, init);
    }
  }

  /** The digits of a digit string are the string itself; a digit-free string has none. */
  lemma {:induction false} DigitsOfDigits(s: string)
    ensures AllDigits(s) ==> DigitsOf(s) == s
    ensures (forall i :: 0 <= i < |s| ==> !IsDigit(s[i])) ==> DigitsOf(s) == []
  {
    if s != [] {
      DigitsOfDigits(s[..|s| - 1]);
    }
  }

  /** The sort key: `int()` of the digits, and 0 when there are none. */
  function SortKey(name: string): nat {
    ParseDecimal(DigitsOf(name))
  }

  /** Keys never decrease along `s`. */
  predicate KeySorted(s: seq<string>, key: string -> nat) {
    forall i, j :: 0 <= i < j < |s| ==> key(s[i]) <= key(s[j])
  }

  predicate StrictlyKeySorted(s: seq<string>, key: string -> nat) {
    forall i, j :: 0 <= i < j < |s| ==> key(s[i]) < key(s[j])
  }

  /** The names of `s` whose key is `k`, in their order in `s`. */
  function WithKey(s: seq<string>, key: string -> nat, k: nat): seq<string> {
    if s == [] then []
    else
      var last := s[|s| - 1];
      WithKey(s[..|s| - 1], key, k) + (if key(last) == k then [last] else [])
  }

  /** Insert `x` into the key-sorted `r` after every name whose key is not greater. */
  function KeyInsert(x: string, r: seq<string>, key: string -> nat): seq<string> {
    if r == [] || key(r[|r| - 1]) <= key(x) then r + [x]
    else KeyInsert(x, r[..|r| - 1], key) + [r[|r| - 1]]
  }

  /** Python's stable `list.sort(key=key)`, as an insertion sort. */
  function SortBy(s: seq<string>, key: string -> nat): seq<string> {
    if s == [] then [] else KeyInsert(s[|s| - 1], SortBy(s[..|s| - 1], key), key)
  }

  lemma {:induction false} KeyInsertSorted(x: string, r: seq<string>, key: string -> nat)
    requires KeySorted(r, key)
    ensures KeySorted(KeyInsert(x, r, key), key)
    ensures forall i :: 0 <= i < |KeyInsert(x, r, key)| ==> KeyInsert(x, r, key)[i] == x || KeyInsert(x, r, key)[i] in r
  {
    if r != [] && key(x) < key(r[|r| - 1]) {
      var init := r[..|r| - 1];
      var last := r[|r| - 1];
      KeyInsertSorted(x, init, key);
      var u := KeyInsert(x, init, key);
      forall i | 0 <= i < |u| ensures key(u[i]) <= key(last) {
        if u[i] != x {
          var j :| 0 <= j < |init| && init[j] == u[i];
          assert r[j] == u[i];
        }
      }
      var t := u + [last];
      forall i, j | 0 <= i < j < |t| ensures key(t[i]) <= key(t[j]) {
        if j < |u| {
          assert t[i] == u[i] && t[j] == u[j];
        }
      }
    }
  }

  lemma {:induction false} KeyInsertPermutes(x: string, r: seq<string>, key: string -> nat)
    ensures multiset(KeyInsert(x, r, key)) == multiset(r) + multiset{x}
  {
    if r != [] && key(x) < key(r[|r| - 1]) {
      var init := r[..|r| - 1];
      assert r == init + [r[|r| - 1]];
      KeyInsertPermutes(x, init, key);
    }
  }

  lemma {:induction false} KeyInsertStable(x: string, r: seq<string>, key: string -> nat, k: nat)
    ensures WithKey(KeyInsert(x, r, key), key, k) == WithKey(r, key, k) + (if key(x) == k then [x] else [])
  {
    if r == [] || key(r[|r| - 1]) <= key(x) {
      var t := r + [x];
      assert t[..|t| - 1] == r;
    } else {
      var init := r[..|r| - 1];
      var last := r[|r| - 1];
      KeyInsertStable(x, init, key, k);
      var u := KeyInsert(x, init, key);
      var t := u + [last];
      assert t[..|t| - 1] == u;
    }
  }

  lemma {:induction false} SortBySorted(s: seq<string>, key: string -> nat)
    ensures KeySorted(SortBy(s, key), key)
  {
    if s != [] {
      SortBySorted(s[..|s| - 1], key);
      KeyInsertSorted(s[|s| - 1], SortBy(s[..|s| - 1], key), key);
    }
  }

  lemma {:induction false} SortByPermutes(s: seq<string>, key: string -> nat)
    ensures multiset(SortBy(s, key)) == multiset(s)
  {
    if s != [] {
      var init := s[..|s| - 1];
      SortByPermutes(init, key);
      KeyInsertPermutes(s[|s| - 1], SortBy(init, key), key);
      assert s == init + [s[|s| - 1]];
    }
  }

  lemma {:induction false} SortByStable(s: seq<string>, key: string -> nat, k: nat)
    ensures WithKey(SortBy(s, key), key, k) == WithKey(s, key, k)
  {
    if s != [] {
      var init := s[..|s| - 1];
      SortByStable(init, key, k);
      KeyInsertStable(s[|s| - 1], SortBy(init, key), key, k);
    }
  }

  /**
   * The sort returns its input rearranged so that keys never decrease, and
   * it is stable: the names sharing any one key keep their listing order.
   */
  lemma SortByCorrect(s: seq<string>, key: string -> nat)
    ensures KeySorted(SortBy(s, key), key)
    ensures multiset(SortBy(s, key)) == multiset(s)
    ensures forall k :: WithKey(SortBy(s, key), key, k) == WithKey(s, key, k)
  {
    SortBySorted(s, key);
    SortByPermutes(s, key);
    forall k ensures WithKey(SortBy(s, key), key, k) == WithKey(s, key, k) {
      SortByStable(s, key, k);
    }
  }

  /** The last elements of two such arrangements agree. */
  lemma SameLast(a: seq<string>, b: seq<string>, key: string -> nat)
    requires KeySorted(a, key) && StrictlyKeySorted(b, key)
    requires multiset(a) == multiset(b) && |a| == |b| > 0
    ensures a[|a| - 1] == b[|b| - 1]
  {
    var n := |b|;
    var la, lb := a[n - 1], b[n - 1];
    assert la in multiset(b);
    var j :| 0 <= j < n && b[j] == la;
    assert lb in multiset(a);
    var i :| 0 <= i < n && a[i] == lb;
    assert key(lb) <= key(la) by {
      if i < n - 1 { assert key(a[i]) <= key(a[n - 1]); }
    }
    assert j == n - 1;
  }

  lemma DropLast(a: seq<string>, b: seq<string>)
    requires |a| == |b| > 0 && a[|a| - 1] == b[|b| - 1]
    requires multiset(a) == multiset(b)
    ensures multiset(a[..|a| - 1]) == multiset(b[..|b| - 1])
  {
    var n := |a|;
    var x := a[n - 1];
    assert a == a[..n - 1] + [x];
    assert b == b[..n - 1] + [x];
    assert multiset(a[..n - 1]) + multiset{x} == multiset(b[..n - 1]) + multiset{x};
    assert multiset(a[..n - 1]) == multiset(a[..n - 1]) + multiset{x} - multiset{x};
  }

  /** When no two names share a key, a key-sorted arrangement of them is unique. */
  lemma {:induction false} KeySortedUnique(a: seq<string>, b: seq<string>, key: string -> nat)
    requires KeySorted(a, key) && StrictlyKeySorted(b, key)
    requires multiset(a) == multiset(b)
    ensures a == b
    decreases |b|
  {
    assert |a| == |multiset(a)| == |multiset(b)| == |b|;
    if b != [] {
      var n := |b|;
      SameLast(a, b, key);
      DropLast(a, b);
      KeySortedUnique(a[..n - 1], b[..n - 1], key);
      assert a == a[..n - 1] + [a[n - 1]];
      assert b == b[..n - 1] + [b[n - 1]];
    }
  }

  /** Names whose keys strictly increase come out of the sort in that order, whatever order they are listed in. */
  lemma SortRecoversKeyOrder(listing: seq<string>, names: seq<string>, key: string -> nat)
    requires StrictlyKeySorted(names, key)
    requires multiset(listing) == multiset(names)
    ensures SortBy(listing, key) == names
  {
    SortByCorrect(listing, key);
    KeySortedUnique(SortBy(listing, key), names, key);
  }
}
