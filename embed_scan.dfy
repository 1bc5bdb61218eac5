/**
 * The text scan over `word/document.xml` that
 * `re.findall(r'<a:blip r:embed="([^"]+)"', xml)` performs: leftmost,
 * non-overlapping matches, each contributing the text between the quotes.
 */
module EmbedScan {
  import opened Wrappers
  import opened Text

  const BlipPrefix: string := "<a:blip r:embed=\""

  /** The first index at or after `i` holding a double quote, or `|s|` when there is none. */
  function QuoteFrom(s: string, i: nat): (j: nat)
    requires i <= |s|
    ensures i <= j <= |s|
    ensures j < |s| ==> s[j] == '"'
    ensures forall k :: i <= k < j ==> s[k] != '"'
    decreases |s| - i
  {
    if i == |s| || s[i] == '"' then i else QuoteFrom(s, i + 1)
  }

  /** A non-empty identifier without double quotes, as `[^"]+` captures it. */
  predicate IsEmbedId(id: string) {
    id != [] && forall k :: 0 <= k < |id| ==> id[k] != '"'
  }

  /** The whole text matched when `id` is captured: the prefix, the id and the closing quote. */
  function MatchText(id: string): string {
    BlipPrefix + id + "\""
  }

  /** The prefix at `p` and a quote at `e` frame a match whose capture lies between them. */
  lemma MatchTextAt(s: string, p: nat, e: nat)
    requires p + |BlipPrefix| <= e < |s| && s[e] == '"'
    requires StartsWith(s[p..], BlipPrefix)
    ensures OccursAt(s, MatchText(s[p + |BlipPrefix|..e]), p)
  {
    var b := p + |BlipPrefix|;
    assert s[p..e + 1] == s[p..b] + s[b..e] + s[e..e + 1];
    assert s[p..b] == s[p..][..|BlipPrefix|];
  }

  /**
   * What the pattern captures when it is tried at position `p`. The greedy
   * `[^"]+` runs up to the first quote after the prefix; if there is no such
   * quote, or nothing between, the attempt fails (backtracking cannot help).
   */
  function MatchAt(s: string, p: nat): (r: Option<string>)
    ensures r.Some? ==> IsEmbedId(r.value) && OccursAt(s, MatchText(r.value), p)
  {
    if p <= |s| && StartsWith(s[p..], BlipPrefix) then
      var b := p + |BlipPrefix|;
      var e := QuoteFrom(s, b);
      if b < e < |s| then
        MatchTextAt(s, p, e);
        Some(s[b..e])
      else None
    else None
  }

  /** The pattern matches at `p` exactly when some id fits, and then it captures that id. */
  lemma MatchAtComplete(s: string, p: nat, id: string)
    requires IsEmbedId(id) && OccursAt(s, MatchText(id), p)
    ensures MatchAt(s, p) == Some(id)
  {
    var m := MatchText(id);
    var b := p + |BlipPrefix|;
    var e := b + |id|;
    assert s[p..p + |m|] == m;
    assert s[p..][..|BlipPrefix|] == m[..|BlipPrefix|] == BlipPrefix;
    forall i | 0 <= i < |id| ensures s[b + i] == id[i] {
      assert s[b + i] == m[|BlipPrefix| + i];
    }
    assert s[e] == m[e - p] == '"';
    QuoteFromAt(s, b, e);
    assert s[b..e] == id;
  }

  /** A quote at `e` with none before it from `b` on is where the `[^"]+` run stops. */
  lemma QuoteFromAt(s: string, b: nat, e: nat)
    requires b <= e < |s| && s[e] == '"'
    requires forall k :: b <= k < e ==> s[k] != '"'
    ensures QuoteFrom(s, b) == e
  {
  }

  datatype Match = Match(start: nat, id: string)

  /** One past the closing quote of a match: where the next search resumes. */
  function MatchEnd(m: Match): nat {
    m.start + |MatchText(m.id)|
  }

  /**
   * A pattern attempt fit for scanning: whenever it succeeds at `p`, the
   * text it consumes, `MatchText` of the capture, lies within the text.
   */
  ghost predicate Fits(attempt: (string, nat) -> Option<string>) {
    forall s: string, p: nat :: attempt(s, p).Some? ==> p + |MatchText(attempt(s, p).value)| <= |s|
  }

  /** The attempt that `<a:blip r:embed="([^"]+)"` makes is fit for scanning. */
  lemma MatchAtFits()
    ensures Fits(MatchAt)
  {
    forall s: string, p: nat | MatchAt(s, p).Some?
      ensures p + |MatchText(MatchAt(s, p).value)| <= |s|
    {
    }
  }

  /**
   * The matches `findall` reports when searching from position `p` on: try
   * the pattern at each position in turn; after a match, resume where it
   * ended.
   */
  function ScanFrom(s: string, p: nat, attempt: (string, nat) -> Option<string>): seq<Match>
    requires p <= |s| && Fits(attempt)
    decreases |s| - p
  {
    if p == |s| then []
    else match attempt(s, p)
      case Some(id) => [Match(p, id)] + ScanFrom(s, p + |MatchText(id)|, attempt)
      case None => ScanFrom(s, p + 1, attempt)
  }

  /**
   * The identifiers `re.findall` returns for the whole text, one per match
   * of the scan: every id is non-empty and quote-free, occurs in the text
   * as `<a:blip r:embed="` + id + `"` at its match's start, and the
   * occurrences are in text order without overlapping.
   */
  function EmbedIds(s: string): (ids: seq<string>)
    ensures Fits(MatchAt)
    ensures |ids| == |ScanFrom(s, 0, MatchAt)|
    ensures forall k :: 0 <= k < |ids| ==> ids[k] == ScanFrom(s, 0, MatchAt)[k].id
    ensures forall k :: 0 <= k < |ids| ==>
      IsEmbedId(ids[k]) && OccursAt(s, MatchText(ids[k]), ScanFrom(s, 0, MatchAt)[k].start)
    ensures forall k :: 0 <= k < |ids| - 1 ==>
      ScanFrom(s, 0, MatchAt)[k].start + |MatchText(ids[k])| <= ScanFrom(s, 0, MatchAt)[k + 1].start
  {
    MatchAtFits();
    ScanSound(s, 0, MatchAt);
    var ms := ScanFrom(s, 0, MatchAt);
    seq(|ms|, k requires 0 <= k < |ms| => ms[k].id)
  }

  /** The `k`-th reported match from `p` on is a match of the attempt lying within the text after `p`. */
  lemma {:induction false} ScanElement(s: string, p: nat, attempt: (string, nat) -> Option<string>, k: nat)
    requires p <= |s| && Fits(attempt) && k < |ScanFrom(s, p, attempt)|
    ensures p <= ScanFrom(s, p, attempt)[k].start
    ensures MatchEnd(ScanFrom(s, p, attempt)[k]) <= |s|
    ensures attempt(s, ScanFrom(s, p, attempt)[k].start) == Some(ScanFrom(s, p, attempt)[k].id)
    decreases |s| - p
  {
    match attempt(s, p)
    case Some(id) =>
      var next := p + |MatchText(id)|;
      var rest := ScanFrom(s, next, attempt);
      assert ScanFrom(s, p, attempt) == [Match(p, id)] + rest;
      if k > 0 {
        ScanElement(s, next, attempt, k - 1);
      }
    case None =>
      ScanElement(s, p + 1, attempt, k);
  }

  /** The `k`-th and the next reported match do not overlap. */
  lemma {:induction false} ScanOrdered(s: string, p: nat, attempt: (string, nat) -> Option<string>, k: nat)
    requires p <= |s| && Fits(attempt) && k + 1 < |ScanFrom(s, p, attempt)|
    ensures MatchEnd(ScanFrom(s, p, attempt)[k]) <= ScanFrom(s, p, attempt)[k + 1].start
    decreases |s| - p
  {
    match attempt(s, p)
    case Some(id) =>
      var next := p + |MatchText(id)|;
      var rest := ScanFrom(s, next, attempt);
      assert ScanFrom(s, p, attempt) == [Match(p, id)] + rest;
      if k == 0 {
        ScanElement(s, next, attempt, 0);
      } else {
        ScanOrdered(s, next, attempt, k - 1);
      }
    case None =>
      ScanOrdered(s, p + 1, attempt, k);
  }

  /**
   * Every reported match is a match of the attempt at its start, lies
   * within the text after `p`, and the matches come in text order without
   * overlapping.
   */
  lemma ScanSound(s: string, p: nat, attempt: (string, nat) -> Option<string>)
    requires p <= |s| && Fits(attempt)
    ensures forall k :: 0 <= k < |ScanFrom(s, p, attempt)| ==>
      && p <= ScanFrom(s, p, attempt)[k].start
      && MatchEnd(ScanFrom(s, p, attempt)[k]) <= |s|
      && attempt(s, ScanFrom(s, p, attempt)[k].start) == Some(ScanFrom(s, p, attempt)[k].id)
    ensures forall k :: 0 <= k < |ScanFrom(s, p, attempt)| - 1 ==>
      MatchEnd(ScanFrom(s, p, attempt)[k]) <= ScanFrom(s, p, attempt)[k + 1].start
  {
    forall k | 0 <= k < |ScanFrom(s, p, attempt)| {
      ScanElement(s, p, attempt, k);
    }
    forall k | 0 <= k < |ScanFrom(s, p, attempt)| - 1 {
      ScanOrdered(s, p, attempt, k);
    }
  }

  /** The index of the reported match that covers a position `q` where the attempt succeeds. */
  lemma {:induction false} CoveringMatch(s: string, p: nat, attempt: (string, nat) -> Option<string>, q: nat)
    returns (k: nat)
    requires p <= q <= |s| && Fits(attempt)
    requires attempt(s, q).Some?
    ensures k < |ScanFrom(s, p, attempt)|
    ensures ScanFrom(s, p, attempt)[k].start <= q < MatchEnd(ScanFrom(s, p, attempt)[k])
    decreases |s| - p
  {
    assert p < |s| by {
      if q == |s| {
        assert q + |MatchText(attempt(s, q).value)| <= |s|;
      }
    }
    match attempt(s, p)
    case Some(id) =>
      var next := p + |MatchText(id)|;
      var rest := ScanFrom(s, next, attempt);
      assert ScanFrom(s, p, attempt) == [Match(p, id)] + rest;
      if q < next {
        k := 0;
      } else {
        var j := CoveringMatch(s, next, attempt, q);
        k := j + 1;
      }
    case None =>
      k := CoveringMatch(s, p + 1, attempt, q);
  }

  /**
   * No match is skipped: wherever after `p` the attempt succeeds, either a
   * reported match starts there or that position lies inside a reported match.
   */
  lemma ScanComplete(s: string, p: nat, attempt: (string, nat) -> Option<string>, q: nat)
    requires p <= q <= |s| && Fits(attempt)
    requires attempt(s, q).Some?
    ensures exists k :: (0 <= k < |ScanFrom(s, p, attempt)| &&
      ScanFrom(s, p, attempt)[k].start <= q < MatchEnd(ScanFrom(s, p, attempt)[k]))
  {
    var k := CoveringMatch(s, p, attempt, q);
  }

  /**
   * And none is missed: wherever a valid id occurs in the text as
   * `<a:blip r:embed="` + id + `"`, that occurrence starts a reported match
   * or lies inside one.
   */
  lemma EmbedIdsComplete(s: string, q: nat, id: string)
    requires IsEmbedId(id) && OccursAt(s, MatchText(id), q)
    ensures Fits(MatchAt)
    ensures exists k :: (0 <= k < |EmbedIds(s)| &&
      ScanFrom(s, 0, MatchAt)[k].start <= q < MatchEnd(ScanFrom(s, 0, MatchAt)[k]))
  {
    MatchAtFits();
    MatchAtComplete(s, q, id);
    var k := CoveringMatch(s, 0, MatchAt, q);
  }
}
