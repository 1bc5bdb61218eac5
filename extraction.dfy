/**
 * `extract_images`: walks the image order, keeps the entries that are
 * `word/media/` members whose bytes sniff as an image, and names each kept
 * entry after its 1-based position in the order. The byte sniffer
 * (`imghdr.what` on the member's bytes) is a parameter; reading the archive,
 * clearing the output folder and writing files are not modelled.
 */
module Extraction {
  import opened Wrappers
  import opened Text
  import opened Decimal
  import opened ImageOrder
  import FolderSort

  /** The `ext_map` table from sniffed type to file extension. */
  const ExtMap: map<string, string> := map[
    "jpeg" := ".jpg", "jpg" := ".jpg", "png" := ".png", "bmp" := ".bmp",
    "gif" := ".gif", "tiff" := ".tiff", "webp" := ".webp"]

  predicate IsOutputExtension(ext: string) {
    ext in {".jpg", ".png", ".bmp", ".gif", ".tiff", ".webp"}
  }

  /** `ext_map.get(kind, '.png')`: one of the six extensions, `.png` for any unlisted type. */
  function ExtensionFor(kind: string): (ext: string)
    ensures IsOutputExtension(ext)
    ensures kind !in ExtMap ==> ext == ".png"
    ensures kind == "jpeg" || kind == "jpg" ==> ext == ".jpg"
  {
    if kind in ExtMap then ExtMap[kind] else ".png"
  }

  /** An output extension starts with a dot and holds no digit, no other dot and no slash. */
  lemma OutputExtensionShape(ext: string)
    requires IsOutputExtension(ext)
    ensures |ext| >= 4 && ext[0] == '.'
    ensures forall i :: 0 <= i < |ext| ==> !IsDigit(ext[i]) && ext[i] != '/'
    ensures forall i :: 0 < i < |ext| ==> ext[i] != '.'
  {
  }

  /** `f"{i:03d}{ext}"`. */
  function OutputName(ordinal: nat, ext: string): string {
    ZeroPad3(ordinal) + ext
  }

  /** The number the folder sort reads from an output name is its ordinal. */
  lemma OutputNameKey(ordinal: nat, ext: string)
    requires IsOutputExtension(ext)
    ensures FolderSort.SortKey(OutputName(ordinal, ext)) == ordinal
  {
    OutputExtensionShape(ext);
    FolderSort.DigitsOfConcat(ZeroPad3(ordinal), ext);
    FolderSort.DigitsOfDigits(ZeroPad3(ordinal));
    FolderSort.DigitsOfDigits(ext);
    assert ZeroPad3(ordinal) + [] == ZeroPad3(ordinal);
    ZeroPad3RoundTrip(ordinal);
  }

  /** Below 1000 the padded ordinal is exactly its three decimal digits. */
  lemma ZeroPad3Digits(n: nat)
    requires n < 1000
    ensures ZeroPad3(n) == [DigitChar(n / 100), DigitChar(n / 10 % 10), DigitChar(n % 10)]
  {
    if n < 10 {
      assert DecimalString(n) == [DigitChar(n)];
      assert Zeros(2) == "00";
    } else if n < 100 {
      assert DecimalString(n / 10) == [DigitChar(n / 10)];
      assert Zeros(1) == "0";
    } else {
      assert n / 10 / 10 == n / 100;
      assert DecimalString(n / 10 / 10) == [DigitChar(n / 100)];
      assert DecimalString(n / 10) == [DigitChar(n / 100), DigitChar(n / 10 % 10)];
    }
  }

  /** Three-digit numbers compare like their digit strings: by hundreds, then tens, then units. */
  lemma DigitwiseLess(i: nat, j: nat)
    requires i < j < 1000
    ensures || i / 100 < j / 100
            || (i / 100 == j / 100 && i / 10 % 10 < j / 10 % 10)
            || (i / 100 == j / 100 && i / 10 % 10 == j / 10 % 10 && i % 10 < j % 10)
  {
    assert i == 10 * (i / 10) + i % 10;
    assert j == 10 * (j / 10) + j % 10;
    assert i / 10 == 10 * (i / 100) + i / 10 % 10;
    assert j / 10 == 10 * (j / 100) + j / 10 % 10;
  }

  /** Two names whose first characters differ compare by those characters. */
  lemma LexLeFirstLess(a: string, b: string)
    requires a != [] && b != [] && a[0] < b[0]
    ensures LexLe(a, b) && a != b
  {
  }

  /**
   * For ordinals below 1000 the output names also sort as strings in
   * ordinal order, whatever the extensions: `001.png` < `002.jpg` < ... < `999.gif`.
   */
  lemma OutputNamesAscend(i: nat, j: nat, e1: string, e2: string)
    requires i < j < 1000
    ensures LexLe(OutputName(i, e1), OutputName(j, e2)) && OutputName(i, e1) != OutputName(j, e2)
  {
    ZeroPad3Digits(i);
    ZeroPad3Digits(j);
    DigitwiseLess(i, j);
    var a, b := OutputName(i, e1), OutputName(j, e2);
    assert a[0] == DigitChar(i / 100) && b[0] == DigitChar(j / 100);
    assert a[1..][0] == DigitChar(i / 10 % 10) && b[1..][0] == DigitChar(j / 10 % 10);
    assert a[1..][1..][0] == DigitChar(i % 10) && b[1..][1..][0] == DigitChar(j % 10);
    if i / 100 < j / 100 {
      LexLeFirstLess(a, b);
    } else if i / 10 % 10 < j / 10 % 10 {
      LexLeFirstLess(a[1..], b[1..]);
    } else {
      LexLeFirstLess(a[1..][1..], b[1..][1..]);
    }
  }

  /** One file `extract_images` writes: its ordinal, the archive member it copies and its name. */
  datatype Output = Output(ordinal: nat, member: string, name: string)

  /** Entry `i` (1-based) of the order is extracted: it is a media member and sniffs as an image. */
  predicate Selected(order: seq<string>, names: seq<string>, sniff: string -> Option<string>, i: int) {
    1 <= i <= |order| && order[i - 1] in MediaMembers(names) && sniff(order[i - 1]).Some?
  }

  /** The file written for a selected entry. */
  predicate Describes(order: seq<string>, names: seq<string>, sniff: string -> Option<string>, out: Output) {
    && Selected(order, names, sniff, out.ordinal)
    && out.member == order[out.ordinal - 1]
    && out.name == OutputName(out.ordinal, ExtensionFor(sniff(out.member).value))
  }

  /** Exactly the selected entries, in the order's order, each named after its position. */
  ghost predicate IsPlan(order: seq<string>, names: seq<string>, sniff: string -> Option<string>, plan: seq<Output>) {
    && (forall k :: 0 <= k < |plan| ==> Describes(order, names, sniff, plan[k]))
    && (forall k, l :: 0 <= k < l < |plan| ==> plan[k].ordinal < plan[l].ordinal)
    && (forall i :: Selected(order, names, sniff, i) ==> exists k :: 0 <= k < |plan| && plan[k].ordinal == i)
  }

  function FileNames(plan: seq<Output>): (files: seq<string>)
    ensures |files| == |plan|
    ensures forall k :: 0 <= k < |plan| ==> files[k] == plan[k].name
  {
    seq(|plan|, k requires 0 <= k < |plan| => plan[k].name)
  }

  /** Every planned file describes a selected entry before position `i`. */
  ghost predicate DescribedBefore(order: seq<string>, names: seq<string>, sniff: string -> Option<string>,
                                  plan: seq<Output>, i: nat) {
    forall k :: 0 <= k < |plan| ==> Describes(order, names, sniff, plan[k]) && plan[k].ordinal < i
  }

  ghost predicate OrdinalsAscend(plan: seq<Output>) {
    forall k, l :: 0 <= k < l < |plan| ==> plan[k].ordinal < plan[l].ordinal
  }

  /** Every selected entry before position `i` has a planned file. */
  ghost predicate CoversBefore(order: seq<string>, names: seq<string>, sniff: string -> Option<string>,
                               plan: seq<Output>, i: nat) {
    forall j :: 1 <= j < i && Selected(order, names, sniff, j) ==>
      exists k :: 0 <= k < |plan| && plan[k].ordinal == j
  }

  /** `plan` is the plan for the entries before position `i`. */
  ghost predicate PlanBefore(order: seq<string>, names: seq<string>, sniff: string -> Option<string>,
                             plan: seq<Output>, i: nat) {
    && DescribedBefore(order, names, sniff, plan, i)
    && OrdinalsAscend(plan)
    && CoversBefore(order, names, sniff, plan, i)
  }

  lemma PlanSkip(order: seq<string>, names: seq<string>, sniff: string -> Option<string>, plan: seq<Output>, i: nat)
    requires PlanBefore(order, names, sniff, plan, i)
    requires !Selected(order, names, sniff, i)
    ensures PlanBefore(order, names, sniff, plan, i + 1)
  {
  }

  lemma DescribedTake(order: seq<string>, names: seq<string>, sniff: string -> Option<string>,
                      plan: seq<Output>, i: nat, out: Output)
    requires DescribedBefore(order, names, sniff, plan, i)
    requires Describes(order, names, sniff, out) && out.ordinal == i
    ensures DescribedBefore(order, names, sniff, plan + [out], i + 1)
  {
    var plan' := plan + [out];
    forall k | 0 <= k < |plan'|
      ensures Describes(order, names, sniff, plan'[k]) && plan'[k].ordinal < i + 1
    {
      if k < |plan| {
        assert plan'[k] == plan[k];
      }
    }
  }

  lemma AscendTake(plan: seq<Output>, i: nat, out: Output)
    requires OrdinalsAscend(plan) && out.ordinal == i
    requires forall k :: 0 <= k < |plan| ==> plan[k].ordinal < i
    ensures OrdinalsAscend(plan + [out])
  {
    var plan' := plan + [out];
    forall k, l | 0 <= k < l < |plan'| ensures plan'[k].ordinal < plan'[l].ordinal {
      assert plan'[k] == plan[k];
    }
  }

  lemma CoversTake(order: seq<string>, names: seq<string>, sniff: string -> Option<string>,
                   plan: seq<Output>, i: nat, out: Output)
    requires CoversBefore(order, names, sniff, plan, i) && out.ordinal == i
    ensures CoversBefore(order, names, sniff, plan + [out], i + 1)
  {
    var plan' := plan + [out];
    forall j | 1 <= j < i + 1 && Selected(order, names, sniff, j)
      ensures exists k :: 0 <= k < |plan'| && plan'[k].ordinal == j
    {
      if j == i {
        assert plan'[|plan|].ordinal == j;
      } else {
        var k :| 0 <= k < |plan| && plan[k].ordinal == j;
        assert plan'[k].ordinal == j;
      }
    }
  }

  lemma PlanTake(order: seq<string>, names: seq<string>, sniff: string -> Option<string>, plan: seq<Output>, i: nat)
    requires PlanBefore(order, names, sniff, plan, i)
    requires Selected(order, names, sniff, i)
    ensures PlanBefore(order, names, sniff,
      plan + [Output(i, order[i - 1], OutputName(i, ExtensionFor(sniff(order[i - 1]).value)))], i + 1)
  {
    var out := Output(i, order[i - 1], OutputName(i, ExtensionFor(sniff(order[i - 1]).value)));
    assert Describes(order, names, sniff, out);
    DescribedTake(order, names, sniff, plan, i, out);
    AscendTake(plan, i, out);
    CoversTake(order, names, sniff, plan, i, out);
  }

  /**
   * The planning loop of `extract_images` (`for i, rel_path in
   * enumerate(image_order, 1)`): ordinals are positions in the order, so
   * skipped entries leave gaps.
   */
  method PlanExtraction(order: seq<string>, names: seq<string>, sniff: string -> Option<string>)
    returns (plan: seq<Output>)
    ensures IsPlan(order, names, sniff, plan)
  {
    var mediaFiles := MediaMembers(names);
    plan := [];
    var i := 1;
    while i <= |order|
      invariant 1 <= i <= |order| + 1
      invariant PlanBefore(order, names, sniff, plan, i)
    {
      var relPath := order[i - 1];
      var kind := if relPath in mediaFiles then sniff(relPath) else None;
      if kind.Some? {
        PlanTake(order, names, sniff, plan, i);
        plan := plan + [Output(i, relPath, OutputName(i, ExtensionFor(kind.value)))];
      } else {
        PlanSkip(order, names, sniff, plan, i);
      }
      i := i + 1;
    }
  }

  /** Output names never collide, so no written file overwrites another. */
  lemma PlanNamesDistinct(order: seq<string>, names: seq<string>, sniff: string -> Option<string>, plan: seq<Output>)
    requires IsPlan(order, names, sniff, plan)
    ensures forall k, l :: 0 <= k < l < |plan| ==> plan[k].name != plan[l].name
    ensures forall k :: 0 <= k < |plan| ==> FolderSort.SortKey(plan[k].name) == plan[k].ordinal
  {
    forall k | 0 <= k < |plan| ensures FolderSort.SortKey(plan[k].name) == plan[k].ordinal {
      assert Describes(order, names, sniff, plan[k]);
      OutputNameKey(plan[k].ordinal, ExtensionFor(sniff(plan[k].member).value));
    }
    forall k, l | 0 <= k < l < |plan| ensures plan[k].name != plan[l].name {
      assert Describes(order, names, sniff, plan[k]) && Describes(order, names, sniff, plan[l]);
      OutputNameKey(plan[k].ordinal, ExtensionFor(sniff(plan[k].member).value));
      OutputNameKey(plan[l].ordinal, ExtensionFor(sniff(plan[l].member).value));
    }
  }

  /**
   * After an extraction, loading the output folder lists the files in
   * ordinal order, whatever order the directory listing returns them in.
   */
  lemma ReloadKeepsOrdinalOrder(order: seq<string>, names: seq<string>, sniff: string -> Option<string>,
                                plan: seq<Output>, listing: seq<string>)
    requires IsPlan(order, names, sniff, plan)
    requires multiset(listing) == multiset(FileNames(plan))
    ensures FolderSort.SortBy(listing, FolderSort.SortKey) == FileNames(plan)
  {
    var files := FileNames(plan);
    forall k | 0 <= k < |plan| ensures FolderSort.SortKey(files[k]) == plan[k].ordinal {
      assert Describes(order, names, sniff, plan[k]);
      OutputNameKey(plan[k].ordinal, ExtensionFor(sniff(plan[k].member).value));
    }
    assert FolderSort.StrictlyKeySorted(files, FolderSort.SortKey);
    FolderSort.SortRecoversKeyOrder(listing, files, FolderSort.SortKey);
  }

  /** How `extract_images` ends. */
  datatype ExtractResult =
    | MissingInput     // no Word file or no output folder chosen
    | NotDocx          // the file name does not end in `.docx`
    | ArchiveError     // the file cannot be read as a zip archive
    | NoValidImages    // nothing was extracted
    | Done(plan: seq<Output>)

  /**
   * `extract_images` on a Word file whose archive lists `archive` (`None`
   * when it is not a readable zip), with python-docx's relationship targets
   * and the text of `word/document.xml` as inputs.
   */
  method ExtractImages(wordFile: string, outputFolder: string, targets: seq<string>, xml: string,
                       archive: Option<seq<string>>, sniff: string -> Option<string>)
    returns (r: ExtractResult)
    ensures r == MissingInput <==> wordFile == [] || outputFolder == []
    ensures r == NotDocx <==> wordFile != [] && outputFolder != [] && !EndsWith(wordFile, ".docx")
    ensures r == ArchiveError <==> wordFile != [] && outputFolder != [] && EndsWith(wordFile, ".docx") && archive.None?
    ensures r.NoValidImages? || r.Done? ==> archive.Some?
    ensures r.Done? ==> r.plan != [] && IsPlan(ResolvedOrder(targets, xml, archive.value), archive.value, sniff, r.plan)
    ensures r.NoValidImages? ==>
      forall i :: !Selected(ResolvedOrder(targets, xml, archive.value), archive.value, sniff, i)
  {
    if wordFile == [] || outputFolder == [] {
      return MissingInput;
    }
    if !EndsWith(wordFile, ".docx") {
      return NotDocx;
    }
    if archive.None? {
      return ArchiveError;
    }
    var names := archive.value;
    var order := GetImageOrder(targets, xml, names);
    var plan := PlanExtraction(order, names, sniff);
    if plan == [] {
      return NoValidImages;
    }
    return Done(plan);
  }
}
