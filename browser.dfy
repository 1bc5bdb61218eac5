/**
 * The folder-browsing state of `WordImageExtractorApp`: the sorted list of
 * image files, the index of the one on show and its path. The folder path
 * and the name typed by the user are read from widgets and so are passed in;
 * the filesystem is passed in as what it answers (listing, existence, the
 * sniffed type of a file, whether `os.rename` succeeds).
 */
module Browser {
  import opened Wrappers
  import opened Text
  import opened Paths
  import FolderSort
  import Extraction

  /** What the filesystem answers for the folder path: absent, present but not listable, or its entries. */
  datatype Listing = Missing | Unlistable | Listed(entries: seq<string>)

  /** How `load_image_files` ends; `ListFailed` is the `os.listdir` exception escaping it. */
  datatype LoadResult = NoFolder | FolderMissing | ListFailed | NoImages | Loaded(count: nat)

  /** How `save_rename` ends. */
  datatype RenameResult =
    | NothingToRename              // no current image
    | EmptyName                    // the name is blank after stripping
    | Unchanged                    // the new path equals the current one
    | AlreadyExists                // the target path exists
    | RenameFailed                 // `os.rename` raised
    | Renamed(name: string, path: string)

  /** The extension `save_rename` keeps: the current one, else one from the sniffed type (`.png` when unknown). */
  function RenameExtension(currentPath: string, sniffed: Option<string>): (ext: string)
    ensures SplitExt(currentPath) != [] ==> ext == SplitExt(currentPath)
    ensures SplitExt(currentPath) == [] ==> Extraction.IsOutputExtension(ext)
    ensures SplitExt(currentPath) == [] && sniffed.Some? ==> ext == Extraction.ExtensionFor(sniffed.value)
    ensures SplitExt(currentPath) == [] && sniffed.None? ==> ext == ".png"
  {
    var ext := SplitExt(currentPath);
    if ext != [] then ext
    else if sniffed.Some? then Extraction.ExtensionFor(sniffed.value)
    else ".png"
  }

  /**
   * The decision `save_rename` takes, before it touches any state: the
   * checks in the order the source makes them.
   */
  function RenameDecision(currentPath: string, files: seq<string>, folder: string, entered: string,
                          sniffed: Option<string>, existing: set<string>, renameSucceeds: bool): (r: RenameResult)
    ensures r == NothingToRename <==> currentPath == [] || files == []
    ensures r == EmptyName <==> currentPath != [] && files != [] && Strip(entered) == []
    ensures r.Renamed? ==> && Strip(entered) != []
                           && r.name == Strip(entered) + RenameExtension(currentPath, sniffed)
                           && r.path == Join(folder, r.name)
                           && r.path != currentPath && r.path !in existing && renameSucceeds
    ensures currentPath != [] && files != [] && Strip(entered) != [] ==>
      var path := Join(folder, Strip(entered) + RenameExtension(currentPath, sniffed));
      && (r == Unchanged <==> path == currentPath)
      && (r == AlreadyExists <==> path != currentPath && path in existing)
      && (r == RenameFailed <==> path != currentPath && path !in existing && !renameSucceeds)
      && (r.Renamed? <==> path != currentPath && path !in existing && renameSucceeds)
  {
    if currentPath == [] || files == [] then NothingToRename
    else
      var base := Strip(entered);
      if base == [] then EmptyName
      else
        var name := base + RenameExtension(currentPath, sniffed);
        var path := Join(folder, name);
        if currentPath == path then Unchanged
        else if path in existing then AlreadyExists
        else if !renameSucceeds then RenameFailed
        else Renamed(name, path)
  }

  /** Stripping a plain name with a character that is neither a dot nor a space leaves a plain name that is not all dots. */
  lemma StripPlainName(entered: string)
    requires forall i :: 0 <= i < |entered| ==> entered[i] != '/'
    requires exists k :: 0 <= k < |entered| && entered[k] != '.' && !IsSpace(entered[k])
    ensures forall i :: 0 <= i < |Strip(entered)| ==> Strip(entered)[i] != '/'
    ensures exists k :: 0 <= k < |Strip(entered)| && Strip(entered)[k] != '.'
  {
    var base := Strip(entered);
    var lo: nat :| IsTrimmedSlice(entered, base, lo);
    forall i | 0 <= i < |base| ensures base[i] != '/' {
      assert base[i] == entered[lo + i];
    }
    var k :| 0 <= k < |entered| && entered[k] != '.' && !IsSpace(entered[k]);
    assert lo <= k < lo + |base|;
    assert base[k - lo] == entered[k];
  }

  /**
   * A rename keeps the file's extension when the current path has one and
   * the typed name is a plain file name that is not all dots.
   */
  lemma RenameKeepsExtension(currentPath: string, files: seq<string>, folder: string, entered: string,
                             sniffed: Option<string>, existing: set<string>, renameSucceeds: bool)
    requires SplitExt(currentPath) != []
    requires forall i :: 0 <= i < |entered| ==> entered[i] != '/'
    requires exists k :: 0 <= k < |entered| && entered[k] != '.' && !IsSpace(entered[k])
    requires RenameDecision(currentPath, files, folder, entered, sniffed, existing, renameSucceeds).Renamed?
    ensures SplitExt(RenameDecision(currentPath, files, folder, entered, sniffed, existing, renameSucceeds).path)
         == SplitExt(currentPath)
  {
    var r := RenameDecision(currentPath, files, folder, entered, sniffed, existing, renameSucceeds);
    var base := Strip(entered);
    var ext := SplitExt(currentPath);
    assert RenameExtension(currentPath, sniffed) == ext;
    assert r.path == Join(folder, base + ext);
    StripPlainName(entered);
    SplitExtOfJoin(folder, base, ext);
  }

  class ExtractorApp {
    var imageFiles: seq<string>
    var currentIndex: int
    var currentImagePath: string

    /** A non-empty list always has a valid current index. */
    ghost predicate Valid()
      reads this
    {
      0 <= currentIndex && (imageFiles != [] ==> currentIndex < |imageFiles|)
    }

    constructor ()
      ensures Valid()
      ensures imageFiles == [] && currentIndex == 0 && currentImagePath == []
    {
      imageFiles, currentIndex, currentImagePath := [], 0, [];
    }

    /**
     * `load_image_files`: keep the listed files that sniff as images, sort
     * them by their digit key, and show the first one. When the folder
     * exists but cannot be listed, the list has already been emptied when
     * `os.listdir` raises, and the index and path keep their old values.
     */
    method LoadImageFiles(folder: string, listing: Listing, isImageFile: string -> bool)
      returns (r: LoadResult)
      requires Valid()
      modifies this
      ensures Valid()
      ensures r == NoFolder <==> folder == []
      ensures r == FolderMissing <==> folder != [] && listing.Missing?
      ensures r == ListFailed <==> folder != [] && listing.Unlistable?
      ensures r.NoFolder? || r.FolderMissing? ==>
        imageFiles == old(imageFiles) && currentIndex == old(currentIndex) && currentImagePath == old(currentImagePath)
      ensures r.ListFailed? ==>
        imageFiles == [] && currentIndex == old(currentIndex) && currentImagePath == old(currentImagePath)
      ensures r.NoImages? || r.Loaded? ==>
        && listing.Listed?
        && imageFiles == FolderSort.SortBy(ImageFilesOf(listing.entries, isImageFile), FolderSort.SortKey)
        && currentIndex == 0
      ensures r.NoImages? ==> imageFiles == [] && currentImagePath == []
      ensures r.Loaded? ==> r.count == |imageFiles| > 0 && currentImagePath == Join(folder, imageFiles[0])
    {
      if folder == [] {
        return NoFolder;
      }
      if listing.Missing? {
        return FolderMissing;
      }
      imageFiles := [];
      if listing.Unlistable? {
        return ListFailed;
      }
      var entries := listing.entries;
      var i := 0;
      while i < |entries|
        invariant 0 <= i <= |entries|
        invariant imageFiles == ImageFilesOf(entries[..i], isImageFile)
      {
        assert entries[..i + 1][..i] == entries[..i];
        if isImageFile(entries[i]) {
          imageFiles := imageFiles + [entries[i]];
        }
        i := i + 1;
      }
      assert entries[..i] == entries;
      imageFiles := FolderSort.SortBy(imageFiles, FolderSort.SortKey);
      currentIndex := 0;
      if imageFiles != [] {
        currentImagePath := Join(folder, imageFiles[0]);
        r := Loaded(|imageFiles|);
      } else {
        currentImagePath := [];
        r := NoImages;
      }
    }

    /** `previous_image`: step back unless already at the first image. */
    method PreviousImage(folder: string)
      requires Valid()
      modifies this`currentIndex, this`currentImagePath
      ensures Valid()
      ensures imageFiles == [] ==> currentIndex == 0 && currentImagePath == []
      ensures imageFiles != [] && old(currentIndex) > 0 ==>
        currentIndex == old(currentIndex) - 1 && currentImagePath == Join(folder, imageFiles[currentIndex])
      ensures imageFiles != [] && old(currentIndex) == 0 ==>
        currentIndex == 0 && currentImagePath == old(currentImagePath)
    {
      if imageFiles != [] {
        if currentIndex > 0 {
          currentIndex := currentIndex - 1;
          currentImagePath := Join(folder, imageFiles[currentIndex]);
        }
      } else {
        currentIndex := 0;
        currentImagePath := [];
      }
    }

    /** `next_image`: step forward unless already at the last image. */
    method NextImage(folder: string)
      requires Valid()
      modifies this`currentIndex, this`currentImagePath
      ensures Valid()
      ensures imageFiles == [] ==> currentIndex == 0 && currentImagePath == []
      ensures imageFiles != [] && old(currentIndex) < |imageFiles| - 1 ==>
        currentIndex == old(currentIndex) + 1 && currentImagePath == Join(folder, imageFiles[currentIndex])
      ensures imageFiles != [] && old(currentIndex) == |imageFiles| - 1 ==>
        currentIndex == old(currentIndex) && currentImagePath == old(currentImagePath)
    {
      if imageFiles != [] {
        if currentIndex < |imageFiles| - 1 {
          currentIndex := currentIndex + 1;
          currentImagePath := Join(folder, imageFiles[currentIndex]);
        }
      } else {
        currentIndex := 0;
        currentImagePath := [];
      }
    }

    /**
     * `save_rename`: on success exactly the current list entry and the
     * current path change; on every other outcome nothing changes.
     */
    method SaveRename(folder: string, entered: string, sniffed: Option<string>,
                      existing: set<string>, renameSucceeds: bool)
      returns (r: RenameResult)
      requires Valid()
      modifies this`imageFiles, this`currentImagePath
      ensures Valid()
      ensures r == RenameDecision(old(currentImagePath), old(imageFiles), folder, entered, sniffed, existing, renameSucceeds)
      ensures r.Renamed? ==>
        && imageFiles == old(imageFiles)[currentIndex := r.name]
        && currentImagePath == r.path
      ensures !r.Renamed? ==> imageFiles == old(imageFiles) && currentImagePath == old(currentImagePath)
    {
      r := RenameDecision(currentImagePath, imageFiles, folder, entered, sniffed, existing, renameSucceeds);
      if r.Renamed? {
        imageFiles := imageFiles[currentIndex := r.name];
        currentImagePath := r.path;
      }
    }
  }

  /** The files of a listing that are regular files sniffing as images, in listing order. */
  function ImageFilesOf(entries: seq<string>, isImageFile: string -> bool): seq<string> {
    if entries == [] then []
    else
      var last := entries[|entries| - 1];
      ImageFilesOf(entries[..|entries| - 1], isImageFile) + (if isImageFile(last) then [last] else [])
  }
}
