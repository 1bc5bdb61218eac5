# Word image extractor and viewer — a Dafny model

`image-editer.py` is a Tkinter tool with two tabs. The first extracts the images of a `.docx`
file into a folder. It names each output `NNN.ext` after the image's position in a "document
order" that it derives from the document. The second tab browses an image folder, with a
zoomable and draggable preview and in-place renaming.

This project models the deterministic logic under that GUI and proves what it promises:

- **Viewport** (`viewport.dfy`): the `ZoomableImage` widget's state, which is the zoom `scale`,
  the pan `x`/`y` and the drag anchor `last_x`/`last_y`. It is a class whose methods update
  these fields as the event handlers do. Scale stays within `[0.1, 4.0]`. After every handled
  event the pan stays within half the overflow of the scaled image over the canvas, and it is
  exactly 0 when the image fits. Zooming about a focal point (the mouse wheel) keeps the image
  point under it exactly when the pan clamp that follows does not bind.
- **Image order** (`image_order.dfy`, `embed_scan.dfy`): `get_image_order_from_docx`. It takes
  the python-docx relationship targets that mention "image", then the ids found by the regex
  `<a:blip r:embed="([^"]+)"`, each prefixed with `word/`, and keeps duplicates. Only when both
  tiers are empty does it use the `sorted` `word/media/` members. `findall` is modelled as a
  leftmost, non-overlapping scan over any pattern attempt that stays inside the text, proved
  sound and complete, and applied to this pattern.
- **Extraction plan** (`extraction.dfy`): the loop of `extract_images`. Entry `i` (1-based) is
  written as `f"{i:03d}{ext}"` only if it is a `word/media/` member that sniffs as an image.
  The extension comes from `ext_map`, with `.png` as the default. Names never collide. Reading
  a name's digits gives back its ordinal, so a reload lists the outputs in ordinal order.
- **Folder browsing** (`folder_sort.dfy`, `browser.dfy`): the stable sort by "all digits of the
  name as an integer, or 0". Python's `list.sort(key=...)` is modelled once, for any key, and
  applied to that digit key. It also covers `previous_image`/`next_image` with a bounded
  `current_index`, and `save_rename`, which validates the name and replaces exactly one list
  entry.
- Helpers: `text.dfy` (`startswith`, `endswith`, `in`, `strip`), `decimal.dfy` (`str`, `int`, zero
  padding), `paths.dfy` (POSIX `os.path.join` and `os.path.splitext`), `wrappers.dfy` (Option).

Inputs that come from outside the program are parameters:

- the canvas size (`winfo_width`/`winfo_height`);
- the relationship target list, the text of `word/document.xml` and the archive member names;
- the type sniffer (`imghdr.what`), as a function from member name to an optional type tag;
- the folder listing (the folder is missing, cannot be listed, or has these entries), the
  existing paths and whether `os.rename` succeeds;
- the folder path and the typed name, which are widget contents.

Python's `//` by 2 is Dafny's `/`: the two agree for a positive divisor. `int(size * scale)` is
a floor, because the product is never negative.

Facts about the image order that the model keeps as the code has them:

- `document.xml` is searched with a regular expression, not walked as XML, and the order
  keeps duplicates.
- The `r:embed` ids are used as paths under `word/`; they are never resolved through the
  relationship map.
- The fallback sorts the `word/media/` member names as strings, not by their digits.

## Model

| member | source | states |
|---|---|---|
| `Viewport.ClampScale` | image-editer.py:125-127 | the new scale always lies in [0.1, 4.0], equals the product when that is in range and the nearer bound otherwise |
| `Viewport.ScaledSize` | image-editer.py:89-91 | the displayed side is the whole-pixel floor of size times scale |
| `Viewport.MaxPan` | image-editer.py:98-99 | the pan limit is 0 when the scaled side fits the canvas (or overflows by 1), otherwise half the overflow rounded down |
| `Viewport.ClampPan` | image-editer.py:100-101 | the clamped pan lies in [-m, m], is unchanged when already there, and is the nearer bound otherwise |
| `Viewport.ClampPanIdempotent` | image-editer.py:98-101 | clamping an already clamped pan changes nothing |
| `Viewport.FocalPointStays` | image-editer.py:129-137 | the focal-point pan formula, before the pan clamp, keeps the image point under the focal point the same (over exact reals) |
| `Viewport.ClampedFocalPointStays` | image-editer.py:129-139 | once the pan clamp of `_apply_transform` follows the formula, the image point under the focal point stays exactly when the clamp does not bind |
| `Viewport.FocalPanInverse` | image-editer.py:133-137 | the focal-point pan formula applied with scales s0 to s1 and then s1 to s0 about the same point restores the pan; with `Zoom`'s contract, a zoom pair therefore restores the pan whenever neither the scale clamp nor the pan clamp binds (it may also do so when one binds) |
| `Viewport.ZoomableImage.constructor` | image-editer.py:19-28 | starts with no image, scale 1, pan and anchor at 0 |
| `Viewport.ZoomableImage.SetImage` | image-editer.py:36-42 | a loaded image resets scale to 1 and pan to 0, within bounds |
| `Viewport.ZoomableImage.ClearImage` | image-editer.py:51-53 | showing a message drops the image |
| `Viewport.ZoomableImage.ResetView` | image-editer.py:70-74 | scale becomes 1 and pan 0; the scale invariant holds |
| `Viewport.ZoomableImage.ApplyTransform` | image-editer.py:82-101 | with an image, each pan coordinate becomes its clamp against half the overflow, so the pan is within bounds; without one nothing changes |
| `Viewport.ZoomableImage.Zoom` | image-editer.py:121-139 | with no image nothing changes; otherwise scale becomes the clamped product, the pan follows the focal-point formula when both coordinates are given, and ends within bounds |
| `Viewport.ZoomableImage.OnMouseWheel` | image-editer.py:141-144 | with an image, a wheel step sets the scale to the clamped product with 1.1 (positive delta) or 0.9, and each pan coordinate to the clamped focal-point pan about the pointer; scale and pan stay in bounds; without an image nothing changes |
| `Viewport.ZoomableImage.OnButtonPress` | image-editer.py:146-149 | with an image the anchor moves to the pointer, otherwise it stays |
| `Viewport.ZoomableImage.OnMovePress` | image-editer.py:151-160 | with an image the pan gains the pointer movement since the anchor and is clamped, and the anchor moves to the pointer; otherwise nothing changes |
| `Viewport.ZoomableImage.OnCanvasResize` | image-editer.py:162-163 | a resize re-clamps the pan against the new canvas size |
| `Text.ContainsIff` | image-editer.py:401 | the `in` test on a target succeeds exactly when "image" occurs somewhere in it |
| `EmbedScan.QuoteFrom` | image-editer.py:414 | the greedy `[^"]+` run ends at the first double quote at or after the start, or at the end of the text |
| `EmbedScan.MatchAt` | image-editer.py:414 | a capture at a position is non-empty, quote-free, and the full `<a:blip r:embed="` id `"` text occurs there |
| `EmbedScan.MatchAtComplete` | image-editer.py:414 | conversely, wherever the full text occurs with a valid id, the pattern matches there and captures exactly that id |
| `EmbedScan.EmbedIds` | image-editer.py:414 | one id per match of the scan, in order; each id is non-empty and quote-free and occurs at its match's start as `<a:blip r:embed="` id `"`, and the occurrences ascend without overlapping |
| `EmbedScan.MatchAtFits` | image-editer.py:414 | a successful attempt of this pattern never consumes text past the end, so the scan can resume after it |
| `EmbedScan.ScanSound` | image-editer.py:414 | for any pattern attempt fit for scanning, every reported match is a real match inside the text, and matches come in text order without overlapping |
| `EmbedScan.ScanComplete` | image-editer.py:414 | no match is skipped: every position where the attempt succeeds is the start of, or lies inside, a reported match |
| `EmbedScan.EmbedIdsComplete` | image-editer.py:414 | every occurrence of the pattern with a valid id in the text starts, or lies inside, one of the reported matches |
| `ImageOrder.WordPaths` | image-editer.py:415-417 | one path per regex id, in the same order; every path starts with `word/`, and cutting that prefix off gives the id back |
| `ImageOrder.RelImagePathsMembers` | image-editer.py:400-403 | a path is in the relationship tier exactly when it is `word/` plus a target that contains "image" |
| `ImageOrder.MediaMembersMembers` | image-editer.py:336 | a path is among the media files exactly when it is an archive member starting with `word/media/` |
| `ImageOrder.LexSortCorrect` | image-editer.py:425 | `sorted` returns the media members rearranged into ascending string order |
| `ImageOrder.GetImageOrder` | image-editer.py:393-427 | the two appending loops and the fallback produce exactly the resolved order |
| `ImageOrder.ImageOrderTiers` | image-editer.py:395-427 | when either tier is non-empty the order is the relationship tier followed by the regex tier, duplicates kept; only when both are empty is it the sorted media members |
| `ImageOrder.EmbedPathNotMedia` | image-editer.py:414-417 | a regex-tier path `word/<id>` is never a media member unless the id starts with `media/`, so extraction skips it |
| `Decimal.ParseDecimalOfDecimal` | image-editer.py:476 | `int(str(n)) == n` |
| `Decimal.ParseIgnoresLeadingZeros` | image-editer.py:476 | leading zeros do not change the value `int` reads |
| `Decimal.ZeroPad3RoundTrip` | image-editer.py:373 | the padded ordinal has at least 3 digits, exactly 3 below 1000, and reads back as the ordinal |
| `Extraction.ExtensionFor` | image-editer.py:361-370 | the extension is one of the six table values, `.jpg` for jpeg/jpg and `.png` for any unlisted type; the rest of the mapping is `ExtMap`, which is the table of image-editer.py:361-369 verbatim |
| `Extraction.OutputExtensionShape` | image-editer.py:361-369 | every table extension starts with a dot and holds no digit, slash or second dot |
| `Extraction.OutputNameKey` | image-editer.py:373 | the digit sort key of `f"{i:03d}{ext}"` is `i` |
| `Extraction.ZeroPad3Digits` | image-editer.py:373 | below 1000 the padded ordinal is its hundreds, tens and units digit |
| `Extraction.OutputNamesAscend` | image-editer.py:373 | for ordinals below 1000, a smaller ordinal gives a strictly smaller name as a string, whatever the extensions |
| `Extraction.PlanExtraction` | image-editer.py:347-380 | the plan holds exactly the entries that are media members and sniff as images, in order, each named after its 1-based position with the mapped extension |
| `Extraction.PlanNamesDistinct` | image-editer.py:373-378 | planned names are pairwise distinct and each name's digit key is its ordinal |
| `Extraction.ReloadKeepsOrdinalOrder` | image-editer.py:382-386 | loading the output folder after an extraction lists the files in ordinal order, whatever the directory order |
| `Extraction.ExtractImages` | image-editer.py:313-391 | the missing-input, non-.docx and unreadable-archive errors occur exactly in their cases; otherwise the result is the plan of the resolved order, or "no valid images" exactly when no entry is selected |
| `FolderSort.DigitsOfConcat` | image-editer.py:476 | the digits of a concatenation are the concatenated digits |
| `FolderSort.SortByCorrect` | image-editer.py:476 | the sort returns a rearrangement whose keys never decrease, and names sharing a key keep their listing order |
| `FolderSort.KeySortedUnique` | image-editer.py:476 | when no two names share a key, there is only one key-sorted arrangement of them |
| `FolderSort.SortRecoversKeyOrder` | image-editer.py:476 | names with strictly increasing keys come out of the sort in that order, whatever order they are listed in |
| `Paths.SplitExt` | image-editer.py:565 | the extension is non-empty exactly when the last dot comes after the last slash with a non-dot character between them, and then it is the suffix from that last dot; it holds no other dot and no slash |
| `Paths.JoinEndsWithName` | image-editer.py:582 | joining a plain file name ends the path with that name, after the last slash |
| `Paths.SplitExtOfJoin` | image-editer.py:580-582 | `splitext(join(folder, base + ext))` gives back `ext` for a plain, not-all-dots base |
| `Text.Strip` | image-editer.py:559 | the stripped name is a slice of the input, all cut characters are whitespace, and it neither starts nor ends with whitespace |
| `Text.StripBlank` | image-editer.py:559-562 | the stripped name is empty exactly when the input is all whitespace |
| `Browser.RenameExtension` | image-editer.py:564-578 | the current extension is kept when there is one; otherwise it is the table extension of the sniffed type, and `.png` when the type cannot be sniffed |
| `Browser.RenameDecision` | image-editer.py:554-592 | the checks run in the source's order, each exactly in its case: no current image, then a blank name, then an unchanged path, then an existing target, then a failed rename; only when all pass is the file renamed |
| `Browser.RenameKeepsExtension` | image-editer.py:564-582 | a successful rename with a plain, not-all-dots name keeps the file's extension |
| `Browser.ExtractorApp.constructor` | image-editer.py:175-177 | starts with no files, index 0 and no current path |
| `Browser.ExtractorApp.LoadImageFiles` | image-editer.py:450-482 | a missing folder path or folder leaves state alone; a folder that exists but cannot be listed empties the list and keeps index and path; otherwise the list is the image files of the listing sorted by digit key, the index is 0, and the path is the first file or empty |
| `Browser.ExtractorApp.PreviousImage` | image-editer.py:534-542 | the index drops by one and the path follows, except at the first image where nothing changes; an empty list resets index and path |
| `Browser.ExtractorApp.NextImage` | image-editer.py:544-552 | the index rises by one and the path follows, except at the last image where nothing changes; an empty list resets index and path |
| `Browser.ExtractorApp.SaveRename` | image-editer.py:554-598 | the outcome is the rename decision; on success only the current list entry and the current path change, otherwise nothing changes |

## Left out

- Tkinter: widgets, canvas drawing, the zoom-percentage text, message boxes, file dialogs and
  key bindings. The arrow-key bindings call `previous_image`/`next_image`, and `<Return>` in the
  name field calls `save_rename`; the canvas events call the `ZoomableImage` handlers. The model
  has those operations, not the bindings. `show_image`'s
  updates of the name and extension fields are left out.
- PIL: `Image.open`, the LANCZOS resize and `PhotoImage`. An image is modelled by its width
  and height. A failed load is `ClearImage`.
- Viewport.ZoomableImage.Zoom: scale and pan are exact reals, so the result ignores float
  rounding. The scale clamp is exact, but the focal-point pan of the source is a float
  computation.
- Viewport.FocalPanInverse: this holds over exact reals only. With floats, zooming back
  restores the pan only approximately.
- zipfile and python-docx parsing. The relationship targets, the `document.xml` text and the
  member names are inputs. A failed `Document(...)` or an unreadable `document.xml` (the
  `except: pass` paths) is the same as an empty input. The order of `doc.part.rels.values()`
  is whatever python-docx yields.
- `imghdr.what`: a parameter, on member names in extraction and as a boolean filter on
  listing names in `load_image_files`.
- Filesystem effects:
  - `os.makedirs`, clearing the output folder with `os.unlink`, writing the files,
    `os.rename` and `open_image_folder` (`os.startfile`/`xdg-open`) are not performed.
  - Existence is a set of paths, and rename success is a flag.
  - A failed write or folder creation during extraction, which the source reports as an
    error, is not modelled. Only an unreadable archive is.
  - `ReloadKeepsOrdinalOrder` assumes that the folder then holds exactly the written files.
- The browser model does not drive `ZoomableImage`. `show_image` calls `set_image`
  (image-editer.py:496), which resets scale and pan, and `show_completion_message` calls
  `show_message` (image-editer.py:529), which drops the preview image. Both effects exist in the
  model as `SetImage` and `ClearImage`, but the `ExtractorApp` methods do not call them.
- Extraction.ExtractImages: on success the source reloads the browser from the output folder
  (`load_image_files(output_folder)`, image-editer.py:386), replacing its list, index and path.
  The model returns the plan without touching `ExtractorApp`; `ReloadKeepsOrdinalOrder` states
  only the order that reload produces.
- Browser.ExtractorApp.SaveRename: `imghdr.what` on the current file is outside the `try`
  block, so an exception there is not modelled. The sniffed type is an input.
- `os.path` uses POSIX semantics only. The Windows rules (`ntpath`) are not modelled.
- FolderSort.DigitsOf: only ASCII digits are digits. Python's `str.isdigit` also accepts
  other Unicode digits.
- The order of the folder listing comes from `os.listdir` and is an input.
