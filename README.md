# Browser file tools — a Dafny model of the page logic

The repository is a set of browser tool pages: PDF split, delete pages,
merge, rotate and PDF-to-image; bulk image conversion, image compression
and cropping; text and HTML to PDF; and the theme switch of the navigation
bar. The file formats themselves are handled by pdf-lib, pdfjs, jsPDF,
html2canvas, canvas and JSZip. This model covers the logic each page keeps
around those calls:

- the page-range parser shared by the split and delete-pages tools
  (`PageRange`, with worked examples in `PageRangeExamples`), the split
  tool's ascending sort and the delete tool's list of pages to keep;
- the intake handlers of every page: which files are taken, the filtered
  append and remove-by-index of the multi-file lists, and the status and
  error message each page shows (`Tool` and one class per page);
- the merged page order, the additive rotation, the per-page image names,
  the bulk converter's archive and progress, the compression format and
  output names, the crop selection state machine, the pagination of wrapped
  text, the HTML wrap rule and page count, and the navigation bar's theme
  toggle with storage held as a map.

Each page is a class whose fields are the page's React state (`file`,
`status`, `errorMsg`, …) and whose methods are its handlers. Whatever a
library gives back is a parameter of the handler: a page count or `None`
when loading throws, an encoder that yields a blob, null or a throw, a
`written` flag for saving. The string operations of JavaScript that the
pages depend on (`trim`, `split`, `replace`, the file-name regular
expressions, `Number`, template literals for numbers) are in `Strings` and
`JsNumber`.

The code adds the selected rotation to each page's angle and does no
reduction modulo 360 (src/app/tools/pdf-rotate/page.tsx:52-55);
`PdfRotate.RotatedTwice` proves that rotations add up.

## Model

| member | source | states |
|---|---|---|
| `Tool.Accepted` | src/app/tools/pdf-merge/page.tsx:15 | the filtered intake list holds exactly the chosen files that pass the type test, and is no longer than the choice |
| `Tool.AcceptedAppend` | src/app/tools/bulk-image-converter/page.tsx:17 | filtering keeps selection order: filtering a joined list is joining the filtered parts |
| `Tool.AcceptedAll` | src/app/tools/pdf-merge/page.tsx:29 | a choice of files that all pass the type test is taken whole, in order |
| `Tool.RemoveAt` | src/app/tools/pdf-merge/page.tsx:42-44 | removing index i drops exactly the element at i and keeps the others in order; an index outside the list changes nothing |
| `Tool.BaseName` | src/app/tools/txt-to-pdf/page.tsx:72 | the converters' base name is never empty |
| `Tool.BaseNameOfExtension` | src/app/tools/html-to-pdf/page.tsx:125 | only the last extension is removed ("a.tar.gz" gives "a.tar"), and a name that is only an extension gives "document" |
| `Tool.BaseNameWithoutDot` | src/app/tools/txt-to-pdf/page.tsx:72 | a name without a dot is its own base name |
| `Strings.Trim` | src/app/tools/pdf-split/page.tsx:45 | trim gives the infix of the text between its leading and trailing JavaScript white space, and has no white space at either end |
| `Strings.TrimIdempotent` | src/app/tools/pdf-split/page.tsx:65 | trimming twice is trimming once |
| `Strings.Split` | src/app/tools/pdf-split/page.tsx:42 | splitting gives at least one piece, no piece holds the separator, and more than one piece exactly when the separator occurs |
| `Strings.JoinSplit` | src/app/tools/pdf-split/page.tsx:42 | joining the pieces with the separator gives back the text |
| `Strings.SplitJoin` | src/app/tools/pdf-delete-pages/page.tsx:42 | splitting a join of separator-free pieces gives the pieces back |
| `Strings.RemoveFirst` | src/app/tools/pdf-split/page.tsx:97 | a string replace removes only the first occurrence of the pattern, and leaves a text without it unchanged |
| `Strings.StripPdfSuffix` | src/app/tools/pdf-to-image/page.tsx:68 | a final ".pdf" in any letter case is removed, and nothing else is |
| `Strings.StripLastExtension` | src/app/tools/txt-to-pdf/page.tsx:72 | the last '.' and the non-empty dot-free text after it are removed; a name without a dot or ending in '.' is unchanged |
| `Strings.BeforeFirstDot` | src/app/tools/bulk-image-converter/page.tsx:82 | the first piece of a split on '.' is the longest dot-free prefix of the name |
| `Strings.BeforeFirstDotOfStem` | src/app/tools/image-compress/page.tsx:72 | a dot-free stem followed by '.' and anything is cut back to the stem |
| `Strings.NatToDecimal` | src/app/tools/pdf-split/page.tsx:82 | a number written in a template literal is a digit string without leading zero whose value is the number |
| `Strings.NatToDecimalInjective` | src/app/tools/pdf-to-image/page.tsx:87 | different numbers are written differently |
| `JsNumber.ToNumber` | src/app/tools/pdf-split/page.tsx:54 | Number gives 0 for blank text, NaN exactly when the trimmed text is not an optionally signed decimal integer, and otherwise the decimal value of its digits (leading zeros and a '+' ignored, negated after a '-') |
| `JsNumber.NumberOfDecimal` | src/app/tools/pdf-rotate/page.tsx:118 | Number reads a written number back as itself |
| `PageRange.ParsePages` | src/app/tools/pdf-delete-pages/page.tsx:40-60 | the delete tool's parser returns the Set of collected pages in first-insertion order |
| `PageRange.CollectTokens` | src/app/tools/pdf-delete-pages/page.tsx:43-58 | the loop over the comma-separated parts adds each trimmed token's pages in turn |
| `PageRange.AddToken` | src/app/tools/pdf-split/page.tsx:45-58 | a token with a hyphen is read as a range, any other as a single page |
| `PageRange.AddRangeToken` | src/app/tools/pdf-split/page.tsx:46-52 | a range token reads the first two pieces of its split on '-', and a NaN at either end adds nothing |
| `PageRange.AddPageToken` | src/app/tools/pdf-split/page.tsx:53-57 | a single token adds its page only when its number is not NaN and lies in [1, maxPages] |
| `PageRange.AddRange` | src/app/tools/pdf-split/page.tsx:49-51 | the inner loop adds page i-1 for each i from start to end that lies in [1, maxPages], in order |
| `PageRange.Insert` | src/app/tools/pdf-split/page.tsx:60 | inserting into the sorted list adds exactly the one element |
| `PageRange.SortAscending` | src/app/tools/pdf-split/page.tsx:60 | the numeric sort is a permutation of its input |
| `PageRange.SortedDistinct` | src/app/tools/pdf-split/page.tsx:60 | sorting a duplicate-free list gives a strictly ascending list of the same pages |
| `PageRange.SortAscendingNoop` | src/app/tools/pdf-split/page.tsx:60 | sorting an already ascending list changes nothing |
| `PageRange.ParsePageRange` | src/app/tools/pdf-split/page.tsx:40-61 | the split tool's parser returns the collected pages sorted ascending |
| `PageRange.SelectionValid` | src/app/tools/pdf-split/page.tsx:41-60 | the split selection is strictly ascending, duplicate-free, within [0, maxPages-1], and holds exactly the collected pages |
| `PageRange.CollectedValid` | src/app/tools/pdf-delete-pages/page.tsx:41-59 | every collected page lies in [0, maxPages-1] and none repeats |
| `PageRange.CollectedMembers` | src/app/tools/pdf-split/page.tsx:44-58 | a page is collected exactly when some token asks for it: a bad token is dropped without spoiling the rest |
| `PageRange.CollectedPrefix` | src/app/tools/pdf-delete-pages/page.tsx:43-59 | pages asked for by earlier tokens come first; later tokens only append (first-insertion order, not sorted) |
| `PageRange.AddAllKeepsPrefix` | src/app/tools/pdf-delete-pages/page.tsx:49 | adding to the Set keeps what was there, in place |
| `PageRange.RangeIndicesMembers` | src/app/tools/pdf-split/page.tsx:49-50 | a range offers page x exactly when start <= x+1 <= end and x < maxPages, ascending |
| `PageRange.TokenIndicesMembers` | src/app/tools/pdf-split/page.tsx:46-57 | what one token asks for: a range its pages between both numbers, a single token the page its number names, never a page outside the document |
| `PageRange.KeeperIndices` | src/app/tools/pdf-delete-pages/page.tsx:91-96 | the keeper loop pushes every i < total that is not among the deleted pages, in order |
| `PageRange.KeepersMembers` | src/app/tools/pdf-delete-pages/page.tsx:91-96 | a page is kept exactly when it is in [0, total) and not deleted |
| `PageRange.KeepersAscending` | src/app/tools/pdf-delete-pages/page.tsx:92-95 | the kept pages are strictly ascending |
| `PageRange.KeepersPartition` | src/app/tools/pdf-delete-pages/page.tsx:91-102 | kept and deleted pages are disjoint and cover the document; nothing is kept exactly when every page is deleted |
| `PageRangeExamples.SingleToken` | src/app/tools/pdf-split/page.tsx:53-57 | a token "n" offers page n-1 when 1 <= n <= maxPages, and nothing otherwise |
| `PageRangeExamples.RangeToken` | src/app/tools/pdf-split/page.tsx:46-51 | a token "a-b" offers the in-document pages from a to b |
| `PageRangeExamples.DescendingRangeIsEmpty` | src/app/tools/pdf-split/page.tsx:49 | "5-2" offers no page |
| `PageRangeExamples.ExtraHyphenPiecesIgnored` | src/app/tools/pdf-split/page.tsx:47 | "1-2-3" is the range 1-2 |
| `PageRangeExamples.EmptyStartIsZero` | src/app/tools/pdf-delete-pages/page.tsx:46 | "-3" has start 0, so it is the range 0-3 |
| `PageRangeExamples.EmptyTokenDropped` | src/app/tools/pdf-split/page.tsx:54-55 | an empty token reads as 0 and is dropped |
| `PageRangeExamples.SplitTwoFiveSeven` | src/app/tools/pdf-split/page.tsx:40-61 | "2,5-7" on ten pages gives [1, 4, 5, 6] |
| `PageRangeExamples.DeleteKeepsInsertionOrder` | src/app/tools/pdf-delete-pages/page.tsx:40-60 | the delete parser on "5,2" gives [4, 1], unsorted |
| `PageRangeExamples.DeleteAllPagesKeepsNothing` | src/app/tools/pdf-delete-pages/page.tsx:91-98 | deleting "1-3" from three pages leaves nothing to keep |
| `PdfSplit.SplitNameOfPdf` | src/app/tools/pdf-split/page.tsx:97 | a name whose only ".pdf" is its end becomes split_ + name without it + .pdf |
| `PdfSplit.SplitNameWithoutPdf` | src/app/tools/pdf-split/page.tsx:97 | the replacement is case-sensitive: a name without ".pdf" is kept whole |
| `PdfSplit.SplitNameRemovesFirstOnly` | src/app/tools/pdf-split/page.tsx:97 | only the first ".pdf" is removed |
| `PdfSplit.PdfSplitPage.constructor` | src/app/tools/pdf-split/page.tsx:8-11 | no file, empty page text, status idle, no error |
| `PdfSplit.PdfSplitPage.HandleFileChange` | src/app/tools/pdf-split/page.tsx:14-24 | a chosen PDF replaces the file and clears status and error; a chosen non-PDF clears the file and sets an error |
| `PdfSplit.PdfSplitPage.HandleDrop` | src/app/tools/pdf-split/page.tsx:26-36 | a dropped PDF replaces the file; a dropped non-PDF keeps the file and sets an error |
| `PdfSplit.PdfSplitPage.SetPageRange` | src/app/tools/pdf-split/page.tsx:153 | typing sets the page text and nothing else |
| `PdfSplit.PdfSplitPage.HandleSplit` | src/app/tools/pdf-split/page.tsx:63-107 | blank text is refused before loading with status unchanged; an empty selection names the page count and resets status to idle; otherwise the output holds exactly the sorted selection under split_<name>.pdf; a library failure sets status error |
| `PdfDeletePages.PdfDeletePagesPage.constructor` | src/app/tools/pdf-delete-pages/page.tsx:8-11 | no file, empty page text, status idle, no error |
| `PdfDeletePages.PdfDeletePagesPage.HandleFileChange` | src/app/tools/pdf-delete-pages/page.tsx:14-24 | a chosen non-PDF clears the held file and sets an error |
| `PdfDeletePages.PdfDeletePagesPage.HandleDrop` | src/app/tools/pdf-delete-pages/page.tsx:26-36 | a dropped non-PDF keeps the held file and sets an error |
| `PdfDeletePages.PdfDeletePagesPage.SetPagesToDelete` | src/app/tools/pdf-delete-pages/page.tsx:169 | typing sets the page text and nothing else |
| `PdfDeletePages.PdfDeletePagesPage.HandleDelete` | src/app/tools/pdf-delete-pages/page.tsx:62-124 | blank text is refused before loading; an empty deletion and a deletion of every page give their two distinct messages with status idle; otherwise the output holds exactly the pages not deleted, ascending, under deleted_pages_<name> |
| `PdfMerge.PagesOf` | src/app/tools/pdf-merge/page.tsx:62 | a file's pages are its indices 0..count-1 in order |
| `PdfMerge.Merged` | src/app/tools/pdf-merge/page.tsx:59-64 | the merged document has as many pages as the files together |
| `PdfMerge.MergedAt` | src/app/tools/pdf-merge/page.tsx:59-64 | page j of file f sits at the total page count of the earlier files plus j |
| `PdfMerge.MergedLayout` | src/app/tools/pdf-merge/page.tsx:59-64 | the merged document is each file's pages, in list order, then in page order |
| `PdfMerge.MergeTwoAndThree` | src/app/tools/pdf-merge/page.tsx:59-64 | a 2-page and a 3-page file give 5 pages, the first file's first |
| `PdfMerge.LoadAll` | src/app/tools/pdf-merge/page.tsx:60-61 | loading succeeds exactly when every file loads, and gives each file's page count |
| `PdfMerge.PdfMergePage.constructor` | src/app/tools/pdf-merge/page.tsx:8-10 | an empty list, status idle, no error |
| `PdfMerge.PdfMergePage.HandleFileChange` | src/app/tools/pdf-merge/page.tsx:13-24 | the chosen PDFs are appended in order and status and error are cleared; with none the list stays and an error is set |
| `PdfMerge.PdfMergePage.HandleDrop` | src/app/tools/pdf-merge/page.tsx:26-38 | the dropped PDFs are appended in order; with none the list stays and an error is set |
| `PdfMerge.PdfMergePage.RemoveFile` | src/app/tools/pdf-merge/page.tsx:42-44 | exactly the file at the index goes, the rest keep their order |
| `PdfMerge.PdfMergePage.HandleMerge` | src/app/tools/pdf-merge/page.tsx:46-82 | fewer than two files is refused with status unchanged; any load or save failure sets the merge error; otherwise the output is the merged page order |
| `PdfRotate.Rotated` | src/app/tools/pdf-rotate/page.tsx:52-55 | every page's new angle is its old angle plus the rotation; page count and order are unchanged |
| `PdfRotate.RotatedTwice` | src/app/tools/pdf-rotate/page.tsx:53-54 | rotations add up, with no reduction modulo 360 |
| `PdfRotate.QuarterTurns` | src/app/tools/pdf-rotate/page.tsx:53-54 | 90 twice from 0 gives 180; four times gives 360 |
| `PdfRotate.OptionNumbers` | src/app/tools/pdf-rotate/page.tsx:118-122 | each option of the select is read as 90, 180 or 270 |
| `PdfRotate.RotateAll` | src/app/tools/pdf-rotate/page.tsx:52-55 | the in-place loop leaves the page angles rotated |
| `PdfRotate.PdfRotatePage.constructor` | src/app/tools/pdf-rotate/page.tsx:8-11 | the rotation starts at 90 |
| `PdfRotate.PdfRotatePage.HandleFileChange` | src/app/tools/pdf-rotate/page.tsx:14-24 | a chosen non-PDF clears the held file and sets an error |
| `PdfRotate.PdfRotatePage.HandleDrop` | src/app/tools/pdf-rotate/page.tsx:26-36 | a dropped non-PDF keeps the held file and sets an error |
| `PdfRotate.PdfRotatePage.SetRotation` | src/app/tools/pdf-rotate/page.tsx:118 | the rotation is always one of 90, 180, 270 |
| `PdfRotate.PdfRotatePage.HandleRotate` | src/app/tools/pdf-rotate/page.tsx:40-73 | the loaded pages are rotated and saved as rotated_<name>; any failure sets "Failed to rotate PDF." and status error |
| `PdfToImage.InitialFormat` | src/app/tools/pdf-to-image/page.tsx:8-11 | the format is JPG exactly when the query value is "jpg" |
| `PdfToImage.EncodingOf` | src/app/tools/pdf-to-image/page.tsx:66-67 | JPG is image/jpeg at quality 0.92; PNG is image/png with no quality |
| `PdfToImage.BaseNameDropsPdf` | src/app/tools/pdf-to-image/page.tsx:68 | a final ".pdf" in any letter case is removed |
| `PdfToImage.BaseNameKeepsInnerPdf` | src/app/tools/pdf-to-image/page.tsx:68 | a ".pdf" that is not at the end is kept |
| `PdfToImage.SinglePageName` | src/app/tools/pdf-to-image/page.tsx:87 | a one-page document's image is named base.format |
| `PdfToImage.PageNamesDistinct` | src/app/tools/pdf-to-image/page.tsx:87 | with several pages, different pages get different names |
| `PdfToImage.FirstThrow` | src/app/tools/pdf-to-image/page.tsx:70-90 | the first page whose rendering throws, every earlier page rendered |
| `PdfToImage.Downloads` | src/app/tools/pdf-to-image/page.tsx:70-90 | one download per page that gives a blob, in page order, named after its page |
| `PdfToImage.DownloadsCover` | src/app/tools/pdf-to-image/page.tsx:83 | every page that gives a blob is downloaded; null pages are skipped and the loop goes on |
| `PdfToImage.DownloadNamesDistinct` | src/app/tools/pdf-to-image/page.tsx:87 | no two downloads of a conversion share a name |
| `PdfToImage.ConvertPages` | src/app/tools/pdf-to-image/page.tsx:70-90 | the page loop gives the downloads up to the first throw, and that throw |
| `PdfToImage.PdfToImagePage.constructor` | src/app/tools/pdf-to-image/page.tsx:14-22 | the format starts from the query |
| `PdfToImage.PdfToImagePage.QueryChanged` | src/app/tools/pdf-to-image/page.tsx:17-19 | a new query resets the format |
| `PdfToImage.PdfToImagePage.SetFormat` | src/app/tools/pdf-to-image/page.tsx:143 | choosing a format changes only the format |
| `PdfToImage.PdfToImagePage.HandleFileChange` | src/app/tools/pdf-to-image/page.tsx:25-35 | a chosen non-PDF clears the held file and sets an error |
| `PdfToImage.PdfToImagePage.HandleDrop` | src/app/tools/pdf-to-image/page.tsx:37-47 | a dropped non-PDF keeps the held file and sets an error |
| `PdfToImage.PdfToImagePage.HandleConvert` | src/app/tools/pdf-to-image/page.tsx:51-96 | the pages are downloaded in order up to any throw; a throw shows the Error's message or "Conversion failed" and sets status error |
| `BulkImageConverter.MimeOf` | src/app/tools/bulk-image-converter/page.tsx:75 | jpg is image/jpeg, webp image/webp, png image/png |
| `BulkImageConverter.EntryName` | src/app/tools/bulk-image-converter/page.tsx:82 | an entry is named after the text before the first '.', plus '.' and the format |
| `BulkImageConverter.EntryNameCutsAtFirstDot` | src/app/tools/bulk-image-converter/page.tsx:82 | everything from the first dot on is replaced |
| `BulkImageConverter.ProgressMonotone` | src/app/tools/bulk-image-converter/page.tsx:86 | the progress percentage never goes down |
| `BulkImageConverter.ProgressBounds` | src/app/tools/bulk-image-converter/page.tsx:86 | progress starts at 0, is 100 after the last file, and never exceeds 100 |
| `BulkImageConverter.FirstThrow` | src/app/tools/bulk-image-converter/page.tsx:62-88 | the first file whose encoding throws, every earlier file encoded |
| `BulkImageConverter.ZipStep` | src/app/tools/bulk-image-converter/page.tsx:81-84 | a file's blob goes under its entry name; a null blob adds nothing |
| `BulkImageConverter.ZipNames` | src/app/tools/bulk-image-converter/page.tsx:81-84 | the archive has an entry exactly for the entry names of the files that gave a blob |
| `BulkImageConverter.ZipLastWins` | src/app/tools/bulk-image-converter/page.tsx:83 | of files with the same entry name, the last one encoded fills the entry |
| `BulkImageConverter.EncodeAll` | src/app/tools/bulk-image-converter/page.tsx:62-88 | the sequential loop gives the archive of all files, one progress value per file, or stops at the first throw |
| `BulkImageConverter.ProgressShown` | src/app/tools/bulk-image-converter/page.tsx:86 | the value shown after file i is round((i+1)/n*100) |
| `BulkImageConverter.ProgressShownStep` | src/app/tools/bulk-image-converter/page.tsx:86 | each file done adds one progress value |
| `BulkImageConverter.ShownAscending` | src/app/tools/bulk-image-converter/page.tsx:86 | the progress values shown never decrease |
| `BulkImageConverter.BulkImageConverterPage.constructor` | src/app/tools/bulk-image-converter/page.tsx:8-12 | an empty list, PNG, status idle, progress 0 |
| `BulkImageConverter.BulkImageConverterPage.HandleFileChange` | src/app/tools/bulk-image-converter/page.tsx:15-26 | the chosen images are appended in order; with none the list stays and an error is set |
| `BulkImageConverter.BulkImageConverterPage.HandleDrop` | src/app/tools/bulk-image-converter/page.tsx:28-40 | the dropped images are appended in order; with none the list stays and an error is set |
| `BulkImageConverter.BulkImageConverterPage.RemoveFile` | src/app/tools/bulk-image-converter/page.tsx:44-46 | exactly the file at the index goes |
| `BulkImageConverter.BulkImageConverterPage.SetFormat` | src/app/tools/bulk-image-converter/page.tsx:178 | choosing a format changes only the format |
| `BulkImageConverter.BulkImageConverterPage.HandleConvert` | src/app/tools/bulk-image-converter/page.tsx:48-104 | an empty list is refused with "Please select images." and status unchanged; progress ends at 100; the archive holds each converted file under its entry name; a failure sets status error |
| `ImageCompress.DefaultFormat` | src/app/tools/image-compress/page.tsx:23-24 | WebP is chosen exactly for a WebP image |
| `ImageCompress.Extension` | src/app/tools/image-compress/page.tsx:71 | the extension is "jpg" exactly for image/jpeg, else "webp" |
| `ImageCompress.CompressedNameOfStem` | src/app/tools/image-compress/page.tsx:72 | the output is compressed_ + text before the first '.' + '.' + extension |
| `ImageCompress.ImageCompressPage.constructor` | src/app/tools/image-compress/page.tsx:8-12 | quality 0.8, JPEG, status idle |
| `ImageCompress.ImageCompressPage.HandleFileChange` | src/app/tools/image-compress/page.tsx:16-29 | a chosen image sets the format from its type and clears status and error; a chosen non-image clears the file and sets an error |
| `ImageCompress.ImageCompressPage.HandleDrop` | src/app/tools/image-compress/page.tsx:31-44 | a dropped non-image keeps the file and sets an error |
| `ImageCompress.ImageCompressPage.SetQuality` | src/app/tools/image-compress/page.tsx:130-134 | the quality stays within the slider's 0.1 to 1 |
| `ImageCompress.ImageCompressPage.SetFormat` | src/app/tools/image-compress/page.tsx:143 | choosing a format changes only the format |
| `ImageCompress.ImageCompressPage.HandleCompress` | src/app/tools/image-compress/page.tsx:48-87 | a blob is downloaded under the compressed name with status done; a null blob "Compression failed."; a throw "Processing failed."; an image that never loads leaves status processing |
| `ImageCrop.Clamp` | src/app/tools/image-crop/page.tsx:51-52 | the current point is clamped into [0, limit] and kept when already inside |
| `ImageCrop.Spanned` | src/app/tools/image-crop/page.tsx:54-59 | the selection's corner is the component-wise minimum of start and current and its size their distance, never negative |
| `ImageCrop.SpannedSymmetric` | src/app/tools/image-crop/page.tsx:54-57 | the selection does not depend on which corner the drag started from |
| `ImageCrop.SpannedInside` | src/app/tools/image-crop/page.tsx:51-57 | a drag started inside the image gives a selection inside the image |
| `ImageCrop.ImageCropPage.constructor` | src/app/tools/image-crop/page.tsx:8-16 | no file, no selection, not dragging |
| `ImageCrop.ImageCropPage.HandleFileChange` | src/app/tools/image-crop/page.tsx:22-34 | a new image resets the selection, status and error |
| `ImageCrop.ImageCropPage.ChooseDifferentImage` | src/app/tools/image-crop/page.tsx:158 | only the file is let go |
| `ImageCrop.ImageCropPage.HandleMouseDown` | src/app/tools/image-crop/page.tsx:36-45 | the drag starts at the point with an empty selection there |
| `ImageCrop.ImageCropPage.HandleMouseMove` | src/app/tools/image-crop/page.tsx:47-60 | only while dragging from a start point, the selection becomes the clamped spanned rectangle |
| `ImageCrop.ImageCropPage.HandleMouseUp` | src/app/tools/image-crop/page.tsx:62-64 | the drag ends and the selection stays |
| `ImageCrop.ImageCropPage.HandleCrop` | src/app/tools/image-crop/page.tsx:66-119 | without file or selection, or under 5 by 5, nothing happens; otherwise the encoder's blob is downloaded as cropped_<name> or the failure is reported; an image that never loads leaves status processing |
| `TxtToPdf.BreakIfFull` | src/app/tools/txt-to-pdf/page.tsx:64-67 | a page is added exactly when y + lineHeight > pageH - margin, and y goes back to the margin |
| `TxtToPdf.Paginate` | src/app/tools/txt-to-pdf/page.tsx:61-70 | every wrapped line is placed once, in order, at its computed page and y; the page count follows the last line |
| `TxtToPdf.NextPlace` | src/app/tools/txt-to-pdf/page.tsx:64-69 | each line goes one line height below the previous one, or to the top margin of the next page when it would pass the bottom margin |
| `TxtToPdf.FirstPlace` | src/app/tools/txt-to-pdf/page.tsx:61-67 | the first line goes at the margin, or on a second page when the page cannot hold one line |
| `TxtToPdf.PlacesWithinMargins` | src/app/tools/txt-to-pdf/page.tsx:64-69 | every line is at or below the top margin and, when a line fits between the margins, ends above the bottom margin |
| `TxtToPdf.PagesInOrder` | src/app/tools/txt-to-pdf/page.tsx:64-67 | the next line is on the same page or the next one |
| `TxtToPdf.FirstPageHolds` | src/app/tools/txt-to-pdf/page.tsx:61-69 | the lines that fit on the first page are lineHeight apart from the margin |
| `TxtToPdf.Filled` | src/app/tools/txt-to-pdf/page.tsx:60 | empty text becomes ' ' and other text is kept |
| `TxtToPdf.TxtToPdfPage.constructor` | src/app/tools/txt-to-pdf/page.tsx:9-11 | no file, status idle |
| `TxtToPdf.TxtToPdfPage.HandleFileChange` | src/app/tools/txt-to-pdf/page.tsx:14-21 | any file is taken and clears status and error |
| `TxtToPdf.TxtToPdfPage.HandleDrop` | src/app/tools/txt-to-pdf/page.tsx:23-31 | any dropped file is taken |
| `TxtToPdf.TxtToPdfPage.HandleConvert` | src/app/tools/txt-to-pdf/page.tsx:43-79 | the wrapped lines are paginated into <base name>.pdf; a read failure shows its message |
| `HtmlToPdf.Wrap` | src/app/tools/html-to-pdf/page.tsx:63-65 | a full document passes through; anything else becomes the body of the template |
| `HtmlToPdf.TemplateIsFullDocument` | src/app/tools/html-to-pdf/page.tsx:65 | the template itself starts with <!DOCTYPE |
| `HtmlToPdf.WrapKeepsOnlyFullDocuments` | src/app/tools/html-to-pdf/page.tsx:63-65 | the text is unchanged exactly when it is a full document |
| `HtmlToPdf.WrapIdempotent` | src/app/tools/html-to-pdf/page.tsx:63-65 | wrapping twice is wrapping once |
| `HtmlToPdf.Ceil` | src/app/tools/html-to-pdf/page.tsx:106 | the ceiling is the least integer not below its argument |
| `HtmlToPdf.ScaledHeight` | src/app/tools/html-to-pdf/page.tsx:104-105 | the scaled height is not negative, and no taller than the page is wide for a picture no taller than wide |
| `HtmlToPdf.PageCount` | src/app/tools/html-to-pdf/page.tsx:106 | at least one page, enough pages for the picture, and no page more than needed |
| `HtmlToPdf.PageCountOfShortPicture` | src/app/tools/html-to-pdf/page.tsx:106 | a picture no taller than a page takes one page |
| `HtmlToPdf.HtmlToPdfPage.constructor` | src/app/tools/html-to-pdf/page.tsx:10-12 | no file, status idle |
| `HtmlToPdf.HtmlToPdfPage.HandleFileChange` | src/app/tools/html-to-pdf/page.tsx:15-22 | any file is taken and clears status and error |
| `HtmlToPdf.HtmlToPdfPage.HandleDrop` | src/app/tools/html-to-pdf/page.tsx:24-32 | any dropped file is taken |
| `HtmlToPdf.HtmlToPdfPage.HandleConvert` | src/app/tools/html-to-pdf/page.tsx:74-135 | the wrapped markup is rendered into at least one page of <base name>.pdf; each failure shows its Error's message or "Conversion failed" |
| `Navbar.SavedTheme` | src/components/Navbar.tsx:12 | a stored theme is read exactly when one is stored |
| `Navbar.WithTheme` | src/components/Navbar.tsx:26-30 | data-theme="dark" is present exactly when dark; other attributes are untouched |
| `Navbar.WithStoredTheme` | src/components/Navbar.tsx:28-31 | the stored theme is 'dark' when dark and 'light' otherwise; other keys are untouched |
| `Navbar.StoredLightWins` | src/components/Navbar.tsx:15 | a stored 'light' overrides a dark system preference |
| `Navbar.NothingStoredFollowsSystem` | src/components/Navbar.tsx:15 | with nothing stored the system preference decides |
| `Navbar.StoredChoiceIsRestored` | src/components/Navbar.tsx:12-31 | what a toggle stores is what the next start restores |
| `Navbar.LastThemeWins` | src/components/Navbar.tsx:26-30 | of two attribute writes the last one decides |
| `Navbar.NavbarState.constructor` | src/components/Navbar.tsx:8 | the bar starts light |
| `Navbar.NavbarState.InitTheme` | src/components/Navbar.tsx:10-20 | the page turns dark exactly when stored 'dark', or nothing stored and the system prefers dark; storage is never written |
| `Navbar.NavbarState.ToggleTheme` | src/components/Navbar.tsx:22-33 | the toggle flips the theme and writes the attribute and the storage to match |

## Left out

- pdf-lib, pdfjs, jsPDF (including its line wrapping), html2canvas, JSZip and
  canvas drawing and encoding: each is a parameter of the handler that calls
  it (a page count, a blob or null, a throw, a `written` flag).
- Downloads: the anchor click, object URLs and their delayed revocation are
  not modelled; a handler returns the file name and contents it would save
  (the rotate tool returns the name, and its contents are the page array it
  rotates in place).
- Timestamps in output names (`Date.now()`) are a parameter `now`.
- Promises and timers: every handler runs to completion in one step; the
  HTML frame's load event and its 2-second fallback are not modelled. The
  image compressor and cropper wait for the image's load event with no
  error handler; their `decoded` parameter models an image that never
  loads, which leaves the page processing with no message.
- BulkImageConverter.BulkImageConverterPage.HandleConvert: the converter
  also waits for each image's load event with no error handler, so an
  image that fails to decode leaves the page processing forever with no
  message. The model takes every image as loaded and does not capture
  that hang.
- JsNumber.ToNumber: decimal fractions, exponents, hexadecimal and
  `Infinity` read as NaN here; in JavaScript they are numbers, and "1-Infinity"
  never terminates. Only integer tokens, empty tokens and non-numeric tokens
  are modelled.
- The image-resize page: its aspect ratio and percentage scaling are
  floating-point rounding.
- The crop tool's mapping of the selection to natural image coordinates, the
  HTML page slicing loop and the DPI scale of PDF-to-image are floating-point
  geometry. The crop coordinates and the HTML heights are exact reals here.
- BulkImageConverter.ProgressShown: `Math.round` of a floating-point
  quotient is computed exactly as floor((200k + n) / 2n). Floating-point
  rounding near .5 may differ for very large lists.
- HtmlToPdf.ScaledHeight: the canvas width is assumed positive, since
  the frame is 800 pixels wide.
- PdfRotate.PdfRotatePage.SetRotation: takes only the values the select
  offers.
- ImageCompress.ImageCompressPage.SetQuality: takes only the values the
  slider can produce.
- Pure markup pages (home page, layout, error and loading pages) have no
  logic to model.
