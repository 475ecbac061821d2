/**
 * The PDF split page: one PDF file, the text of the pages to extract,
 * and the status and error message the page shows. Splitting loads the
 * document (its page count), parses the text against that count and
 * copies the selected pages, in ascending order, into a new document.
 */
module PdfSplit {
  import opened Wrappers
  import opened Strings
  import opened JsNumber
  import opened PageRange
  import opened Tool

  /** The document handed to the download link: the indices of the pages
      copied into it, in order, and its file name. */
  datatype SplitOutput = SplitOutput(pages: seq<nat>, name: string)

  /** `split_${name.replace('.pdf', '')}.pdf`. */
  function SplitName(name: string): string
  {
    "split_" + RemoveFirst(name, ".pdf") + ".pdf"
  }

  /** When the only ".pdf" in a name is its final extension, the split
      document is named after the name without it. */
  lemma SplitNameOfPdf(name: string)
    requires |name| >= 4 && OccursAt(name, ".pdf", |name| - 4)
    requires forall k: nat | k < |name| - 4 :: !OccursAt(name, ".pdf", k)
    ensures SplitName(name) == "split_" + name[..|name| - 4] + ".pdf"
  {
    assert name[|name| - 4 + 4..] == [];
  }

  /** A name without ".pdf" in it is kept whole, so "scan.PDF" gives
      "split_scan.PDF.pdf": the replacement is case-sensitive. */
  lemma SplitNameWithoutPdf(name: string)
    requires forall k: nat :: !OccursAt(name, ".pdf", k)
    ensures SplitName(name) == "split_" + name + ".pdf"
  {
  }

  /** Only the first ".pdf" is removed: a dot-free stem followed by
      ".pdf.pdf" keeps its second ".pdf", and gains a third. */
  lemma SplitNameRemovesFirstOnly(stem: string)
    requires '.' !in stem
    ensures SplitName(stem + ".pdf.pdf") == "split_" + stem + ".pdf.pdf"
  {
    RemoveFirstPdf(stem);
    assert stem + ".pdf.pdf" == stem + ".pdf" + ".pdf";
  }

  /** The step of SplitNameRemovesFirstOnly that finds the first ".pdf". */
  lemma RemoveFirstPdf(stem: string)
    requires '.' !in stem
    ensures RemoveFirst(stem + ".pdf.pdf", ".pdf") == stem + ".pdf"
  {
    var name := stem + ".pdf.pdf";
    assert OccursAt(name, ".pdf", |stem|) by {
      assert name[|stem|..|stem| + 4] == ".pdf";
    }
    forall k: nat | k < |stem|
      ensures !OccursAt(name, ".pdf", k)
    {
      assert name[k] == stem[k];
    }
    assert name[..|stem|] == stem;
    assert name[|stem| + 4..] == ".pdf";
  }

  class PdfSplitPage {
    var file: Option<SourceFile>
    var pageRange: string
    var status: Status
    var errorMsg: string

    constructor ()
      ensures file == None && pageRange == "" && status == Idle && errorMsg == ""
    {
      file := None;
      pageRange := "";
      status := Idle;
      errorMsg := "";
    }

    /** The file picker hands over its first file, if any. A PDF replaces
        the held file and clears the error; any other file clears the held
        file and sets an error; no file changes nothing. */
    method HandleFileChange(chosen: Option<SourceFile>)
      modifies this
      ensures pageRange == old(pageRange)
      ensures chosen.None? ==> file == old(file) && status == old(status) && errorMsg == old(errorMsg)
      ensures chosen.Some? && Accepts(Pdfs, chosen.value) ==>
                file == chosen && status == Idle && errorMsg == ""
      ensures chosen.Some? && !Accepts(Pdfs, chosen.value) ==>
                file == None && status == old(status) && errorMsg == "Please select a PDF file."
    {
      if chosen.Some? && Accepts(Pdfs, chosen.value) {
        file := chosen;
        status := Idle;
        errorMsg := "";
      } else if chosen.Some? {
        file := None;
        errorMsg := "Please select a PDF file.";
      }
    }

    /** A drop is handled like the picker, except that a rejected file
        leaves the held file in place. */
    method HandleDrop(dropped: Option<SourceFile>)
      modifies this
      ensures pageRange == old(pageRange)
      ensures dropped.None? ==> file == old(file) && status == old(status) && errorMsg == old(errorMsg)
      ensures dropped.Some? && Accepts(Pdfs, dropped.value) ==>
                file == dropped && status == Idle && errorMsg == ""
      ensures dropped.Some? && !Accepts(Pdfs, dropped.value) ==>
                file == old(file) && status == old(status) && errorMsg == "Please drop a PDF file."
    {
      if dropped.Some? && Accepts(Pdfs, dropped.value) {
        file := dropped;
        status := Idle;
        errorMsg := "";
      } else if dropped.Some? {
        errorMsg := "Please drop a PDF file.";
      }
    }

    /** Typing in the page field. */
    method SetPageRange(text: string)
      modifies this
      ensures pageRange == text
      ensures file == old(file) && status == old(status) && errorMsg == old(errorMsg)
    {
      pageRange := text;
    }

    /** The split button. `pageCount` is what loading the held file gives
        (None when pdf-lib throws); `written` says whether copying and
        saving the pages succeed. Without a file nothing happens; blank
        page text is refused before loading; an empty selection is refused
        naming the page count; otherwise the selected pages, ascending,
        are copied into `split_<name>.pdf`. */
    method HandleSplit(pageCount: Option<nat>, written: bool) returns (out: Option<SplitOutput>)
      modifies this
      ensures file == old(file) && pageRange == old(pageRange)
      ensures out.Some? ==> file.Some? && pageCount.Some? && written
      ensures file.None? ==> status == old(status) && errorMsg == old(errorMsg)
      ensures file.Some? && Trim(pageRange) == "" ==>
                out.None? && status == old(status) && errorMsg == "Please enter page numbers to extract."
      ensures file.Some? && Trim(pageRange) != "" && pageCount.None? ==>
                status == Error && errorMsg == "Failed to process PDF."
      ensures file.Some? && Trim(pageRange) != "" && pageCount.Some? &&
              SortAscending(Collected(Split(pageRange, ','), pageCount.value)) == [] ==>
                out.None? && status == Idle &&
                errorMsg == "Invalid page range. The document has " + NatToDecimal(pageCount.value) + " pages."
      ensures file.Some? && Trim(pageRange) != "" && pageCount.Some? &&
              SortAscending(Collected(Split(pageRange, ','), pageCount.value)) != [] && !written ==>
                out.None? && status == Error && errorMsg == "Failed to process PDF."
      ensures file.Some? && Trim(pageRange) != "" && pageCount.Some? &&
              SortAscending(Collected(Split(pageRange, ','), pageCount.value)) != [] && written ==>
                out == Some(SplitOutput(SortAscending(Collected(Split(pageRange, ','), pageCount.value)),
                                        SplitName(file.value.name))) &&
                status == Done && errorMsg == ""
    {
      out := None;
      if file.None? {
        return;
      }
      if Trim(pageRange) == "" {
        errorMsg := "Please enter page numbers to extract.";
        return;
      }
      status := Processing;
      errorMsg := "";
      if pageCount.None? {
        errorMsg := "Failed to process PDF.";
        status := Error;
        return;
      }
      var totalPages := pageCount.value;
      var pageIndices := ParsePageRange(pageRange, totalPages);
      if |pageIndices| == 0 {
        errorMsg := "Invalid page range. The document has " + NatToDecimal(totalPages) + " pages.";
        status := Idle;
        return;
      }
      if !written {
        errorMsg := "Failed to process PDF.";
        status := Error;
        return;
      }
      out := Some(SplitOutput(pageIndices, SplitName(file.value.name)));
      status := Done;
    }
  }
}
