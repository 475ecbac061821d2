/**
 * The delete-pages page: one PDF file, the text of the pages to delete,
 * and the status and error message. Deleting copies every page that was
 * not named, in document order, into a new document; it refuses an empty
 * deletion and a deletion of every page, with different messages.
 */
module PdfDeletePages {
  import opened Wrappers
  import opened Strings
  import opened PageRange
  import opened Tool

  /** The document handed to the download link: the indices of the pages
      kept, in order, and its file name. */
  datatype DeleteOutput = DeleteOutput(pages: seq<nat>, name: string)

  class PdfDeletePagesPage {
    var file: Option<SourceFile>
    var pagesToDelete: string
    var status: Status
    var errorMsg: string

    constructor ()
      ensures file == None && pagesToDelete == "" && status == Idle && errorMsg == ""
    {
      file := None;
      pagesToDelete := "";
      status := Idle;
      errorMsg := "";
    }

    /** The picker: a PDF replaces the held file and clears the error; any
        other file clears the held file and sets an error. */
    method HandleFileChange(chosen: Option<SourceFile>)
      modifies this
      ensures pagesToDelete == old(pagesToDelete)
      ensures chosen.None? ==> file == old(file) && status == old(status) && errorMsg == old(errorMsg)
      ensures chosen.Some? && Accepts(Pdfs, chosen.value) ==>
                file == chosen && status == Idle && errorMsg == ""
      ensures chosen.Some? && !Accepts(Pdfs, chosen.value) ==>
                file == None && status == old(status) && errorMsg == "Please select a PDF file."
    {
      if chosen.Some? && Accepts(Pdfs, chosen.value) {
        file := chosen;
        status := Idle;
        errorMsg := "";
      } else if chosen.Some? {
        file := None;
        errorMsg := "Please select a PDF file.";
      }
    }

    /** A drop: like the picker, but a rejected file leaves the held one. */
    method HandleDrop(dropped: Option<SourceFile>)
      modifies this
      ensures pagesToDelete == old(pagesToDelete)
      ensures dropped.None? ==> file == old(file) && status == old(status) && errorMsg == old(errorMsg)
      ensures dropped.Some? && Accepts(Pdfs, dropped.value) ==>
                file == dropped && status == Idle && errorMsg == ""
      ensures dropped.Some? && !Accepts(Pdfs, dropped.value) ==>
                file == old(file) && status == old(status) && errorMsg == "Please drop a PDF file."
    {
      if dropped.Some? && Accepts(Pdfs, dropped.value) {
        file := dropped;
        status := Idle;
        errorMsg := "";
      } else if dropped.Some? {
        errorMsg := "Please drop a PDF file.";
      }
    }

    /** Typing in the pages field. */
    method SetPagesToDelete(text: string)
      modifies this
      ensures pagesToDelete == text
      ensures file == old(file) && status == old(status) && errorMsg == old(errorMsg)
    {
      pagesToDelete := text;
    }

    /** The delete button. `pageCount` is what loading the held file gives
        (None when pdf-lib throws); `written` says whether copying and
        saving the kept pages succeed. */
    method HandleDelete(pageCount: Option<nat>, written: bool) returns (out: Option<DeleteOutput>)
      modifies this
      ensures file == old(file) && pagesToDelete == old(pagesToDelete)
      ensures out.Some? ==> file.Some? && pageCount.Some? && written
      ensures file.None? ==> status == old(status) && errorMsg == old(errorMsg)
      ensures file.Some? && Trim(pagesToDelete) == "" ==>
                out.None? && status == old(status) && errorMsg == "Please enter page numbers to delete."
      ensures file.Some? && Trim(pagesToDelete) != "" && pageCount.None? ==>
                status == Error && errorMsg == "Failed to process PDF."
      ensures file.Some? && Trim(pagesToDelete) != "" && pageCount.Some? &&
              Collected(Split(pagesToDelete, ','), pageCount.value) == [] ==>
                out.None? && status == Idle &&
                errorMsg == "Invalid page range. Document has " + NatToDecimal(pageCount.value) + " pages."
      ensures file.Some? && Trim(pagesToDelete) != "" && pageCount.Some? &&
              Collected(Split(pagesToDelete, ','), pageCount.value) != [] &&
              Keepers(Collected(Split(pagesToDelete, ','), pageCount.value), pageCount.value) == [] ==>
                out.None? && status == Idle && errorMsg == "You cannot delete all pages."
      ensures file.Some? && Trim(pagesToDelete) != "" && pageCount.Some? &&
              Collected(Split(pagesToDelete, ','), pageCount.value) != [] &&
              Keepers(Collected(Split(pagesToDelete, ','), pageCount.value), pageCount.value) != [] && !written ==>
                out.None? && status == Error && errorMsg == "Failed to process PDF."
      ensures file.Some? && Trim(pagesToDelete) != "" && pageCount.Some? &&
              Collected(Split(pagesToDelete, ','), pageCount.value) != [] &&
              Keepers(Collected(Split(pagesToDelete, ','), pageCount.value), pageCount.value) != [] && written ==>
                out == Some(DeleteOutput(Keepers(Collected(Split(pagesToDelete, ','), pageCount.value), pageCount.value),
                                         "deleted_pages_" + file.value.name)) &&
                status == Done && errorMsg == ""
      ensures out.Some? ==> StrictlyAscending(out.value.pages)
      ensures out.Some? ==>
                forall x: nat :: x in out.value.pages <==>
                  x < pageCount.value && x !in Collected(Split(pagesToDelete, ','), pageCount.value)
    {
      out := None;
      if file.None? {
        return;
      }
      if Trim(pagesToDelete) == "" {
        errorMsg := "Please enter page numbers to delete.";
        return;
      }
      status := Processing;
      errorMsg := "";
      if pageCount.None? {
        errorMsg := "Failed to process PDF.";
        status := Error;
        return;
      }
      var totalPages := pageCount.value;
      var formatIndices := ParsePages(pagesToDelete, totalPages);
      if |formatIndices| == 0 {
        errorMsg := "Invalid page range. Document has " + NatToDecimal(totalPages) + " pages.";
        status := Idle;
        return;
      }
      var keeperIndices := KeeperIndices(formatIndices, totalPages);
      if |keeperIndices| == 0 {
        errorMsg := "You cannot delete all pages.";
        status := Idle;
        return;
      }
      if !written {
        errorMsg := "Failed to process PDF.";
        status := Error;
        return;
      }
      KeepersMembers(formatIndices, totalPages);
      KeepersAscending(formatIndices, totalPages);
      out := Some(DeleteOutput(keeperIndices, "deleted_pages_" + file.value.name));
      status := Done;
    }
  }
}
