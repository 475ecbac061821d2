/**
 * The merge page: a list of PDF files, grown by the picker and by drops
 * and shrunk by its remove buttons. Merging copies every page of every
 * file, file after file, into one new document.
 */
module PdfMerge {
  import opened Wrappers
  import opened Strings
  import opened Tool

  /** Page `page` (0-based) of the file at position `file` of the list. */
  datatype PageRef = PageRef(file: nat, page: nat)

  /** The merged document handed to the download link. */
  datatype MergeOutput = MergeOutput(pages: seq<PageRef>, name: string)

  /** The pages of one file, `pdf.getPageIndices()`, in index order. */
  function PagesOf(file: nat, count: nat): (r: seq<PageRef>)
    ensures |r| == count
    ensures forall j | 0 <= j < count :: r[j] == PageRef(file, j)
  {
    if count == 0 then [] else PagesOf(file, count - 1) + [PageRef(file, count - 1)]
  }

  /** The merged document for files with the given page counts: the
      pages of each file, in list order. Its length is the files' total. */
  function Merged(counts: seq<nat>): (r: seq<PageRef>)
    ensures |r| == Sum(counts)
  {
    if counts == [] then []
    else Merged(counts[..|counts| - 1]) + PagesOf(|counts| - 1, counts[|counts| - 1])
  }

  function Sum(counts: seq<nat>): nat
  {
    if counts == [] then 0 else Sum(counts[..|counts| - 1]) + counts[|counts| - 1]
  }

  /** Page j of file f sits in the merged document right after all the
      pages of the files before f. */
  lemma {:induction false} MergedAt(counts: seq<nat>, f: nat, j: nat)
    requires f < |counts| && j < counts[f]
    ensures Sum(counts[..f]) + j < |Merged(counts)|
    ensures Merged(counts)[Sum(counts[..f]) + j] == PageRef(f, j)
  {
    var init, last := counts[..|counts| - 1], counts[|counts| - 1];
    var m := Merged(init);
    assert Merged(counts) == m + PagesOf(|init|, last);
    if f < |init| {
      assert counts[..f] == init[..f];
      assert counts[f] == init[f];
      MergedAt(init, f, j);
      assert Merged(counts)[Sum(counts[..f]) + j] == m[Sum(counts[..f]) + j];
    } else {
      assert counts[..f] == init;
      assert Merged(counts)[Sum(counts[..f]) + j] == PagesOf(|init|, last)[j];
    }
  }

  lemma MergedLayout(counts: seq<nat>)
    ensures forall f: nat, j: nat | f < |counts| && j < counts[f] ::
              Sum(counts[..f]) + j < |Merged(counts)| && Merged(counts)[Sum(counts[..f]) + j] == PageRef(f, j)
  {
    forall f: nat, j: nat | f < |counts| && j < counts[f]
      ensures Sum(counts[..f]) + j < |Merged(counts)| && Merged(counts)[Sum(counts[..f]) + j] == PageRef(f, j)
    {
      MergedAt(counts, f, j);
    }
  }

  /** A 2-page file merged with a 3-page file gives 5 pages: both pages
      of the first file, then the three of the second. */
  lemma MergeTwoAndThree()
    ensures Merged([2, 3]) == [PageRef(0, 0), PageRef(0, 1), PageRef(1, 0), PageRef(1, 1), PageRef(1, 2)]
  {
    assert [2, 3][..1] == [2];
    assert [2][..0] == [];
    assert PagesOf(0, 2) == [PageRef(0, 0), PageRef(0, 1)];
    assert PagesOf(1, 3) == [PageRef(1, 0), PageRef(1, 1), PageRef(1, 2)];
  }

  /** The page counts of the first n files, or None when loading one of
      them throws. */
  function LoadAll(load: nat -> Option<nat>, n: nat): (r: Option<seq<nat>>)
    ensures r.Some? <==> forall i | 0 <= i < n :: load(i).Some?
    ensures r.Some? ==> |r.value| == n && forall i | 0 <= i < n :: load(i) == Some(r.value[i])
  {
    if n == 0 then Some([])
    else
      var init := LoadAll(load, n - 1);
      if init.Some? && load(n - 1).Some? then Some(init.value + [load(n - 1).value]) else None
  }

  class PdfMergePage {
    var files: seq<SourceFile>
    var status: Status
    var errorMsg: string

    constructor ()
      ensures files == [] && status == Idle && errorMsg == ""
    {
      files := [];
      status := Idle;
      errorMsg := "";
    }

    /** The picker: the chosen PDFs are appended after the list, in the
        order chosen; when none is a PDF the list stays and an error is
        set; an empty choice changes nothing. */
    method HandleFileChange(chosen: seq<SourceFile>)
      modifies this
      ensures chosen == [] ==> files == old(files) && status == old(status) && errorMsg == old(errorMsg)
      ensures chosen != [] && Accepted(chosen, Pdfs) == [] ==>
                files == old(files) && status == old(status) && errorMsg == "Please select PDF files."
      ensures Accepted(chosen, Pdfs) != [] ==>
                files == old(files) + Accepted(chosen, Pdfs) && status == Idle && errorMsg == ""
    {
      if |chosen| > 0 {
        var newFiles := Accepted(chosen, Pdfs);
        if |newFiles| == 0 {
          errorMsg := "Please select PDF files.";
          return;
        }
        files := files + newFiles;
        status := Idle;
        errorMsg := "";
      }
    }

    /** A drop: as the picker, with its own message. */
    method HandleDrop(dropped: seq<SourceFile>)
      modifies this
      ensures dropped == [] ==> files == old(files) && status == old(status) && errorMsg == old(errorMsg)
      ensures dropped != [] && Accepted(dropped, Pdfs) == [] ==>
                files == old(files) && status == old(status) && errorMsg == "Please drop PDF files."
      ensures Accepted(dropped, Pdfs) != [] ==>
                files == old(files) + Accepted(dropped, Pdfs) && status == Idle && errorMsg == ""
    {
      if |dropped| > 0 {
        var newFiles := Accepted(dropped, Pdfs);
        if |newFiles| == 0 {
          errorMsg := "Please drop PDF files.";
          return;
        }
        files := files + newFiles;
        status := Idle;
        errorMsg := "";
      }
    }

    /** The remove button of the file at `index`. */
    method RemoveFile(index: int)
      modifies this
      ensures 0 <= index < |old(files)| ==> files == old(files)[..index] + old(files)[index + 1..]
      ensures !(0 <= index < |old(files)|) ==> files == old(files)
      ensures status == old(status) && errorMsg == old(errorMsg)
    {
      files := RemoveAt(files, index);
    }

    /** The merge button. `load(i)` is the page count of the i-th file of
        the list (None when pdf-lib throws on it); `written` says whether
        saving succeeds; `now` is `Date.now()`. */
    method HandleMerge(load: nat -> Option<nat>, written: bool, now: nat) returns (out: Option<MergeOutput>)
      modifies this
      ensures files == old(files)
      ensures |files| < 2 ==>
                out.None? && status == old(status) && errorMsg == "Please select at least 2 PDF files to merge."
      ensures |files| >= 2 && (LoadAll(load, |files|).None? || !written) ==>
                out.None? && status == Error &&
                errorMsg == "Failed to merge PDFs. One of the files might be corrupted."
      ensures |files| >= 2 && LoadAll(load, |files|).Some? && written ==>
                out == Some(MergeOutput(Merged(LoadAll(load, |files|).value), "merged_" + NatToDecimal(now) + ".pdf")) &&
                status == Done && errorMsg == ""
    {
      out := None;
      if |files| < 2 {
        errorMsg := "Please select at least 2 PDF files to merge.";
        return;
      }
      status := Processing;
      errorMsg := "";
      var merged: seq<PageRef> := [];
      ghost var counts: seq<nat> := [];
      var i := 0;
      while i < |files|
        invariant 0 <= i <= |files|
        invariant LoadAll(load, i) == Some(counts)
        invariant merged == Merged(counts)
      {
        var count := load(i);
        if count.None? {
          assert LoadAll(load, |files|).None?;
          errorMsg := "Failed to merge PDFs. One of the files might be corrupted.";
          status := Error;
          return;
        }
        assert counts == (counts + [count.value])[..|counts|];
        merged := merged + PagesOf(i, count.value);
        counts := counts + [count.value];
        i := i + 1;
      }
      if !written {
        errorMsg := "Failed to merge PDFs. One of the files might be corrupted.";
        status := Error;
        return;
      }
      out := Some(MergeOutput(merged, "merged_" + NatToDecimal(now) + ".pdf"));
      status := Done;
    }
  }
}
