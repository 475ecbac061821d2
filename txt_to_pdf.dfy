/**
 * The text-to-PDF page: any file is taken in, read as text, wrapped into
 * lines by jsPDF, and the lines are placed one under the other from the
 * top margin down, starting a new page whenever the next line would go
 * past the bottom margin. Positions are in points, from the top of the
 * page.
 */
module TxtToPdf {
  import opened Wrappers
  import opened Strings
  import opened Tool

  const Margin: real := 40.0
  const LineHeight: real := 12.0

  /** Where the next line goes: a page (0 is the first) and a y position. */
  datatype Cursor = Cursor(page: nat, y: real)

  /** A line written on the document. */
  datatype Placement = Placement(at: Cursor, line: string)

  /** The check made before each line: when the line would reach past
      the bottom margin a page is added and y goes back to the margin. */
  function BreakIfFull(c: Cursor, pageH: real): (r: Cursor)
    ensures c.y + LineHeight > pageH - Margin ==> r == Cursor(c.page + 1, Margin)
    ensures c.y + LineHeight <= pageH - Margin ==> r == c
  {
    if c.y + LineHeight > pageH - Margin then Cursor(c.page + 1, Margin) else c
  }

  /** The loop's page and y after n lines were placed. */
  function CursorAfter(n: nat, pageH: real): Cursor
  {
    if n == 0 then Cursor(0, Margin)
    else
      var placed := BreakIfFull(CursorAfter(n - 1, pageH), pageH);
      Cursor(placed.page, placed.y + LineHeight)
  }

  /** Where line i is placed. */
  function PlaceOf(i: nat, pageH: real): Cursor
  {
    BreakIfFull(CursorAfter(i, pageH), pageH)
  }

  /** The pagination loop. Returns every line with its place, in order,
      and the number of pages of the document. */
  method Paginate(lines: seq<string>, pageH: real) returns (placements: seq<Placement>, pageCount: nat)
    ensures |placements| == |lines|
    ensures forall i | 0 <= i < |lines| :: placements[i] == Placement(PlaceOf(i, pageH), lines[i])
    ensures pageCount == CursorAfter(|lines|, pageH).page + 1
  {
    placements := [];
    var page: nat := 0;
    var y := Margin;
    var i := 0;
    while i < |lines|
      invariant 0 <= i <= |lines|
      invariant Cursor(page, y) == CursorAfter(i, pageH)
      invariant |placements| == i
      invariant forall j | 0 <= j < i :: placements[j] == Placement(PlaceOf(j, pageH), lines[j])
    {
      if y + LineHeight > pageH - Margin {
        page := page + 1;
        y := Margin;
      }
      placements := placements + [Placement(Cursor(page, y), lines[i])];
      y := y + LineHeight;
      i := i + 1;
    }
    pageCount := page + 1;
  }

  /** Each line is placed either at the top margin of the next page or
      one line height below the line before it on the same page; it goes
      to the next page exactly when it would reach past the bottom margin. */
  lemma NextPlace(i: nat, pageH: real)
    requires i > 0
    ensures var prev, here := PlaceOf(i - 1, pageH), PlaceOf(i, pageH);
            if prev.y + 2.0 * LineHeight > pageH - Margin then here == Cursor(prev.page + 1, Margin)
            else here == Cursor(prev.page, prev.y + LineHeight)
  {
  }

  /** The first line goes at the top margin; on a page too short for even
      one line the first page is left empty. */
  lemma FirstPlace(pageH: real)
    ensures Margin + LineHeight <= pageH - Margin ==> PlaceOf(0, pageH) == Cursor(0, Margin)
    ensures Margin + LineHeight > pageH - Margin ==> PlaceOf(0, pageH) == Cursor(1, Margin)
  {
  }

  /** Every line is placed at or below the top margin, and, when one line
      fits on a page between the margins, it ends above the bottom margin. */
  lemma {:induction false} PlacesWithinMargins(i: nat, pageH: real)
    ensures PlaceOf(i, pageH).y >= Margin
    ensures Margin + LineHeight <= pageH - Margin ==> PlaceOf(i, pageH).y + LineHeight <= pageH - Margin
  {
    if i > 0 {
      PlacesWithinMargins(i - 1, pageH);
    }
  }

  /** Pages are filled in order: line i + 1 is on the same page as line i
      or on the next one. */
  lemma PagesInOrder(i: nat, pageH: real)
    ensures PlaceOf(i + 1, pageH).page == PlaceOf(i, pageH).page ||
            PlaceOf(i + 1, pageH).page == PlaceOf(i, pageH).page + 1
  {
  }

  /** On a page with room for k lines between the margins, the first k
      lines all go on the first page, one line height apart. */
  lemma {:induction false} FirstPageHolds(i: nat, pageH: real)
    requires Margin + (i as real + 1.0) * LineHeight <= pageH - Margin
    ensures PlaceOf(i, pageH) == Cursor(0, Margin + (i as real) * LineHeight)
  {
    if i > 0 {
      FirstPageHolds(i - 1, pageH);
    }
  }

  /** `text || ' '`: an empty text becomes a single space. */
  function Filled(text: string): (r: string)
    ensures r != ""
    ensures text != "" ==> r == text
  {
    if text == "" then " " else text
  }

  /** The saved document: its page count, its lines and their places,
      and its file name. */
  datatype TxtOutput = TxtOutput(pageCount: nat, placements: seq<Placement>, name: string)

  class TxtToPdfPage {
    var file: Option<SourceFile>
    var status: Status
    var errorMsg: string

    constructor ()
      ensures file == None && status == Idle && errorMsg == ""
    {
      file := None;
      status := Idle;
      errorMsg := "";
    }

    /** The picker takes any file, with no type check. */
    method HandleFileChange(chosen: Option<SourceFile>)
      modifies this
      ensures chosen.None? ==> file == old(file) && status == old(status) && errorMsg == old(errorMsg)
      ensures chosen.Some? ==> file == chosen && status == Idle && errorMsg == ""
    {
      if chosen.Some? {
        file := chosen;
        status := Idle;
        errorMsg := "";
      }
    }

    /** A drop takes any file too. */
    method HandleDrop(dropped: Option<SourceFile>)
      modifies this
      ensures dropped.None? ==> file == old(file) && status == old(status) && errorMsg == old(errorMsg)
      ensures dropped.Some? ==> file == dropped && status == Idle && errorMsg == ""
    {
      if dropped.Some? {
        file := dropped;
        status := Idle;
        errorMsg := "";
      }
    }

    /** The convert button. `read` is what reading the held file as text
        gives (a failed read throws an Error "Failed to read file");
        `wrap` is jsPDF's line wrapping; `pageH` the page height. */
    method HandleConvert(read: Attempt<string>, wrap: string -> seq<string>, pageH: real)
      returns (out: Option<TxtOutput>)
      modifies this
      ensures file == old(file)
      ensures file.None? ==> out.None? && status == old(status) && errorMsg == old(errorMsg)
      ensures file.Some? && read.Threw? ==>
                out.None? && status == Error && errorMsg == CaughtMessage(read.error, "Conversion failed")
      ensures file.Some? && read.Ok? ==>
                var lines := wrap(Filled(read.value));
                out.Some? && status == Done && errorMsg == "" &&
                out.value.name == BaseName(file.value.name) + ".pdf" &&
                out.value.pageCount == CursorAfter(|lines|, pageH).page + 1 &&
                |out.value.placements| == |lines| &&
                forall i | 0 <= i < |lines| :: out.value.placements[i] == Placement(PlaceOf(i, pageH), lines[i])
    {
      out := None;
      if file.None? {
        return;
      }
      status := Processing;
      errorMsg := "";
      if read.Threw? {
        errorMsg := CaughtMessage(read.error, "Conversion failed");
        status := Error;
        return;
      }
      var text := read.value;
      var lines := wrap(if text == "" then " " else text);
      var placements, pageCount := Paginate(lines, pageH);
      var stripped := StripLastExtension(file.value.name);
      var baseName := if stripped == "" then "document" else stripped;
      out := Some(TxtOutput(pageCount, placements, baseName + ".pdf"));
      status := Done;
    }
  }
}
