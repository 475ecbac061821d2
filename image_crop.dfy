/**
 * The image cropper: one image, shown on the page, on which a rectangle
 * is dragged out with the mouse. Positions are in the image's displayed
 * coordinates, relative to its top-left corner; they are modelled as
 * exact reals.
 */
module ImageCrop {
  import opened Wrappers
  import opened Tool

  datatype Point = Point(x: real, y: real)

  /** A selection: top-left corner, width and height. */
  datatype Rect = Rect(x: real, y: real, w: real, h: real)

  /** The displayed image's bounding box on the screen. */
  datatype Box = Box(left: real, top: real, width: real, height: real)

  function Min(a: real, b: real): real
  {
    if a <= b then a else b
  }

  function Abs(a: real): real
  {
    if a < 0.0 then -a else a
  }

  /** `Math.max(0, Math.min(v, limit))`. */
  function Clamp(v: real, limit: real): (r: real)
    ensures r >= 0.0
    ensures limit >= 0.0 ==> r <= limit
    ensures 0.0 <= v <= limit ==> r == v
    ensures v < 0.0 ==> r == 0.0
    ensures v > limit && limit >= 0.0 ==> r == limit
  {
    var m := if v <= limit then v else limit;
    if m < 0.0 then 0.0 else m
  }

  /** The rectangle spanned by the drag's start and its current point. */
  function Spanned(start: Point, current: Point): (r: Rect)
    ensures r.w >= 0.0 && r.h >= 0.0
    ensures (r.x == start.x && r.x + r.w == current.x) || (r.x == current.x && r.x + r.w == start.x)
    ensures (r.y == start.y && r.y + r.h == current.y) || (r.y == current.y && r.y + r.h == start.y)
  {
    Rect(Min(current.x, start.x), Min(current.y, start.y), Abs(current.x - start.x), Abs(current.y - start.y))
  }

  /** It does not matter which corner the drag started from. */
  lemma SpannedSymmetric(a: Point, b: Point)
    ensures Spanned(a, b) == Spanned(b, a)
  {
  }

  /** A drag that starts inside the image stays inside it: the current
      point is clamped to the image, so the rectangle is too. */
  lemma SpannedInside(start: Point, clientX: real, clientY: real, box: Box)
    requires box.width >= 0.0 && box.height >= 0.0
    requires 0.0 <= start.x <= box.width && 0.0 <= start.y <= box.height
    ensures var r := Spanned(start, Point(Clamp(clientX - box.left, box.width), Clamp(clientY - box.top, box.height)));
            0.0 <= r.x && r.x + r.w <= box.width && 0.0 <= r.y && r.y + r.h <= box.height
  {
  }

  /** Selections narrower or lower than 5 are ignored. */
  predicate LargeEnough(r: Rect)
  {
    !(r.w < 5.0 || r.h < 5.0)
  }

  /** The cropped image handed to the download link. */
  datatype CropOutput = CropOutput(name: string, blob: nat)

  class ImageCropPage {
    var file: Option<SourceFile>
    var status: Status
    var errorMsg: string
    var isDragging: bool
    var selection: Option<Rect>
    var startPos: Option<Point>

    constructor ()
      ensures file == None && status == Idle && errorMsg == ""
      ensures !isDragging && selection == None && startPos == None
    {
      file := None;
      status := Idle;
      errorMsg := "";
      isDragging := false;
      selection := None;
      startPos := None;
    }

    /** The picker: an image replaces the held file, drops the selection
        and clears the status and error; any other file clears the held
        file and sets an error. */
    method HandleFileChange(chosen: Option<SourceFile>)
      modifies this
      ensures isDragging == old(isDragging) && startPos == old(startPos)
      ensures chosen.None? ==>
                file == old(file) && selection == old(selection) && status == old(status) && errorMsg == old(errorMsg)
      ensures chosen.Some? && Accepts(Images, chosen.value) ==>
                file == chosen && selection == None && status == Idle && errorMsg == ""
      ensures chosen.Some? && !Accepts(Images, chosen.value) ==>
                file == None && selection == old(selection) && status == old(status) &&
                errorMsg == "Please select an image file."
    {
      if chosen.Some? && Accepts(Images, chosen.value) {
        file := chosen;
        selection := None;
        status := Idle;
        errorMsg := "";
      } else if chosen.Some? {
        file := None;
        errorMsg := "Please select an image file.";
      }
    }

    /** "Choose different image": only the file is let go. */
    method ChooseDifferentImage()
      modifies this
      ensures file == None
      ensures status == old(status) && errorMsg == old(errorMsg) && isDragging == old(isDragging) &&
              selection == old(selection) && startPos == old(startPos)
    {
      file := None;
    }

    /** Pressing the mouse at (clientX, clientY) over the image whose box is
        `box` starts a drag with an empty selection at that point. Without
        an image shown (no file) nothing happens. */
    method HandleMouseDown(clientX: real, clientY: real, box: Box)
      modifies this
      ensures file == old(file) && status == old(status) && errorMsg == old(errorMsg)
      ensures file.None? ==>
                isDragging == old(isDragging) && selection == old(selection) && startPos == old(startPos)
      ensures file.Some? ==>
                var p := Point(clientX - box.left, clientY - box.top);
                startPos == Some(p) && selection == Some(Rect(p.x, p.y, 0.0, 0.0)) && isDragging
    {
      if file.None? {
        return;
      }
      var x := clientX - box.left;
      var y := clientY - box.top;
      startPos := Some(Point(x, y));
      selection := Some(Rect(x, y, 0.0, 0.0));
      isDragging := true;
    }

    /** Moving the mouse while dragging: the current point is clamped to
        the image, and the selection becomes the rectangle spanned by the
        start and the current point. Otherwise nothing happens. */
    method HandleMouseMove(clientX: real, clientY: real, box: Box)
      modifies this
      ensures file == old(file) && status == old(status) && errorMsg == old(errorMsg)
      ensures isDragging == old(isDragging) && startPos == old(startPos)
      ensures !(isDragging && startPos.Some? && file.Some?) ==> selection == old(selection)
      ensures isDragging && startPos.Some? && file.Some? ==>
                var current := Point(Clamp(clientX - box.left, box.width), Clamp(clientY - box.top, box.height));
                selection == Some(Spanned(startPos.value, current))
      ensures isDragging && startPos.Some? && file.Some? ==>
                selection.value.w >= 0.0 && selection.value.h >= 0.0
    {
      if !isDragging || startPos.None? || file.None? {
        return;
      }
      var currentX := Clamp(clientX - box.left, box.width);
      var currentY := Clamp(clientY - box.top, box.height);
      var x := Min(currentX, startPos.value.x);
      var y := Min(currentY, startPos.value.y);
      var w := Abs(currentX - startPos.value.x);
      var h := Abs(currentY - startPos.value.y);
      selection := Some(Rect(x, y, w, h));
    }

    /** Releasing the mouse, or leaving the image: the drag ends and the
        selection stays. */
    method HandleMouseUp()
      modifies this
      ensures !isDragging
      ensures file == old(file) && status == old(status) && errorMsg == old(errorMsg) &&
              selection == old(selection) && startPos == old(startPos)
    {
      isDragging := false;
    }

    /** The crop button. Without a file or a selection, or with a selection
        narrower or lower than 5, nothing happens. `decoded` says whether
        the held image loads; the page waits for its load event and sets no
        error handler, so an image that never loads leaves the page
        processing. `encode(e)` is what drawing the selected part and
        encoding it in the file's own type gives: a blob, null, or a throw.
        Processing does not clear an earlier error message. Returns the
        download. */
    method HandleCrop(decoded: bool, encode: Encoding -> Attempt<Option<nat>>) returns (out: Option<CropOutput>)
      modifies this
      ensures file == old(file) && selection == old(selection)
      ensures isDragging == old(isDragging) && startPos == old(startPos)
      ensures (file.None? || selection.None? || !LargeEnough(selection.value)) ==>
                out.None? && status == old(status) && errorMsg == old(errorMsg)
      ensures file.Some? && selection.Some? && LargeEnough(selection.value) && !decoded ==>
                out.None? && status == Processing && errorMsg == old(errorMsg)
      ensures file.Some? && selection.Some? && LargeEnough(selection.value) && decoded ==>
                match encode(Encoding(file.value.mime, None))
                case Threw(_) => out.None? && status == Error && errorMsg == "Processing failed."
                case Ok(None) => out.None? && status == Error && errorMsg == "Crop failed."
                case Ok(Some(blob)) =>
                  out == Some(CropOutput("cropped_" + file.value.name, blob)) && status == Done && errorMsg == old(errorMsg)
    {
      out := None;
      if file.None? || selection.None? {
        return;
      }
      if selection.value.w < 5.0 || selection.value.h < 5.0 {
        return;
      }
      status := Processing;
      if !decoded {
        return;
      }
      var encoded := encode(Encoding(file.value.mime, None));
      if encoded.Threw? {
        errorMsg := "Processing failed.";
        status := Error;
        return;
      }
      if encoded.value.Some? {
        out := Some(CropOutput("cropped_" + file.value.name, encoded.value.value));
        status := Done;
      } else {
        errorMsg := "Crop failed.";
        status := Error;
      }
    }
  }
}
