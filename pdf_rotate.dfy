/**
 * The rotate page: one PDF file and a rotation of 90, 180 or 270 degrees
 * chosen from a select. Rotating adds the chosen rotation to the angle of
 * every page of the loaded document, in place, and saves it as
 * `rotated_<name>`.
 */
module PdfRotate {
  import opened Wrappers
  import opened Strings
  import opened JsNumber
  import opened Tool

  /** The angles of a document's pages after `rotation` was added to each. */
  function Rotated(angles: seq<int>, rotation: int): (r: seq<int>)
    ensures |r| == |angles|
    ensures forall i | 0 <= i < |angles| :: r[i] == angles[i] + rotation
  {
    if angles == [] then [] else Rotated(angles[..|angles| - 1], rotation) + [angles[|angles| - 1] + rotation]
  }

  /** Rotations accumulate: rotating twice is rotating once by the sum,
      and no angle is reduced modulo 360. */
  lemma RotatedTwice(angles: seq<int>, first: int, second: int)
    ensures Rotated(Rotated(angles, first), second) == Rotated(angles, first + second)
  {
  }

  /** Rotating a page at 0 by 90 twice leaves it at 180; twice more, at 360. */
  lemma QuarterTurns()
    ensures Rotated(Rotated([0], 90), 90) == [180]
    ensures Rotated(Rotated(Rotated(Rotated([0], 90), 90), 90), 90) == [360]
  {
    RotatedTwice([0], 90, 90);
    RotatedTwice([180], 90, 90);
  }

  /** The values the rotation select offers. */
  predicate IsOption(value: string)
  {
    value == "90" || value == "180" || value == "270"
  }

  /** Number reads each option as the rotation it names. */
  lemma OptionNumbers(value: string)
    requires IsOption(value)
    ensures ToNumber(value) == Num(90) || ToNumber(value) == Num(180) || ToNumber(value) == Num(270)
  {
    if value == "90" {
      DecimalOption(90, value);
    } else if value == "180" {
      DecimalOption(180, value);
    } else {
      DecimalOption(270, value);
    }
  }

  lemma DecimalOption(n: nat, value: string)
    requires value == NatToDecimal(n)
    ensures ToNumber(value) == Num(n)
  {
    NumberOfDecimal(n);
  }

  /** The forEach over `pdf.getPages()`: each page's rotation is set to its
      current angle plus `rotation`. */
  method RotateAll(angles: array<int>, rotation: int)
    modifies angles
    ensures angles[..] == Rotated(old(angles[..]), rotation)
  {
    var i := 0;
    while i < angles.Length
      invariant 0 <= i <= angles.Length
      invariant forall j | 0 <= j < i :: angles[j] == old(angles[j]) + rotation
      invariant forall j | i <= j < angles.Length :: angles[j] == old(angles[j])
    {
      angles[i] := angles[i] + rotation;
      i := i + 1;
    }
  }

  class PdfRotatePage {
    var file: Option<SourceFile>
    var rotation: int
    var status: Status
    var errorMsg: string

    /** The rotation is always one the select offers. */
    predicate Valid()
      reads this
    {
      rotation == 90 || rotation == 180 || rotation == 270
    }

    constructor ()
      ensures Valid() && rotation == 90
      ensures file == None && status == Idle && errorMsg == ""
    {
      file := None;
      rotation := 90;
      status := Idle;
      errorMsg := "";
    }

    /** The picker: a PDF replaces the held file and clears the error; any
        other file clears the held file and sets an error. */
    method HandleFileChange(chosen: Option<SourceFile>)
      requires Valid()
      modifies this
      ensures Valid()
      ensures rotation == old(rotation)
      ensures chosen.None? ==> file == old(file) && status == old(status) && errorMsg == old(errorMsg)
      ensures chosen.Some? && Accepts(Pdfs, chosen.value) ==>
                file == chosen && status == Idle && errorMsg == ""
      ensures chosen.Some? && !Accepts(Pdfs, chosen.value) ==>
                file == None && status == old(status) && errorMsg == "Please select a PDF file."
    {
      if chosen.Some? && Accepts(Pdfs, chosen.value) {
        file := chosen;
        status := Idle;
        errorMsg := "";
      } else if chosen.Some? {
        file := None;
        errorMsg := "Please select a PDF file.";
      }
    }

    /** A drop: like the picker, but a rejected file leaves the held one. */
    method HandleDrop(dropped: Option<SourceFile>)
      requires Valid()
      modifies this
      ensures Valid()
      ensures rotation == old(rotation)
      ensures dropped.None? ==> file == old(file) && status == old(status) && errorMsg == old(errorMsg)
      ensures dropped.Some? && Accepts(Pdfs, dropped.value) ==>
                file == dropped && status == Idle && errorMsg == ""
      ensures dropped.Some? && !Accepts(Pdfs, dropped.value) ==>
                file == old(file) && status == old(status) && errorMsg == "Please drop a PDF file."
    {
      if dropped.Some? && Accepts(Pdfs, dropped.value) {
        file := dropped;
        status := Idle;
        errorMsg := "";
      } else if dropped.Some? {
        errorMsg := "Please drop a PDF file.";
      }
    }

    /** Choosing an option of the select: `Number(e.target.value)`. */
    method SetRotation(value: string)
      requires IsOption(value)
      modifies this
      ensures Valid()
      ensures ToNumber(value) == Num(rotation)
      ensures file == old(file) && status == old(status) && errorMsg == old(errorMsg)
    {
      var n := ToNumber(value);
      OptionNumbers(value);
      rotation := n.value;
    }

    /** The rotate button. `loaded` says whether pdf-lib loads the held
        file, whose page angles are `pages`; `written` whether saving
        succeeds. Returns the download name. */
    method HandleRotate(loaded: bool, pages: array<int>, written: bool) returns (out: Option<string>)
      requires Valid()
      modifies this, pages
      ensures Valid()
      ensures file == old(file) && rotation == old(rotation)
      ensures file.None? ==>
                out.None? && status == old(status) && errorMsg == old(errorMsg) && pages[..] == old(pages[..])
      ensures file.Some? && !loaded ==>
                out.None? && status == Error && errorMsg == "Failed to rotate PDF." && pages[..] == old(pages[..])
      ensures file.Some? && loaded ==> pages[..] == Rotated(old(pages[..]), rotation)
      ensures file.Some? && loaded && !written ==>
                out.None? && status == Error && errorMsg == "Failed to rotate PDF."
      ensures file.Some? && loaded && written ==>
                out == Some("rotated_" + file.value.name) && status == Done && errorMsg == ""
    {
      out := None;
      if file.None? {
        return;
      }
      status := Processing;
      errorMsg := "";
      if !loaded {
        errorMsg := "Failed to rotate PDF.";
        status := Error;
        return;
      }
      RotateAll(pages, rotation);
      if !written {
        errorMsg := "Failed to rotate PDF.";
        status := Error;
        return;
      }
      out := Some("rotated_" + file.value.name);
      status := Done;
    }
  }
}
