/**
 * The image compressor: one image, a quality between 0.1 and 1 and an
 * output format, JPEG or WebP, that follows the type of the image taken
 * in. Compressing re-encodes the image and names the result after the
 * text of its name before the first '.'.
 */
module ImageCompress {
  import opened Wrappers
  import opened Strings
  import opened Tool

  datatype OutputFormat = Jpeg | Webp

  function MimeOf(format: OutputFormat): string
  {
    match format
    case Jpeg => "image/jpeg"
    case Webp => "image/webp"
  }

  /** The format chosen on intake: WebP for a WebP image, JPEG for any
      other image. */
  function DefaultFormat(mime: string): (r: OutputFormat)
    ensures r == Webp <==> mime == "image/webp"
  {
    if mime == "image/webp" then Webp else Jpeg
  }

  /** The extension written: "jpg" exactly when the format is image/jpeg. */
  function Extension(format: OutputFormat): (r: string)
    ensures r == "jpg" <==> MimeOf(format) == "image/jpeg"
    ensures r != "jpg" ==> r == "webp"
  {
    if format == Jpeg then "jpg" else "webp"
  }

  /** `compressed_${name.split('.')[0]}.${ext}`. */
  function CompressedName(name: string, format: OutputFormat): string
  {
    "compressed_" + Split(name, '.')[0] + "." + Extension(format)
  }

  /** Everything from the first dot on is replaced by the new extension:
      "holiday.beach.png" compressed as JPEG is "compressed_holiday.jpg". */
  lemma CompressedNameOfStem(stem: string, rest: string, format: OutputFormat)
    requires '.' !in stem
    ensures CompressedName(stem + "." + rest, format) == "compressed_" + stem + "." + Extension(format)
    ensures CompressedName(stem, format) == "compressed_" + stem + "." + Extension(format)
  {
    BeforeFirstDotOfStem(stem, rest);
  }

  /** The compressed image handed to the download link. */
  datatype CompressOutput = CompressOutput(name: string, blob: nat)

  class ImageCompressPage {
    var file: Option<SourceFile>
    var quality: real
    var format: OutputFormat
    var status: Status
    var errorMsg: string

    /** The quality is one the slider can show. */
    predicate Valid()
      reads this
    {
      0.1 <= quality <= 1.0
    }

    constructor ()
      ensures Valid()
      ensures file == None && quality == 0.8 && format == Jpeg && status == Idle && errorMsg == ""
    {
      file := None;
      quality := 0.8;
      format := Jpeg;
      status := Idle;
      errorMsg := "";
    }

    /** The picker: an image replaces the held file, clears the error and
        picks the default format for its type; any other file clears the
        held file and sets an error. */
    method HandleFileChange(chosen: Option<SourceFile>)
      requires Valid()
      modifies this
      ensures Valid()
      ensures quality == old(quality)
      ensures chosen.None? ==>
                file == old(file) && format == old(format) && status == old(status) && errorMsg == old(errorMsg)
      ensures chosen.Some? && Accepts(Images, chosen.value) ==>
                file == chosen && format == DefaultFormat(chosen.value.mime) && status == Idle && errorMsg == ""
      ensures chosen.Some? && !Accepts(Images, chosen.value) ==>
                file == None && format == old(format) && status == old(status) &&
                errorMsg == "Please select an image file."
    {
      if chosen.Some? && Accepts(Images, chosen.value) {
        file := chosen;
        status := Idle;
        errorMsg := "";
        if chosen.value.mime == "image/webp" {
          format := Webp;
        } else {
          format := Jpeg;
        }
      } else if chosen.Some? {
        file := None;
        errorMsg := "Please select an image file.";
      }
    }

    /** A drop: like the picker, but a rejected file leaves the held one. */
    method HandleDrop(dropped: Option<SourceFile>)
      requires Valid()
      modifies this
      ensures Valid()
      ensures quality == old(quality)
      ensures dropped.None? ==>
                file == old(file) && format == old(format) && status == old(status) && errorMsg == old(errorMsg)
      ensures dropped.Some? && Accepts(Images, dropped.value) ==>
                file == dropped && format == DefaultFormat(dropped.value.mime) && status == Idle && errorMsg == ""
      ensures dropped.Some? && !Accepts(Images, dropped.value) ==>
                file == old(file) && format == old(format) && status == old(status) &&
                errorMsg == "Please drop an image file."
    {
      if dropped.Some? && Accepts(Images, dropped.value) {
        file := dropped;
        status := Idle;
        errorMsg := "";
        if dropped.value.mime == "image/webp" {
          format := Webp;
        } else {
          format := Jpeg;
        }
      } else if dropped.Some? {
        errorMsg := "Please drop an image file.";
      }
    }

    /** Moving the quality slider, which runs from 0.1 to 1. */
    method SetQuality(value: real)
      requires 0.1 <= value <= 1.0
      modifies this
      ensures Valid() && quality == value
      ensures file == old(file) && format == old(format) && status == old(status) && errorMsg == old(errorMsg)
    {
      quality := value;
    }

    /** Choosing JPG or WEBP in the select. */
    method SetFormat(chosen: OutputFormat)
      requires Valid()
      modifies this
      ensures Valid()
      ensures format == chosen
      ensures file == old(file) && quality == old(quality) && status == old(status) && errorMsg == old(errorMsg)
    {
      format := chosen;
    }

    /** The compress button. `decoded` says whether the held image loads;
        the page waits for its load event and sets no error handler, so an
        image that never loads leaves the page processing. `encode(e)` is
        what drawing the image and encoding it as e gives: a blob, null, or
        a throw (a missing canvas context throws). Processing does not
        clear an earlier error message; a throw shows "Processing failed.",
        a null blob "Compression failed.". Returns the download. */
    method HandleCompress(decoded: bool, encode: Encoding -> Attempt<Option<nat>>) returns (out: Option<CompressOutput>)
      requires Valid()
      modifies this
      ensures Valid()
      ensures file == old(file) && quality == old(quality) && format == old(format)
      ensures file.None? ==> out.None? && status == old(status) && errorMsg == old(errorMsg)
      ensures file.Some? && !decoded ==> out.None? && status == Processing && errorMsg == old(errorMsg)
      ensures file.Some? && decoded ==>
                match encode(Encoding(MimeOf(format), Some(quality)))
                case Threw(_) => out.None? && status == Error && errorMsg == "Processing failed."
                case Ok(None) => out.None? && status == Error && errorMsg == "Compression failed."
                case Ok(Some(blob)) =>
                  out == Some(CompressOutput(CompressedName(file.value.name, format), blob)) &&
                  status == Done && errorMsg == old(errorMsg)
    {
      out := None;
      if file.None? {
        return;
      }
      status := Processing;
      if !decoded {
        return;
      }
      var encoded := encode(Encoding(MimeOf(format), Some(quality)));
      if encoded.Threw? {
        errorMsg := "Processing failed.";
        status := Error;
        return;
      }
      if encoded.value.Some? {
        out := Some(CompressOutput(CompressedName(file.value.name, format), encoded.value.value));
        status := Done;
      } else {
        errorMsg := "Compression failed.";
        status := Error;
      }
    }
  }
}
