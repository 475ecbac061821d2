/**
 * The HTML-to-PDF page: any file is taken in and read as text; unless it
 * already starts a full document it is wrapped in a minimal one; it is
 * rendered in an off-screen frame, rasterised, and the picture is laid
 * down the pages of an A4 document, as many pages as its height needs
 * and never fewer than one.
 */
module HtmlToPdf {
  import opened Wrappers
  import opened Strings
  import opened Tool

  const Doctype: string := "<!DOCTYPE"
  const Prefix: string := Doctype + " html><html><head><meta charset=\"utf-8\"></head><body style=\"margin:0;padding:12px;font-family:system-ui,sans-serif;\">"
  const Suffix: string := "</body></html>"

  /** `/^\s*<!DOCTYPE|^\s*<html/i`: after any leading white space the text
      starts with `<!doctype` or `<html`, in any letter case. */
  predicate IsFullDocument(html: string)
  {
    StartsWithIgnoreCase(TrimStart(html), "<!doctype") ||
    StartsWithIgnoreCase(TrimStart(html), "<html")
  }

  /** What is written into the frame. */
  function Wrap(html: string): (r: string)
    ensures IsFullDocument(html) ==> r == html
    ensures !IsFullDocument(html) ==> r == Prefix + html + Suffix
  {
    if IsFullDocument(html) then html else Prefix + html + Suffix
  }

  /** The template itself starts a full document. */
  lemma TemplateIsFullDocument(html: string)
    ensures IsFullDocument(Prefix + html + Suffix)
  {
    var w := Prefix + html + Suffix;
    assert Prefix[..9] == Doctype;
    assert forall i | 0 <= i < 9 :: w[i] == Doctype[i];
    assert !IsJsSpace(w[0]);
    assert TrimStart(w) == w;
  }

  /** The text is passed through unchanged exactly when it is a full
      document; otherwise it becomes the body of the template. */
  lemma WrapKeepsOnlyFullDocuments(html: string)
    ensures Wrap(html) == html <==> IsFullDocument(html)
  {
    if !IsFullDocument(html) {
      assert |Wrap(html)| > |html|;
    }
  }

  /** Wrapping twice is wrapping once. */
  lemma WrapIdempotent(html: string)
    ensures Wrap(Wrap(html)) == Wrap(html)
  {
    if !IsFullDocument(html) {
      TemplateIsFullDocument(html);
    }
  }

  /** `Math.ceil` on exact reals. */
  function Ceil(x: real): (r: int)
    ensures r as real - 1.0 < x <= r as real
  {
    -((-x).Floor)
  }

  /** A positive length. */
  type Positive = x: real | x > 0.0 witness 1.0

  /** A width in pixels: the frame is 800 pixels wide, so the picture is
      never empty across. */
  type Pixels = n: nat | n > 0 witness 1

  /** The rasterised page: width and height in pixels. */
  datatype Canvas = Canvas(width: Pixels, height: nat)

  /** The picture's height once scaled to the page width. */
  function ScaledHeight(canvas: Canvas, pageW: Positive): (r: real)
    ensures r >= 0.0
    ensures canvas.height as real <= canvas.width as real ==> r <= pageW
  {
    ScaleBound(canvas.height as real, canvas.width as real, pageW);
    canvas.height as real * (pageW / canvas.width as real)
  }

  /** h scaled by pageW / w is at most pageW when h is at most w. */
  lemma ScaleBound(h: real, w: Positive, pageW: Positive)
    requires h >= 0.0
    ensures h * (pageW / w) >= 0.0
    ensures h <= w ==> h * (pageW / w) <= pageW
  {
    var f := pageW / w;
    assert f > 0.0;
    assert w * f == pageW;
    if h <= w {
      assert h * f <= w * f;
    }
  }

  /** `Math.max(1, Math.ceil(scaledH / pageH))`. */
  function PageCount(scaledH: real, pageH: Positive): (r: nat)
    requires scaledH >= 0.0
    ensures r >= 1
    ensures scaledH <= r as real * pageH
    ensures r > 1 ==> (r - 1) as real * pageH < scaledH
  {
    var c := Ceil(scaledH / pageH);
    CeilPages(scaledH, pageH, c);
    if c < 1 then 1 else c
  }

  /** Scaling the bounds of the ceiling back by the page height. */
  lemma CeilPages(h: real, pageH: Positive, c: int)
    requires c as real - 1.0 < h / pageH <= c as real
    ensures h <= c as real * pageH
    ensures (c - 1) as real * pageH < h
  {
    var q := h / pageH;
    assert h == q * pageH;
    var d, e := (c - 1) as real, c as real;
    assert d == e - 1.0;
    assert d < q;
    ScaleOrder(d, q, pageH);
    assert d * pageH < h;
    ScaleOrder(q, e, pageH);
  }

  /** Multiplying by a positive number keeps the order. */
  lemma ScaleOrder(a: real, b: real, k: Positive)
    ensures a < b ==> a * k < b * k
    ensures a <= b ==> a * k <= b * k
  {
    assert b * k - a * k == (b - a) * k;
  }

  /** A picture no taller than a page takes one page. */
  lemma {:induction false} PageCountOfShortPicture(scaledH: real, pageH: Positive)
    requires 0.0 <= scaledH <= pageH
    ensures PageCount(scaledH, pageH) == 1
  {
    var r := PageCount(scaledH, pageH);
    AtLeastOnePage(r - 1, pageH);
  }

  lemma AtLeastOnePage(k: nat, pageH: Positive)
    ensures k >= 1 ==> k as real * pageH >= pageH
  {
    if k >= 1 {
      assert k as real * pageH == pageH + (k - 1) as real * pageH;
    }
  }

  /** The saved document: the markup that was rendered, its page count and
      its file name. */
  datatype HtmlOutput = HtmlOutput(rendered: string, pageCount: nat, name: string)

  /** What the frame and html2canvas give for a markup: a canvas, no body
      to render (None), or a throw. */
  datatype Rendering = Rendered(canvas: Canvas) | NoBody | RenderThrew(error: Thrown)

  class HtmlToPdfPage {
    var file: Option<SourceFile>
    var status: Status
    var errorMsg: string

    constructor ()
      ensures file == None && status == Idle && errorMsg == ""
    {
      file := None;
      status := Idle;
      errorMsg := "";
    }

    /** The picker takes any file, with no type check. */
    method HandleFileChange(chosen: Option<SourceFile>)
      modifies this
      ensures chosen.None? ==> file == old(file) && status == old(status) && errorMsg == old(errorMsg)
      ensures chosen.Some? ==> file == chosen && status == Idle && errorMsg == ""
    {
      if chosen.Some? {
        file := chosen;
        status := Idle;
        errorMsg := "";
      }
    }

    /** A drop takes any file too. */
    method HandleDrop(dropped: Option<SourceFile>)
      modifies this
      ensures dropped.None? ==> file == old(file) && status == old(status) && errorMsg == old(errorMsg)
      ensures dropped.Some? ==> file == dropped && status == Idle && errorMsg == ""
    {
      if dropped.Some? {
        file := dropped;
        status := Idle;
        errorMsg := "";
      }
    }

    /** The convert button. `read` is what reading the file as text gives;
        `frameReady` whether the off-screen frame has a document and a
        window; `render` what rendering a markup in it and rasterising it
        gives; `contextReady` whether a 2D canvas context is available; the
        page is pageW by pageH points. */
    method HandleConvert(read: Attempt<string>, frameReady: bool, render: string -> Rendering,
                         contextReady: bool, pageW: Positive, pageH: Positive)
      returns (out: Option<HtmlOutput>)
      modifies this
      ensures file == old(file)
      ensures out.Some? ==> file.Some? && read.Ok? && status == Done && errorMsg == ""
      ensures file.None? ==> out.None? && status == old(status) && errorMsg == old(errorMsg)
      ensures file.Some? && read.Threw? ==>
                out.None? && status == Error && errorMsg == CaughtMessage(read.error, "Conversion failed")
      ensures file.Some? && read.Ok? && !frameReady ==>
                out.None? && status == Error && errorMsg == "Could not create iframe"
      ensures file.Some? && read.Ok? && frameReady && render(Wrap(read.value)).NoBody? ==>
                out.None? && status == Error && errorMsg == "Could not render HTML"
      ensures file.Some? && read.Ok? && frameReady && render(Wrap(read.value)).RenderThrew? ==>
                out.None? && status == Error &&
                errorMsg == CaughtMessage(render(Wrap(read.value)).error, "Conversion failed")
      ensures file.Some? && read.Ok? && frameReady && render(Wrap(read.value)).Rendered? && !contextReady ==>
                out.None? && status == Error && errorMsg == "Canvas not available"
      ensures file.Some? && read.Ok? && frameReady && render(Wrap(read.value)).Rendered? && contextReady ==>
                out == Some(HtmlOutput(Wrap(read.value),
                                       PageCount(ScaledHeight(render(Wrap(read.value)).canvas, pageW), pageH),
                                       BaseName(file.value.name) + ".pdf"))
    {
      out := None;
      if file.None? {
        return;
      }
      status := Processing;
      errorMsg := "";
      if read.Threw? {
        errorMsg := CaughtMessage(read.error, "Conversion failed");
        status := Error;
        return;
      }
      var html := read.value;
      if !frameReady {
        errorMsg := "Could not create iframe";
        status := Error;
        return;
      }
      var wrapped := Wrap(html);
      var rendering := render(wrapped);
      match rendering
      case NoBody =>
        errorMsg := "Could not render HTML";
        status := Error;
      case RenderThrew(e) =>
        errorMsg := CaughtMessage(e, "Conversion failed");
        status := Error;
      case Rendered(canvas) =>
        var totalPages := PageCount(ScaledHeight(canvas, pageW), pageH);
        if !contextReady {
          errorMsg := "Canvas not available";
          status := Error;
          return;
        }
        out := Some(HtmlOutput(wrapped, totalPages, BaseName(file.value.name) + ".pdf"));
        status := Done;
    }
  }
}
