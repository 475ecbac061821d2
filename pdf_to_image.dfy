/**
 * The PDF-to-image page: one PDF file and an output format, PNG or JPG,
 * whose initial value comes from the `format` query parameter. Converting
 * renders the pages one by one, from the first, and downloads each page
 * whose encoding gives a blob; a page that gives none is skipped.
 */
module PdfToImage {
  import opened Wrappers
  import opened Strings
  import opened Tool

  datatype ImageFormat = Png | Jpg

  /** The format as written in file names and in the query string. */
  function FormatName(format: ImageFormat): string
  {
    match format
    case Png => "png"
    case Jpg => "jpg"
  }

  /** getInitialFormat: the `format` query value, if there is one, picks
      JPG when it is exactly "jpg"; anything else is PNG. */
  function InitialFormat(query: Option<string>): (r: ImageFormat)
    ensures r == Jpg <==> query == Some("jpg")
  {
    if query == Some("jpg") then Jpg else Png
  }

  /** JPG is encoded as image/jpeg at quality 0.92; PNG as image/png with
      no quality argument. */
  function EncodingOf(format: ImageFormat): (r: Encoding)
    ensures r.mime == "image/jpeg" <==> format == Jpg
    ensures r.quality.Some? <==> format == Jpg
    ensures r.quality.Some? ==> r.quality.value == 0.92
  {
    match format
    case Jpg => Encoding("image/jpeg", Some(0.92))
    case Png => Encoding("image/png", None)
  }

  /** The base name keeps everything but a final ".pdf", whatever the
      case of its letters: "Report.PDF" and "Report.pdf" both give
      "Report". */
  lemma BaseNameDropsPdf(stem: string, ext: string)
    requires |ext| == 4 && StartsWithIgnoreCase(ext, ".pdf")
    ensures StripPdfSuffix(stem + ext) == stem
  {
    assert (stem + ext)[|stem + ext| - 4..] == ext;
  }

  /** A ".pdf" that is not at the very end stays: "a.pdf.txt" keeps its
      name. */
  lemma BaseNameKeepsInnerPdf(stem: string)
    ensures StripPdfSuffix(stem + ".pdf.txt") == stem + ".pdf.txt"
  {
    var name := stem + ".pdf.txt";
    assert name[|name| - 4..] == ".txt";
    assert LowerAscii('.') == '.' && LowerAscii('t') == 't' && LowerAscii('x') == 'x';
    assert !StartsWithIgnoreCase(name[|name| - 4..], ".pdf") by {
      assert LowerAscii(name[|name| - 3]) == 't' != 'p';
    }
  }

  /** The download name of page i (1-based) of a document of numPages pages. */
  function PageImageName(base: string, format: ImageFormat, i: nat, numPages: nat): string
  {
    if numPages > 1 then base + "_page" + NatToDecimal(i) + "." + FormatName(format)
    else base + "." + FormatName(format)
  }

  /** A one-page document's image is named after the document alone. */
  lemma SinglePageName(base: string, format: ImageFormat)
    ensures PageImageName(base, format, 1, 1) == base + "." + FormatName(format)
  {
  }

  /** Two different pages of a document of several pages get different
      names, so no download overwrites another. */
  lemma PageNamesDistinct(base: string, format: ImageFormat, i: nat, j: nat, numPages: nat)
    requires numPages > 1 && i != j
    ensures PageImageName(base, format, i, numPages) != PageImageName(base, format, j, numPages)
  {
    var prefix, suffix := base + "_page", "." + FormatName(format);
    var di, dj := NatToDecimal(i), NatToDecimal(j);
    assert PageImageName(base, format, i, numPages) == prefix + di + suffix;
    assert PageImageName(base, format, j, numPages) == prefix + dj + suffix;
    if prefix + di + suffix == prefix + dj + suffix {
      MiddleEqual(prefix, di, dj, suffix);
      NatToDecimalInjective(i, j);
    }
  }

  /** Equal texts with the same beginning and end agree in between. */
  lemma MiddleEqual(prefix: string, a: string, b: string, suffix: string)
    requires prefix + a + suffix == prefix + b + suffix
    ensures a == b
  {
    var t := prefix + a + suffix;
    assert a == t[|prefix|..|prefix| + |a|];
    assert b == t[|prefix|..|prefix| + |b|];
  }

  /** One file handed to the download link. */
  datatype Download = Download(page: nat, name: string, blob: nat)

  /** The first page in 1..n whose rendering throws, if any. */
  function FirstThrow(render: (nat, Encoding) -> Attempt<Option<nat>>, enc: Encoding, n: nat): (r: Option<nat>)
    ensures r.Some? ==> 1 <= r.value <= n && render(r.value, enc).Threw?
    ensures forall i | 1 <= i <= n && (r.None? || i < r.value) :: render(i, enc).Ok?
  {
    if n == 0 then None
    else
      var earlier := FirstThrow(render, enc, n - 1);
      if earlier.Some? then earlier
      else if render(n, enc).Threw? then Some(n)
      else None
  }

  /** The downloads made for pages 1..k of a document of numPages pages:
      one for each page whose encoding gives a blob, in page order. */
  function Downloads(base: string, format: ImageFormat, numPages: nat,
                     render: (nat, Encoding) -> Attempt<Option<nat>>, k: nat): (r: seq<Download>)
    ensures forall m | 0 <= m < |r| ::
              1 <= r[m].page <= k && r[m].name == PageImageName(base, format, r[m].page, numPages) &&
              render(r[m].page, EncodingOf(format)) == Ok(Some(r[m].blob))
    ensures forall m, m' | 0 <= m < m' < |r| :: r[m].page < r[m'].page
  {
    if k == 0 then []
    else
      var earlier := Downloads(base, format, numPages, render, k - 1);
      match render(k, EncodingOf(format))
      case Ok(Some(blob)) => earlier + [Download(k, PageImageName(base, format, k, numPages), blob)]
      case _ => earlier
  }

  /** Every page in 1..k whose encoding gives a blob is downloaded. */
  lemma {:induction false} DownloadsCover(base: string, format: ImageFormat, numPages: nat,
                                          render: (nat, Encoding) -> Attempt<Option<nat>>, k: nat, i: nat)
    requires 1 <= i <= k && render(i, EncodingOf(format)).Ok? && render(i, EncodingOf(format)).value.Some?
    ensures exists m | 0 <= m < |Downloads(base, format, numPages, render, k)| ::
              Downloads(base, format, numPages, render, k)[m].page == i
  {
    var r := Downloads(base, format, numPages, render, k);
    var earlier := Downloads(base, format, numPages, render, k - 1);
    if i == k {
      assert r[|earlier|].page == i;
    } else {
      DownloadsCover(base, format, numPages, render, k - 1, i);
      var m :| 0 <= m < |earlier| && earlier[m].page == i;
      assert r[m] == earlier[m];
    }
  }

  /** No two downloads of a conversion have the same name. */
  lemma DownloadNamesDistinct(base: string, format: ImageFormat, numPages: nat,
                              render: (nat, Encoding) -> Attempt<Option<nat>>, k: nat)
    requires numPages > 1
    ensures var r := Downloads(base, format, numPages, render, k);
            forall m, m' | 0 <= m < m' < |r| :: r[m].name != r[m'].name
  {
    var r := Downloads(base, format, numPages, render, k);
    forall m, m' | 0 <= m < m' < |r|
      ensures r[m].name != r[m'].name
    {
      PageNamesDistinct(base, format, r[m].page, r[m'].page, numPages);
    }
  }

  class PdfToImagePage {
    var file: Option<SourceFile>
    var format: ImageFormat
    var status: Status
    var errorMsg: string

    /** The page as first rendered, with the query's `format` value. */
    constructor (query: Option<string>)
      ensures file == None && format == InitialFormat(query) && status == Idle && errorMsg == ""
    {
      file := None;
      format := InitialFormat(query);
      status := Idle;
      errorMsg := "";
    }

    /** The effect that re-reads the format when the query changes. */
    method QueryChanged(query: Option<string>)
      modifies this
      ensures format == InitialFormat(query)
      ensures file == old(file) && status == old(status) && errorMsg == old(errorMsg)
    {
      format := InitialFormat(query);
    }

    /** Choosing PNG or JPG in the select. */
    method SetFormat(chosen: ImageFormat)
      modifies this
      ensures format == chosen
      ensures file == old(file) && status == old(status) && errorMsg == old(errorMsg)
    {
      format := chosen;
    }

    /** The picker: a PDF replaces the held file and clears the error; any
        other file clears the held file and sets an error. */
    method HandleFileChange(chosen: Option<SourceFile>)
      modifies this
      ensures format == old(format)
      ensures chosen.None? ==> file == old(file) && status == old(status) && errorMsg == old(errorMsg)
      ensures chosen.Some? && Accepts(Pdfs, chosen.value) ==>
                file == chosen && status == Idle && errorMsg == ""
      ensures chosen.Some? && !Accepts(Pdfs, chosen.value) ==>
                file == None && status == old(status) && errorMsg == "Please select a PDF file."
    {
      if chosen.Some? && Accepts(Pdfs, chosen.value) {
        file := chosen;
        status := Idle;
        errorMsg := "";
      } else if chosen.Some? {
        file := None;
        errorMsg := "Please select a PDF file.";
      }
    }

    /** A drop: like the picker, but a rejected file leaves the held one. */
    method HandleDrop(dropped: Option<SourceFile>)
      modifies this
      ensures format == old(format)
      ensures dropped.None? ==> file == old(file) && status == old(status) && errorMsg == old(errorMsg)
      ensures dropped.Some? && Accepts(Pdfs, dropped.value) ==>
                file == dropped && status == Idle && errorMsg == ""
      ensures dropped.Some? && !Accepts(Pdfs, dropped.value) ==>
                file == old(file) && status == old(status) && errorMsg == "Please drop a PDF file."
    {
      if dropped.Some? && Accepts(Pdfs, dropped.value) {
        file := dropped;
        status := Idle;
        errorMsg := "";
      } else if dropped.Some? {
        errorMsg := "Please drop a PDF file.";
      }
    }

    /** The convert button. `document` is what pdfjs makes of the held
        file: its page count, or what it throws. `render(i, e)` is what
        rendering page i and encoding it as e gives: a blob, null, or a
        throw (a missing canvas context throws "Canvas not available").
        A throw shows its message, or "Conversion failed" for a value that
        is not an Error. */
    method HandleConvert(document: Attempt<nat>, render: (nat, Encoding) -> Attempt<Option<nat>>)
      returns (downloads: seq<Download>)
      modifies this
      ensures file == old(file) && format == old(format)
      ensures file.None? ==> downloads == [] && status == old(status) && errorMsg == old(errorMsg)
      ensures file.Some? && document.Threw? ==>
                downloads == [] && status == Error && errorMsg == CaughtMessage(document.error, "Conversion failed")
      ensures file.Some? && document.Ok? ==>
                var n := document.value;
                var stop := FirstThrow(render, EncodingOf(format), n);
                if stop.None? then
                  downloads == Downloads(StripPdfSuffix(file.value.name), format, n, render, n) &&
                  status == Done && errorMsg == ""
                else
                  downloads == Downloads(StripPdfSuffix(file.value.name), format, n, render, stop.value - 1) &&
                  status == Error &&
                  errorMsg == CaughtMessage(render(stop.value, EncodingOf(format)).error, "Conversion failed")
    {
      downloads := [];
      if file.None? {
        return;
      }
      status := Processing;
      errorMsg := "";
      if document.Threw? {
        errorMsg := CaughtMessage(document.error, "Conversion failed");
        status := Error;
        return;
      }
      var thrown;
      downloads, thrown := ConvertPages(StripPdfSuffix(file.value.name), format, document.value, render);
      if thrown.Some? {
        errorMsg := CaughtMessage(thrown.value, "Conversion failed");
        status := Error;
      } else {
        status := Done;
      }
    }
  }

  /** The page loop: pages 1..numPages in order, a page whose encoding
      gives null skipped, the loop left at the first throw. */
  method ConvertPages(baseName: string, format: ImageFormat, numPages: nat,
                      render: (nat, Encoding) -> Attempt<Option<nat>>)
    returns (downloads: seq<Download>, thrown: Option<Thrown>)
    ensures FirstThrow(render, EncodingOf(format), numPages).None? ==>
              thrown.None? && downloads == Downloads(baseName, format, numPages, render, numPages)
    ensures FirstThrow(render, EncodingOf(format), numPages).Some? ==>
              thrown == Some(render(FirstThrow(render, EncodingOf(format), numPages).value, EncodingOf(format)).error) &&
              downloads == Downloads(baseName, format, numPages, render, FirstThrow(render, EncodingOf(format), numPages).value - 1)
  {
    downloads := [];
    var enc := EncodingOf(format);
    var i := 1;
    while i <= numPages
      invariant 1 <= i <= numPages + 1
      invariant FirstThrow(render, enc, i - 1).None?
      invariant downloads == Downloads(baseName, format, numPages, render, i - 1)
    {
      var rendered := render(i, enc);
      if rendered.Threw? {
        assert FirstThrow(render, enc, i) == Some(i);
        FirstThrowStays(render, enc, i, numPages);
        return downloads, Some(rendered.error);
      }
      if rendered.value.None? {
        i := i + 1;
        continue;
      }
      downloads := downloads + [Download(i, PageImageName(baseName, format, i, numPages), rendered.value.value)];
      i := i + 1;
    }
    thrown := None;
  }

  /** Once a page throws, later pages do not change which page threw first. */
  lemma {:induction false} FirstThrowStays(render: (nat, Encoding) -> Attempt<Option<nat>>, enc: Encoding, i: nat, n: nat)
    requires i <= n && FirstThrow(render, enc, i) == Some(i)
    ensures FirstThrow(render, enc, n) == Some(i)
    decreases n - i
  {
    if i < n {
      FirstThrowStays(render, enc, i, n - 1);
    }
  }
}
