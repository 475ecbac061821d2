/**
 * The bulk image converter: a list of images, grown by the picker and by
 * drops and shrunk by its remove buttons, and a target format. Converting
 * encodes the images one after the other into a zip archive, naming each
 * entry after the text of the file name before its first '.', and shows
 * the share of files done as a whole percentage.
 */
module BulkImageConverter {
  import opened Wrappers
  import opened Strings
  import opened Tool

  datatype TargetFormat = Png | Jpg | Webp

  function FormatName(format: TargetFormat): string
  {
    match format
    case Png => "png"
    case Jpg => "jpg"
    case Webp => "webp"
  }

  /** The MIME type asked of the canvas: jpg is image/jpeg, webp is
      image/webp, anything else image/png. */
  function MimeOf(format: TargetFormat): (r: string)
    ensures r == "image/" + (if format == Jpg then "jpeg" else FormatName(format))
  {
    if format == Jpg then "image/jpeg" else if format == Webp then "image/webp" else "image/png"
  }

  /** Every image is encoded at quality 0.9. */
  function EncodingOf(format: TargetFormat): Encoding
  {
    Encoding(MimeOf(format), Some(0.9))
  }

  /** The zip entry name of a file: `name.split('.')[0] + '.' + format`. */
  function EntryName(fileName: string, format: TargetFormat): (r: string)
    ensures r == BeforeFirstDot(fileName) + "." + FormatName(format)
  {
    Split(fileName, '.')[0] + "." + FormatName(format)
  }

  /** Entry names keep only the text before the first dot, so "a.b.png"
      and "a.jpg" both become "a.<format>". */
  lemma EntryNameCutsAtFirstDot(stem: string, rest: string, format: TargetFormat)
    requires '.' !in stem
    ensures EntryName(stem + "." + rest, format) == stem + "." + FormatName(format)
  {
    BeforeFirstDotOfStem(stem, rest);
  }

  /** `Math.round((k / n) * 100)` for 0 <= k <= n, n > 0, computed exactly:
      round(x) is floor(x + 1/2), and (100k/n + 1/2) = (200k + n) / 2n. */
  function Progress(k: nat, n: nat): nat
    requires n > 0
  {
    (200 * k + n) / (2 * n)
  }

  /** The percentage never goes down as more files are done. */
  lemma ProgressMonotone(j: nat, k: nat, n: nat)
    requires n > 0 && j <= k
    ensures Progress(j, n) <= Progress(k, n)
  {
    assert 200 * j + n <= 200 * k + n;
    DivMonotone(200 * j + n, 200 * k + n, 2 * n);
  }

  lemma DivMonotone(a: nat, b: nat, d: nat)
    requires a <= b && d > 0
    ensures a / d <= b / d
  {
    var q, q' := a / d, b / d;
    assert q * d <= a;
    assert b < (q' + 1) * d;
    FactorLess(q, q' + 1, d);
  }

  lemma FactorLess(x: int, y: int, d: int)
    requires d > 0 && x * d < y * d
    ensures x < y
  {
    assert (y - x) * d == y * d - x * d;
  }

  /** It starts at 0, ends at exactly 100, and never exceeds 100. */
  lemma ProgressBounds(k: nat, n: nat)
    requires n > 0 && k <= n
    ensures Progress(0, n) == 0
    ensures Progress(n, n) == 100
    ensures Progress(k, n) <= 100
  {
    assert 200 * 0 + n == 0 * (2 * n) + n;
    DivOf(0, n, 2 * n);
    assert 200 * n + n == 100 * (2 * n) + n;
    DivOf(100, n, 2 * n);
    ProgressMonotone(k, n, n);
  }

  /** Division undoes multiplication when the remainder is below the divisor. */
  lemma DivOf(q: nat, r: nat, d: nat)
    requires r < d
    ensures (q * d + r) / d == q
  {
    var x := q * d + r;
    var q', r' := x / d, x % d;
    assert q' * d + r' == q * d + r;
    assert (q' - q) * d == r - r';
    assert (q - q') * d == r' - r;
    FactorLess(q' - q, 1, d);
    FactorLess(q - q', 1, d);
  }

  /** The first file among the first k whose encoding throws, if any. */
  function FirstThrow(encode: (nat, Encoding) -> Attempt<Option<nat>>, enc: Encoding, k: nat): (r: Option<nat>)
    ensures r.Some? ==> r.value < k && encode(r.value, enc).Threw?
    ensures forall i | 0 <= i < k && (r.None? || i < r.value) :: encode(i, enc).Ok?
  {
    if k == 0 then None
    else
      var earlier := FirstThrow(encode, enc, k - 1);
      if earlier.Some? then earlier
      else if encode(k - 1, enc).Threw? then Some(k - 1)
      else None
  }

  lemma {:induction false} FirstThrowStays(encode: (nat, Encoding) -> Attempt<Option<nat>>, enc: Encoding, i: nat, n: nat)
    requires i < n && FirstThrow(encode, enc, i + 1) == Some(i)
    ensures FirstThrow(encode, enc, n) == Some(i)
    decreases n - i
  {
    if i + 1 < n {
      FirstThrowStays(encode, enc, i, n - 1);
    }
  }

  /** The archive after the first k files: `zip.file(name, blob)` for each
      file whose encoding gives a blob; a later entry of the same name
      replaces an earlier one. */
  function ZipOf(files: seq<SourceFile>, format: TargetFormat,
                 encode: (nat, Encoding) -> Attempt<Option<nat>>, k: nat): map<string, nat>
    requires k <= |files|
  {
    if k == 0 then map[]
    else
      var earlier := ZipOf(files, format, encode, k - 1);
      match encode(k - 1, EncodingOf(format))
      case Ok(Some(blob)) => earlier[EntryName(files[k - 1].name, format) := blob]
      case _ => earlier
  }

  /** File i gave a blob. */
  predicate Encoded(encode: (nat, Encoding) -> Attempt<Option<nat>>, format: TargetFormat, i: nat)
  {
    encode(i, EncodingOf(format)).Ok? && encode(i, EncodingOf(format)).value.Some?
  }

  /** One step of the archive: the k-th file's blob, if any, is put under
      its entry name. */
  lemma ZipStep(files: seq<SourceFile>, format: TargetFormat,
                encode: (nat, Encoding) -> Attempt<Option<nat>>, k: nat)
    requires 0 < k <= |files|
    ensures Encoded(encode, format, k - 1) ==>
              ZipOf(files, format, encode, k) ==
              ZipOf(files, format, encode, k - 1)[EntryName(files[k - 1].name, format) := encode(k - 1, EncodingOf(format)).value.value]
    ensures !Encoded(encode, format, k - 1) ==> ZipOf(files, format, encode, k) == ZipOf(files, format, encode, k - 1)
  {
  }

  /** File i gave a blob and its entry name is `name`. */
  predicate NamedBy(files: seq<SourceFile>, format: TargetFormat,
                    encode: (nat, Encoding) -> Attempt<Option<nat>>, i: nat, name: string)
    requires i < |files|
  {
    Encoded(encode, format, i) && EntryName(files[i].name, format) == name
  }

  /** The archive holds an entry for a name exactly when one of the files
      encoded so far has that entry name. */
  lemma {:induction false} ZipNames(files: seq<SourceFile>, format: TargetFormat,
                                    encode: (nat, Encoding) -> Attempt<Option<nat>>, k: nat, name: string)
    requires k <= |files|
    ensures name in ZipOf(files, format, encode, k) <==>
              exists i | 0 <= i < k :: NamedBy(files, format, encode, i, name)
  {
    if k > 0 {
      ZipNames(files, format, encode, k - 1, name);
      ZipStep(files, format, encode, k);
      if NamedBy(files, format, encode, k - 1, name) {
        assert name in ZipOf(files, format, encode, k);
      } else if name in ZipOf(files, format, encode, k - 1) {
        var i :| 0 <= i < k - 1 && NamedBy(files, format, encode, i, name);
        assert name in ZipOf(files, format, encode, k);
      } else {
        assert name !in ZipOf(files, format, encode, k);
        assert forall i | 0 <= i < k :: !NamedBy(files, format, encode, i, name);
      }
    }
  }

  /** Of several files with the same entry name, the last one encoded
      wins: its blob is the entry's content. */
  lemma {:induction false} ZipLastWins(files: seq<SourceFile>, format: TargetFormat,
                                       encode: (nat, Encoding) -> Attempt<Option<nat>>, k: nat, i: nat)
    requires i < k <= |files| && Encoded(encode, format, i)
    requires forall j | i < j < k :: !(Encoded(encode, format, j) && EntryName(files[j].name, format) == EntryName(files[i].name, format))
    ensures EntryName(files[i].name, format) in ZipOf(files, format, encode, k)
    ensures ZipOf(files, format, encode, k)[EntryName(files[i].name, format)] == encode(i, EncodingOf(format)).value.value
  {
    ZipStep(files, format, encode, k);
    if i < k - 1 {
      ZipLastWins(files, format, encode, k - 1, i);
    }
  }

  /** The archive handed to the download link. */
  datatype ZipOutput = ZipOutput(entries: map<string, nat>, name: string)

  class BulkImageConverterPage {
    var files: seq<SourceFile>
    var format: TargetFormat
    var status: Status
    var progress: nat
    var errorMsg: string

    constructor ()
      ensures files == [] && format == Png && status == Idle && progress == 0 && errorMsg == ""
    {
      files := [];
      format := Png;
      status := Idle;
      progress := 0;
      errorMsg := "";
    }

    /** The picker: the chosen images are appended after the list, in the
        order chosen; when none is an image the list stays and an error is
        set; an empty choice changes nothing. */
    method HandleFileChange(chosen: seq<SourceFile>)
      modifies this
      ensures format == old(format) && progress == old(progress)
      ensures chosen == [] ==> files == old(files) && status == old(status) && errorMsg == old(errorMsg)
      ensures chosen != [] && Accepted(chosen, Images) == [] ==>
                files == old(files) && status == old(status) && errorMsg == "Please select image files."
      ensures Accepted(chosen, Images) != [] ==>
                files == old(files) + Accepted(chosen, Images) && status == Idle && errorMsg == ""
    {
      if |chosen| > 0 {
        var newFiles := Accepted(chosen, Images);
        if |newFiles| == 0 {
          errorMsg := "Please select image files.";
          return;
        }
        files := files + newFiles;
        status := Idle;
        errorMsg := "";
      }
    }

    /** A drop: as the picker, with its own message. */
    method HandleDrop(dropped: seq<SourceFile>)
      modifies this
      ensures format == old(format) && progress == old(progress)
      ensures dropped == [] ==> files == old(files) && status == old(status) && errorMsg == old(errorMsg)
      ensures dropped != [] && Accepted(dropped, Images) == [] ==>
                files == old(files) && status == old(status) && errorMsg == "Please drop image files."
      ensures Accepted(dropped, Images) != [] ==>
                files == old(files) + Accepted(dropped, Images) && status == Idle && errorMsg == ""
    {
      if |dropped| > 0 {
        var newFiles := Accepted(dropped, Images);
        if |newFiles| == 0 {
          errorMsg := "Please drop image files.";
          return;
        }
        files := files + newFiles;
        status := Idle;
        errorMsg := "";
      }
    }

    /** The remove button of the file at `index`. */
    method RemoveFile(index: int)
      modifies this
      ensures 0 <= index < |old(files)| ==> files == old(files)[..index] + old(files)[index + 1..]
      ensures !(0 <= index < |old(files)|) ==> files == old(files)
      ensures format == old(format) && status == old(status) && progress == old(progress) && errorMsg == old(errorMsg)
    {
      files := RemoveAt(files, index);
    }

    /** Choosing a format in the select. */
    method SetFormat(chosen: TargetFormat)
      modifies this
      ensures format == chosen
      ensures files == old(files) && status == old(status) && progress == old(progress) && errorMsg == old(errorMsg)
    {
      format := chosen;
    }

    /** The convert button. `encode(i, e)` is what drawing the i-th image
        and encoding it as e gives: a blob, null, or a throw (a missing
        canvas context throws); `zipped` says whether the archive is
        generated; `now` is `Date.now()`. `shown` lists the progress values
        the page displays, one per file done. */
    method HandleConvert(encode: (nat, Encoding) -> Attempt<Option<nat>>, zipped: bool, now: nat)
      returns (out: Option<ZipOutput>, shown: seq<nat>)
      modifies this
      ensures files == old(files) && format == old(format)
      ensures files == [] ==>
                out.None? && shown == [] && status == old(status) && progress == old(progress) &&
                errorMsg == "Please select images."
      ensures files != [] ==> forall m | 0 <= m < |shown| :: shown[m] == Progress(m + 1, |files|)
      ensures files != [] && FirstThrow(encode, EncodingOf(format), |files|).Some? ==>
                out.None? && status == Error && errorMsg == "Failed to convert images." &&
                |shown| == FirstThrow(encode, EncodingOf(format), |files|).value &&
                progress == Progress(|shown|, |files|)
      ensures files != [] && FirstThrow(encode, EncodingOf(format), |files|).None? ==>
                |shown| == |files| && progress == 100
      ensures files != [] && FirstThrow(encode, EncodingOf(format), |files|).None? && !zipped ==>
                out.None? && status == Error && errorMsg == "Failed to convert images."
      ensures files != [] && FirstThrow(encode, EncodingOf(format), |files|).None? && zipped ==>
                out == Some(ZipOutput(ZipOf(files, format, encode, |files|), "converted_images_" + NatToDecimal(now) + ".zip")) &&
                status == Done && errorMsg == ""
      ensures forall a, b | 0 <= a <= b < |shown| :: shown[a] <= shown[b]
    {
      out := None;
      shown := [];
      if |files| == 0 {
        errorMsg := "Please select images.";
        return;
      }
      status := Processing;
      progress := 0;
      errorMsg := "";
      var zip, failedAt;
      zip, shown, failedAt := EncodeAll(files, format, encode);
      progress := Progress(|shown|, |files|);
      ShownAscending(shown, |files|);
      if failedAt.Some? {
        errorMsg := "Failed to convert images.";
        status := Error;
        return;
      }
      ProgressBounds(|files|, |files|);
      if !zipped {
        errorMsg := "Failed to convert images.";
        status := Error;
        return;
      }
      out := Some(ZipOutput(zip, "converted_images_" + NatToDecimal(now) + ".zip"));
      status := Done;
    }
  }

  /** The conversion loop: each file in turn is encoded, its blob (if
      any) put in the archive and the progress shown; the first throw ends
      the loop. Returns the archive, the progress values shown, and the
      index of the file that threw, if one did. */
  method EncodeAll(files: seq<SourceFile>, format: TargetFormat, encode: (nat, Encoding) -> Attempt<Option<nat>>)
    returns (zip: map<string, nat>, shown: seq<nat>, failedAt: Option<nat>)
    requires files != []
    ensures failedAt == FirstThrow(encode, EncodingOf(format), |files|)
    ensures failedAt.None? ==> |shown| == |files| && zip == ZipOf(files, format, encode, |files|)
    ensures failedAt.Some? ==> |shown| == failedAt.value
    ensures shown == ProgressShown(|shown|, |files|)
  {
    var n := |files|;
    var enc := EncodingOf(format);
    zip := map[];
    shown := [];
    var i := 0;
    while i < n
      invariant 0 <= i <= n
      invariant FirstThrow(encode, enc, i).None?
      invariant zip == ZipOf(files, format, encode, i)
      invariant shown == ProgressShown(i, n)
    {
      var encoded := encode(i, enc);
      if encoded.Threw? {
        assert FirstThrow(encode, enc, i + 1) == Some(i);
        FirstThrowStays(encode, enc, i, n);
        failedAt := Some(i);
        return;
      }
      if encoded.value.Some? {
        zip := zip[EntryName(files[i].name, format) := encoded.value.value];
      }
      ZipStep(files, format, encode, i + 1);
      ProgressShownStep(i, n);
      shown := shown + [Progress(i + 1, n)];
      i := i + 1;
    }
    failedAt := None;
  }

  /** The progress values shown once k files are done, one per file. */
  function ProgressShown(k: nat, n: nat): (r: seq<nat>)
    requires n > 0
    ensures |r| == k
    ensures forall m | 0 <= m < k :: r[m] == Progress(m + 1, n)
  {
    seq(k, m requires 0 <= m < k => Progress(m + 1, n))
  }

  lemma ProgressShownStep(k: nat, n: nat)
    requires n > 0
    ensures ProgressShown(k + 1, n) == ProgressShown(k, n) + [Progress(k + 1, n)]
  {
    assert ProgressShown(k + 1, n)[..k] == ProgressShown(k, n);
  }

  /** A list of successive progress values never goes down. */
  lemma ShownAscending(shown: seq<nat>, n: nat)
    requires n > 0
    requires forall m | 0 <= m < |shown| :: shown[m] == Progress(m + 1, n)
    ensures forall a, b | 0 <= a <= b < |shown| :: shown[a] <= shown[b]
  {
    forall a, b | 0 <= a <= b < |shown|
      ensures shown[a] <= shown[b]
    {
      ProgressMonotone(a + 1, b + 1, n);
    }
  }
}
