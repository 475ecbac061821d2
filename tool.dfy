/**
 * What every tool page shares: the status it shows next to its error
 * message, the files it is handed, the type tests of its intake handlers,
 * the filtered append and remove-by-index of the multi-file lists, and
 * the message a catch block shows.
 */
module Tool {
  import opened Wrappers
  import opened Strings

  /** The status each page keeps. The converters' 'converting' is
      Processing here. */
  datatype Status = Idle | Processing | Done | Error

  /** A File as the pages use it: its name and its MIME type. */
  datatype SourceFile = SourceFile(name: string, mime: string)

  /** What a catch block receives: an Error object, or any other value. */
  datatype Thrown = ErrorObject(message: string) | OtherValue

  /** A call into a library that either returns a value or throws. */
  datatype Attempt<T> = Ok(value: T) | Threw(error: Thrown)

  /** What canvas.toBlob is asked for: a MIME type and, optionally, a
      quality between 0 and 1. */
  datatype Encoding = Encoding(mime: string, quality: Option<real>)

  /** `err instanceof Error ? err.message : fallback`. */
  function CaughtMessage(e: Thrown, fallback: string): string
  {
    match e
    case ErrorObject(message) => message
    case OtherValue => fallback
  }

  /** The type tests of the intake handlers. */
  datatype FileKind = Pdfs | Images

  predicate Accepts(kind: FileKind, f: SourceFile)
  {
    match kind
    case Pdfs => f.mime == "application/pdf"
    case Images => StartsWith(f.mime, "image/")
  }

  /** `Array.from(files).filter(f => <type test>)`. */
  function Accepted(files: seq<SourceFile>, kind: FileKind): (r: seq<SourceFile>)
    ensures |r| <= |files|
    ensures forall f :: f in r <==> f in files && Accepts(kind, f)
  {
    if files == [] then []
    else
      var rest := Accepted(files[..|files| - 1], kind);
      var last := files[|files| - 1];
      assert files == files[..|files| - 1] + [last];
      if Accepts(kind, last) then rest + [last] else rest
  }

  /** Filtering keeps the order of the list: filtering two lists one after
      the other is filtering each and joining the results. */
  lemma {:induction false} AcceptedAppend(a: seq<SourceFile>, b: seq<SourceFile>, kind: FileKind)
    ensures Accepted(a + b, kind) == Accepted(a, kind) + Accepted(b, kind)
    decreases |b|
  {
    if b == [] {
      assert a + b == a;
    } else {
      var init, last := b[..|b| - 1], b[|b| - 1];
      assert (a + b)[..|a + b| - 1] == a + init;
      assert (a + b)[|a + b| - 1] == last;
      AcceptedAppend(a, init, kind);
    }
  }

  /** A list whose every file passes the test comes through whole. */
  lemma {:induction false} AcceptedAll(files: seq<SourceFile>, kind: FileKind)
    requires forall i | 0 <= i < |files| :: Accepts(kind, files[i])
    ensures Accepted(files, kind) == files
  {
    if files != [] {
      AcceptedAll(files[..|files| - 1], kind);
    }
  }

  /** `xs.filter((_, i) => i !== index)`. */
  function RemoveAt<T>(xs: seq<T>, index: int): (r: seq<T>)
    ensures 0 <= index < |xs| ==> r == xs[..index] + xs[index + 1..]
    ensures !(0 <= index < |xs|) ==> r == xs
  {
    if xs == [] then []
    else
      var rest := RemoveAt(xs[1..], index - 1);
      if index == 0 then
        assert xs[..0] + xs[1..] == rest;
        rest
      else
        assert xs == [xs[0]] + xs[1..];
        assert 0 <= index < |xs| ==> xs[..index] == [xs[0]] + xs[1..][..index - 1];
        [xs[0]] + rest
  }

  /** The converters' `name.replace(/\.[^.]+$/, '') || 'document'`. */
  function BaseName(name: string): (r: string)
    ensures r != ""
  {
    var stripped := StripLastExtension(name);
    if stripped == "" then "document" else stripped
  }

  /** The last extension goes: "notes.txt" gives "notes", "a.tar.gz" gives
      "a.tar", and a name that is only an extension, ".txt", gives
      "document". */
  lemma BaseNameOfExtension(stem: string, ext: string)
    requires ext != [] && '.' !in ext
    ensures BaseName(stem + "." + ext) == if stem == "" then "document" else stem
  {
    var name := stem + "." + ext;
    assert name[|stem|] == '.';
    assert name[|stem| + 1..] == ext;
    var k := LastIndexOf(name, '.');
    assert k.Some?;
    assert forall j | |stem| < j < |name| :: name[j] == ext[j - |stem| - 1];
    assert forall j | k.value < j < |name| :: name[j] in name[k.value + 1..];
    assert name[..|stem|] == stem;
  }

  /** A name without a dot keeps its name. */
  lemma BaseNameWithoutDot(name: string)
    requires name != [] && '.' !in name
    ensures BaseName(name) == name
  {
  }
}
