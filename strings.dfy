/**
 * The string operations of JavaScript that the tool pages use:
 * String.prototype.trim, split on one character, replace of the first
 * occurrence of a literal, the three file-name regular expressions
 * (/\.pdf$/i, /\.[^.]+$/ and the text before the first '.'), and the
 * decimal digit strings written by template literals.
 */
module Strings {
  import opened Wrappers

  /** The white space and line terminators that JavaScript's trim and the
      regular-expression class \s remove or match (ECMAScript's WhiteSpace
      and LineTerminator productions; the Zs category is listed out). */
  predicate IsJsSpace(c: char)
  {
    c == '\t' || c == '\n' || c == '\U{B}' || c == '\U{C}' || c == '\r' || c == ' ' ||
    c == '\U{A0}' || c == '\U{1680}' || ('\U{2000}' <= c <= '\U{200A}') ||
    c == '\U{2028}' || c == '\U{2029}' || c == '\U{202F}' || c == '\U{205F}' ||
    c == '\U{3000}' || c == '\U{FEFF}'
  }

  /** Leading white space removed: the result is a suffix of s, everything
      cut off is white space, and it does not itself start with white space. */
  function TrimStart(s: string): (r: string)
    ensures |r| <= |s| && r == s[|s| - |r|..]
    ensures forall i | 0 <= i < |s| - |r| :: IsJsSpace(s[i])
    ensures r == [] || !IsJsSpace(r[0])
  {
    if |s| > 0 && IsJsSpace(s[0]) then
      var r := TrimStart(s[1..]);
      assert s[1..][|s| - 1 - |r|..] == s[|s| - |r|..];
      assert forall i | 1 <= i < |s| - |r| :: s[i] == s[1..][i - 1];
      r
    else s
  }

  /** Trailing white space removed: the result is a prefix of s, everything
      cut off is white space, and it does not itself end with white space. */
  function TrimEnd(s: string): (r: string)
    ensures |r| <= |s| && r == s[..|r|]
    ensures forall i | |r| <= i < |s| :: IsJsSpace(s[i])
    ensures r == [] || !IsJsSpace(r[|r| - 1])
  {
    if |s| > 0 && IsJsSpace(s[|s| - 1]) then
      var r := TrimEnd(s[..|s| - 1]);
      assert s[..|s| - 1][..|r|] == s[..|r|];
      assert forall i | |r| <= i < |s| - 1 :: s[i] == s[..|s| - 1][i];
      r
    else s
  }

  /** String.prototype.trim: the result is the infix of s that starts after
      its leading white space, with only white space after it and none at
      either of its ends. */
  function Trim(s: string): (r: string)
    ensures |s| - |TrimStart(s)| + |r| <= |s|
    ensures r == s[|s| - |TrimStart(s)|..|s| - |TrimStart(s)| + |r|]
    ensures forall i | 0 <= i < |s| - |TrimStart(s)| :: IsJsSpace(s[i])
    ensures forall i | |s| - |TrimStart(s)| + |r| <= i < |s| :: IsJsSpace(s[i])
    ensures r == [] || (!IsJsSpace(r[0]) && !IsJsSpace(r[|r| - 1]))
  {
    var t := TrimStart(s);
    var r := TrimEnd(t);
    TrimFacts(s, t, r);
    r
  }

  lemma {:induction false} TrimFacts(s: string, t: string, r: string)
    requires t == TrimStart(s) && r == TrimEnd(t)
    ensures r == s[|s| - |t|..|s| - |t| + |r|]
    ensures forall i | |s| - |t| + |r| <= i < |s| :: IsJsSpace(s[i])
    ensures r == [] || !IsJsSpace(r[0])
  {
    TrimSlice(s, t, r);
    TrimTail(s, t, r);
    assert r != [] ==> r[0] == t[0];
  }

  lemma TrimSlice(s: string, t: string, r: string)
    requires |t| <= |s| && t == s[|s| - |t|..]
    requires |r| <= |t| && r == t[..|r|]
    ensures r == s[|s| - |t|..|s| - |t| + |r|]
  {
  }

  lemma TrimTail(s: string, t: string, r: string)
    requires |t| <= |s| && t == s[|s| - |t|..]
    requires |r| <= |t| && forall j | |r| <= j < |t| :: IsJsSpace(t[j])
    ensures forall i | |s| - |t| + |r| <= i < |s| :: IsJsSpace(s[i])
  {
    var lo := |s| - |t|;
    forall i | lo + |r| <= i < |s| ensures IsJsSpace(s[i]) {
      assert s[i] == t[i - lo];
    }
  }

  lemma {:induction false} TrimStartNoop(s: string)
    requires s == [] || !IsJsSpace(s[0])
    ensures TrimStart(s) == s
  {
  }

  /** Trimming twice is trimming once. */
  lemma TrimIdempotent(s: string)
    ensures Trim(Trim(s)) == Trim(s)
  {
    var r := Trim(s);
    var t := TrimStart(r);
    if r != [] {
      assert !IsJsSpace(r[0]);
    }
    TrimStartNoop(r);
    assert t == r;
  }

  /** The pieces joined back with the separator between them. */
  function Join(pieces: seq<string>, sep: char): string
    requires |pieces| >= 1
  {
    if |pieces| == 1 then pieces[0] else pieces[0] + [sep] + Join(pieces[1..], sep)
  }

  /** String.prototype.split with a one-character separator: at least one
      piece, none holds the separator, and more than one exactly when the
      separator occurs. */
  function Split(s: string, sep: char): (r: seq<string>)
    ensures |r| >= 1
    ensures forall k | 0 <= k < |r| :: sep !in r[k]
    ensures (|r| == 1) == (sep !in s)
  {
    if |s| == 0 then [""]
    else if s[0] == sep then
      [""] + Split(s[1..], sep)
    else
      var t := Split(s[1..], sep);
      var r := [[s[0]] + t[0]] + t[1..];
      assert r[1..] == t[1..];
      assert s == [s[0]] + s[1..];
      r
  }

  /** Joining the pieces with the separator gives back the text. */
  lemma {:induction false} JoinSplit(s: string, sep: char)
    ensures Join(Split(s, sep), sep) == s
    decreases |s|
  {
    if |s| > 0 {
      var t := Split(s[1..], sep);
      JoinSplit(s[1..], sep);
      if s[0] == sep {
        assert ([""] + t)[1..] == t;
        assert s == [sep] + s[1..];
      } else {
        var r := [[s[0]] + t[0]] + t[1..];
        assert r[1..] == t[1..];
        assert s == [s[0]] + s[1..];
      }
    }
  }

  /** A text without the separator is one piece. */
  lemma SplitNoSeparator(s: string, sep: char)
    requires sep !in s
    ensures Split(s, sep) == [s]
  {
    JoinSplit(s, sep);
  }

  /** Splitting at the first separator: the text before it is the first
      piece and the rest is split on its own. */
  lemma {:induction false} SplitAtFirst(a: string, b: string, sep: char)
    requires sep !in a
    ensures Split(a + [sep] + b, sep) == [a] + Split(b, sep)
  {
    var s := a + [sep] + b;
    if a == [] {
      assert s[0] == sep;
      assert s[1..] == b;
    } else {
      assert s[0] == a[0] && a[0] != sep;
      assert s[1..] == a[1..] + [sep] + b;
      SplitAtFirst(a[1..], b, sep);
      var t := Split(s[1..], sep);
      assert t[0] == a[1..] && t[1..] == Split(b, sep);
      assert [a[0]] + a[1..] == a;
    }
  }

  /** The other half of the round trip: splitting a join of separator-free
      pieces gives the pieces back. */
  lemma {:induction false} SplitJoin(pieces: seq<string>, sep: char)
    requires |pieces| >= 1
    requires forall k | 0 <= k < |pieces| :: sep !in pieces[k]
    ensures Split(Join(pieces, sep), sep) == pieces
    decreases |pieces|
  {
    if |pieces| == 1 {
      SplitNoSeparator(pieces[0], sep);
    } else {
      var rest := pieces[1..];
      assert forall k | 0 <= k < |rest| :: sep !in rest[k] by {
        forall k | 0 <= k < |rest| ensures sep !in rest[k] {
          assert rest[k] == pieces[k + 1];
        }
      }
      SplitJoin(rest, sep);
      SplitAtFirst(pieces[0], Join(rest, sep), sep);
      assert pieces == [pieces[0]] + rest;
    }
  }

  /** A text that neither starts nor ends with white space is its own trim. */
  lemma TrimNoop(s: string)
    requires s == [] || (!IsJsSpace(s[0]) && !IsJsSpace(s[|s| - 1]))
    ensures Trim(s) == s
  {
    TrimStartNoop(s);
  }

  /** `s.startsWith(prefix)`. */
  predicate StartsWith(s: string, prefix: string)
  {
    |prefix| <= |s| && s[..|prefix|] == prefix
  }

  /** The text before the first '.', as `name.split('.')[0]` computes it. */
  function BeforeFirstDot(name: string): (r: string)
    ensures |r| <= |name| && r == name[..|r|]
    ensures '.' !in r
    ensures |r| < |name| ==> name[|r|] == '.'
  {
    var pieces := Split(name, '.');
    JoinSplit(name, '.');
    if |pieces| == 1 then pieces[0]
    else
      assert Join(pieces, '.') == pieces[0] + ['.'] + Join(pieces[1..], '.');
      pieces[0]
  }

  /** A dot-free stem is what comes before the first dot. */
  lemma BeforeFirstDotOfStem(stem: string, rest: string)
    requires '.' !in stem
    ensures BeforeFirstDot(stem + "." + rest) == stem
    ensures BeforeFirstDot(stem) == stem
  {
    assert stem + "." + rest == stem + ['.'] + rest;
    SplitAtFirst(stem, rest, '.');
    SplitNoSeparator(stem, '.');
  }

  predicate OccursAt(s: string, pat: string, k: nat)
  {
    k + |pat| <= |s| && s[k..k + |pat|] == pat
  }

  /** The first position at or after `from` where pat occurs. */
  function IndexFrom(s: string, pat: string, from: nat): (r: Option<nat>)
    requires from <= |s|
    ensures r.Some? ==> from <= r.value && OccursAt(s, pat, r.value)
    ensures forall k | from <= k && (r.None? || k < r.value) :: !OccursAt(s, pat, k)
    decreases |s| - from
  {
    if OccursAt(s, pat, from) then Some(from)
    else if from == |s| then None
    else IndexFrom(s, pat, from + 1)
  }

  /** `s.replace(pat, '')` with a string pattern: only the first occurrence
      of pat is removed; without one s is returned unchanged. */
  function RemoveFirst(s: string, pat: string): (r: string)
    ensures (forall k: nat :: !OccursAt(s, pat, k)) ==> r == s
    ensures forall j: nat | OccursAt(s, pat, j) && (forall k: nat | k < j :: !OccursAt(s, pat, k)) ::
              r == s[..j] + s[j + |pat|..]
  {
    match IndexFrom(s, pat, 0)
    case None => s
    case Some(j) => s[..j] + s[j + |pat|..]
  }

  function LowerAscii(c: char): char
  {
    if 'A' <= c <= 'Z' then (c as int + 32) as char else c
  }

  /** s begins with the lower-case ASCII text `lower`, ASCII letters
      compared without regard to case (the `i` flag of a regular expression). */
  predicate StartsWithIgnoreCase(s: string, lower: string)
  {
    |lower| <= |s| && forall i | 0 <= i < |lower| :: LowerAscii(s[i]) == lower[i]
  }

  /** `name.replace(/\.pdf$/i, '')`: a final ".pdf", in any letter case, is
      removed; a ".pdf" anywhere else is kept. */
  function StripPdfSuffix(name: string): (r: string)
    ensures r == name || (|r| == |name| - 4 && r == name[..|r|] &&
                          StartsWithIgnoreCase(name[|r|..], ".pdf"))
    ensures (|name| < 4 || !StartsWithIgnoreCase(name[|name| - 4..], ".pdf")) ==> r == name
    ensures |name| >= 4 && StartsWithIgnoreCase(name[|name| - 4..], ".pdf") ==> |r| == |name| - 4
  {
    if |name| >= 4 && StartsWithIgnoreCase(name[|name| - 4..], ".pdf") then name[..|name| - 4]
    else name
  }

  /** The position of the last occurrence of c in s. */
  function LastIndexOf(s: string, c: char): (r: Option<nat>)
    ensures r.Some? ==> r.value < |s| && s[r.value] == c && c !in s[r.value + 1..]
    ensures r.None? ==> c !in s
  {
    if |s| == 0 then None
    else if s[|s| - 1] == c then Some(|s| - 1)
    else
      var r := LastIndexOf(s[..|s| - 1], c);
      assert r.Some? ==> s[r.value + 1..] == s[..|s| - 1][r.value + 1..] + [s[|s| - 1]];
      assert r.None? ==> s == s[..|s| - 1] + [s[|s| - 1]];
      r
  }

  /** `name.replace(/\.[^.]+$/, '')`: the last '.' and the non-empty,
      dot-free text after it are removed; a name without a dot, or whose
      last dot is its final character, is returned unchanged. */
  function StripLastExtension(name: string): (r: string)
    ensures r == name || (|r| + 2 <= |name| && r == name[..|r|] &&
                          name[|r|] == '.' && '.' !in name[|r| + 1..])
    ensures ('.' !in name || name[|name| - 1] == '.') ==> r == name
    ensures '.' in name && name[|name| - 1] != '.' ==> |r| < |name|
  {
    match LastIndexOf(name, '.')
    case None => name
    case Some(k) => if k + 1 < |name| then name[..k] else name
  }

  predicate IsDigit(c: char)
  {
    '0' <= c <= '9'
  }

  predicate AllDigits(s: string)
  {
    forall i | 0 <= i < |s| :: IsDigit(s[i])
  }

  /** The value of a string of decimal digits, most significant first. */
  function DecimalValue(s: string): nat
    requires AllDigits(s)
  {
    if |s| == 0 then 0
    else 10 * DecimalValue(s[..|s| - 1]) + (s[|s| - 1] as int - '0' as int)
  }

  function DigitChar(d: nat): (c: char)
    requires d < 10
    ensures IsDigit(c) && c as int - '0' as int == d
  {
    ('0' as int + d) as char
  }

  /** n written in decimal, as a template literal `${n}` writes it: digits
      only, no leading zero, and reading it back gives n. */
  function NatToDecimal(n: nat): (r: string)
    ensures |r| >= 1 && AllDigits(r)
    ensures r[0] == '0' ==> n == 0 && r == "0"
    ensures DecimalValue(r) == n
  {
    if n < 10 then [DigitChar(n)]
    else
      var r := NatToDecimal(n / 10) + [DigitChar(n % 10)];
      assert r[..|r| - 1] == NatToDecimal(n / 10);
      r
  }

  /** Distinct numbers are written differently. */
  lemma NatToDecimalInjective(m: nat, n: nat)
    requires NatToDecimal(m) == NatToDecimal(n)
    ensures m == n
  {
  }
}
