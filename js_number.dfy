/**
 * JavaScript's Number(string), for the strings the page-range parsers give
 * it: surrounding white space is ignored, the empty string is 0, an
 * optionally signed run of decimal digits is its value, and everything else
 * is NaN.
 */
module JsNumber {
  import opened Strings

  datatype Number = Num(value: int) | NaN

  /** An optionally signed, non-empty run of decimal digits. */
  predicate IsDecimalInteger(t: string)
  {
    (|t| >= 1 && AllDigits(t)) ||
    (|t| >= 2 && (t[0] == '+' || t[0] == '-') && AllDigits(t[1..]))
  }

  function ToNumber(s: string): (r: Number)
    ensures r.NaN? <==> Trim(s) != "" && !IsDecimalInteger(Trim(s))
    ensures Trim(s) == "" ==> r == Num(0)
    ensures r.Num? && '-' !in s ==> r.value >= 0
    ensures Trim(s) != "" && AllDigits(Trim(s)) ==> r == Num(DecimalValue(Trim(s)))
    ensures IsDecimalInteger(Trim(s)) && Trim(s)[0] == '+' ==> r == Num(DecimalValue(Trim(s)[1..]))
    ensures IsDecimalInteger(Trim(s)) && Trim(s)[0] == '-' ==> r == Num(-(DecimalValue(Trim(s)[1..]) as int))
  {
    var t := Trim(s);
    if t == "" then Num(0)
    else if AllDigits(t) then Num(DecimalValue(t))
    else if IsDecimalInteger(t) && t[0] == '+' then Num(DecimalValue(t[1..]))
    else if IsDecimalInteger(t) then
      assert t[0] in s;
      Num(-(DecimalValue(t[1..]) as int))
    else NaN
  }

  /** Number reads back what a template literal writes for a natural number. */
  lemma NumberOfDecimal(n: nat)
    ensures ToNumber(NatToDecimal(n)) == Num(n)
  {
    var d := NatToDecimal(n);
    assert !IsDigit(' ') && !IsJsSpace('0');
    TrimStartNoop(d);
    assert TrimStart(d) == d;
    assert !IsJsSpace(d[|d| - 1]);
    assert TrimEnd(d) == d;
  }
}
