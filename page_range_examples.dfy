/**
 * What the page-range parsers make of particular texts: the split tool's
 * "2,5-7" on ten pages, descending and malformed hyphen tokens, empty
 * tokens, and the delete tool's unsorted result and all-pages case.
 */
module PageRangeExamples {
  import opened Strings
  import opened JsNumber
  import opened PageRange

  lemma DigitsHaveNoHyphen(n: nat)
    ensures '-' !in NatToDecimal(n)
  {
    assert !IsDigit('-');
  }

  /** A token of one number n offers page n - 1 when n is a page of the
      document, and nothing otherwise. */
  lemma SingleToken(n: nat, maxPages: nat)
    ensures TokenIndices(NatToDecimal(n), maxPages) == if 1 <= n <= maxPages then [n - 1] else []
  {
    var d := NatToDecimal(n);
    DigitsHaveNoHyphen(n);
    NumberOfDecimal(n);
    assert ToNumber(d) == Num(n);
  }

  /** A token "a-b" offers the pages a..b of the document, in order. */
  lemma RangeToken(a: nat, b: nat, maxPages: nat)
    ensures TokenIndices(NatToDecimal(a) + "-" + NatToDecimal(b), maxPages) == RangeIndices(a, b, maxPages)
  {
    var da, db := NatToDecimal(a), NatToDecimal(b);
    DigitsHaveNoHyphen(a);
    DigitsHaveNoHyphen(b);
    assert da + "-" + db == da + ['-'] + db;
    SplitAtFirst(da, db, '-');
    SplitNoSeparator(db, '-');
    var ends := Split(da + "-" + db, '-');
    assert ends == [da, db];
    NumberOfDecimal(a);
    NumberOfDecimal(b);
    assert '-' in da + "-" + db by { assert (da + "-" + db)[|da|] == '-'; }
  }

  /** A descending token such as "5-2" offers nothing. */
  lemma DescendingRangeIsEmpty(maxPages: nat)
    ensures TokenIndices("5-2", maxPages) == []
  {
    RangeToken(5, 2, maxPages);
    assert NatToDecimal(5) + "-" + NatToDecimal(2) == "5-2";
  }

  /** "1-2-3" reads only its first two pieces: it is the range 1-2. */
  lemma ExtraHyphenPiecesIgnored(maxPages: nat)
    ensures TokenIndices("1-2-3", maxPages) == RangeIndices(1, 2, maxPages)
  {
    assert "1-2-3" == "1" + ['-'] + ("2" + ['-'] + "3");
    SplitAtFirst("1", "2" + ['-'] + "3", '-');
    SplitAtFirst("2", "3", '-');
    SplitNoSeparator("3", '-');
    assert NatToDecimal(1) == "1" && NatToDecimal(2) == "2";
    NumberOfDecimal(1);
    NumberOfDecimal(2);
  }

  lemma NumberOfEmpty()
    ensures ToNumber("") == Num(0)
  {
    assert TrimStart("") == "";
    assert TrimEnd("") == "";
  }

  lemma PartsOfMinusThree()
    ensures Split("-3", '-') == ["", "3"]
  {
    assert "-3" == "" + ['-'] + "3";
    SplitAtFirst("", "3", '-');
    SplitNoSeparator("3", '-');
  }

  /** "-3" has an empty start, which Number reads as 0: pages 1 to 3. */
  lemma EmptyStartIsZero(maxPages: nat)
    ensures TokenIndices("-3", maxPages) == RangeIndices(0, 3, maxPages)
  {
    PartsOfMinusThree();
    NumberOfEmpty();
    assert NatToDecimal(3) == "3";
    NumberOfDecimal(3);
    assert "-3"[0] == '-';
  }

  /** An empty token, such as the one after a trailing comma, is page 0
      and is dropped. */
  lemma EmptyTokenDropped(maxPages: nat)
    ensures TokenIndices(Trim(""), maxPages) == []
  {
    NumberOfEmpty();
  }

  lemma CollectedOne(p: string, maxPages: nat)
    ensures Collected([p], maxPages) == AddAll([], TokenIndices(Trim(p), maxPages))
  {
    assert [p][..0] == [];
  }

  lemma CollectedTwo(p: string, q: string, maxPages: nat)
    ensures Collected([p, q], maxPages) == AddAll(Collected([p], maxPages), TokenIndices(Trim(q), maxPages))
  {
    assert [p, q][..1] == [p];
  }

  lemma RangeFiveToSeven()
    ensures RangeIndices(5, 7, 10) == [4, 5, 6]
  {
    assert RangeIndices(5, 4, 10) == [];
    assert RangeIndices(5, 5, 10) == [4];
    assert RangeIndices(5, 6, 10) == [4, 5];
  }

  lemma PartsOfTwoFiveSeven()
    ensures Split("2,5-7", ',') == ["2", "5-7"]
  {
    assert "2,5-7" == "2" + [','] + "5-7";
    SplitAtFirst("2", "5-7", ',');
    SplitNoSeparator("5-7", ',');
  }

  lemma TokenTwo(maxPages: nat)
    requires 2 <= maxPages
    ensures TokenIndices(Trim("2"), maxPages) == [1]
  {
    TrimNoop("2");
    assert NatToDecimal(2) == "2";
    SingleToken(2, maxPages);
  }

  lemma TokenFive(maxPages: nat)
    requires 5 <= maxPages
    ensures TokenIndices(Trim("5"), maxPages) == [4]
  {
    TrimNoop("5");
    assert NatToDecimal(5) == "5";
    SingleToken(5, maxPages);
  }

  lemma TokenFiveToSeven()
    ensures TokenIndices(Trim("5-7"), 10) == [4, 5, 6]
  {
    TrimNoop("5-7");
    assert NatToDecimal(5) + "-" + NatToDecimal(7) == "5-7";
    RangeToken(5, 7, 10);
    RangeFiveToSeven();
  }

  lemma AddAllOneFourFiveSix()
    ensures AddAll([], [1]) == [1]
    ensures AddAll([1], [4, 5, 6]) == [1, 4, 5, 6]
  {
    assert [1][..0] == [];
    assert [4, 5, 6][..2] == [4, 5];
    assert [4, 5][..1] == [4];
    assert [4][..0] == [];
  }

  /** The split tool on "2,5-7" with ten pages extracts pages 2, 5, 6 and
      7, that is indices [1, 4, 5, 6]. */
  lemma CollectedTwoFiveSeven()
    ensures Collected(["2", "5-7"], 10) == [1, 4, 5, 6]
  {
    CollectedOne("2", 10);
    TokenTwo(10);
    AddAllOneFourFiveSix();
    CollectedTwo("2", "5-7", 10);
    TokenFiveToSeven();
  }

  lemma SplitTwoFiveSeven()
    ensures SortAscending(Collected(Split("2,5-7", ','), 10)) == [1, 4, 5, 6]
  {
    PartsOfTwoFiveSeven();
    CollectedTwoFiveSeven();
    SortedOneFourFiveSix();
  }

  lemma SortedOneFourFiveSix()
    ensures SortAscending([1, 4, 5, 6]) == [1, 4, 5, 6]
  {
    SortAscendingNoop([1, 4, 5, 6]);
  }

  lemma PartsOfFiveTwo()
    ensures Split("5,2", ',') == ["5", "2"]
  {
    assert "5,2" == "5" + [','] + "2";
    SplitAtFirst("5", "2", ',');
    SplitNoSeparator("2", ',');
  }

  lemma AddAllFourOne()
    ensures AddAll([], [4]) == [4]
    ensures AddAll([4], [1]) == [4, 1]
  {
    assert [4][..0] == [];
    assert [1][..0] == [];
  }

  lemma CollectedFiveTwo()
    ensures Collected(["5", "2"], 10) == [4, 1]
  {
    CollectedOne("5", 10);
    TokenFive(10);
    AddAllFourOne();
    CollectedTwo("5", "2", 10);
    TokenTwo(10);
  }

  /** The delete tool keeps first-insertion order: "5,2" gives [4, 1],
      not sorted. */
  lemma DeleteKeepsInsertionOrder()
    ensures Collected(Split("5,2", ','), 10) == [4, 1]
  {
    PartsOfFiveTwo();
    CollectedFiveTwo();
  }

  lemma TokenOneToThree()
    ensures TokenIndices(Trim("1-3"), 3) == [0, 1, 2]
  {
    TrimNoop("1-3");
    assert NatToDecimal(1) + "-" + NatToDecimal(3) == "1-3";
    RangeToken(1, 3, 3);
    assert RangeIndices(1, 0, 3) == [];
    assert RangeIndices(1, 1, 3) == [0];
    assert RangeIndices(1, 2, 3) == [0, 1];
  }

  lemma AddAllZeroOneTwo()
    ensures AddAll([], [0, 1, 2]) == [0, 1, 2]
  {
    assert [0, 1, 2][..2] == [0, 1];
    assert [0, 1][..1] == [0];
    assert [0][..0] == [];
  }

  /** Deleting "1-3" from a three-page document leaves no page to keep:
      the case the delete tool reports as "cannot delete all pages". */
  lemma CollectedOneToThree()
    ensures Collected(["1-3"], 3) == [0, 1, 2]
  {
    CollectedOne("1-3", 3);
    TokenOneToThree();
    AddAllZeroOneTwo();
  }

  lemma DeleteAllPagesKeepsNothing()
    ensures Collected(Split("1-3", ','), 3) == [0, 1, 2]
    ensures Keepers([0, 1, 2], 3) == []
  {
    PartsOfOneToThree();
    CollectedOneToThree();
    NothingKept();
  }

  lemma PartsOfOneToThree()
    ensures Split("1-3", ',') == ["1-3"]
  {
    assert ',' !in "1-3" by {
      assert "1-3"[0] != ',' && "1-3"[1] != ',' && "1-3"[2] != ',';
    }
    SplitNoSeparator("1-3", ',');
  }

  lemma NothingKept()
    ensures Keepers([0, 1, 2], 3) == []
  {
    assert Keepers([0, 1, 2], 0) == [];
    assert Keepers([0, 1, 2], 1) == [];
    assert Keepers([0, 1, 2], 2) == [];
  }
}
