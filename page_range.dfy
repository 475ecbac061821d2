/**
 * The page-range parser shared, line for line, by the PDF split and PDF
 * delete-pages tools, the numeric sort the split tool applies to its
 * result, and the delete tool's list of pages to keep.
 *
 * A text such as "2, 5-7" is split on commas; each trimmed token holding a
 * hyphen is an inclusive, 1-based range made of the first two pieces of
 * the token split on '-', and any other token is a single page. Numbers
 * are read with JavaScript's Number; NaN tokens and pages outside
 * [1, maxPages] are dropped. The collected pages are 0-based and held in
 * a JavaScript Set, which keeps first-insertion order.
 */
module PageRange {
  import opened Strings
  import opened JsNumber

  predicate NoDuplicates(s: seq<nat>)
  {
    forall i, j | 0 <= i < j < |s| :: s[i] != s[j]
  }

  predicate InBounds(s: seq<nat>, n: nat)
  {
    forall i | 0 <= i < |s| :: s[i] < n
  }

  predicate Ascending(s: seq<nat>)
  {
    forall i, j | 0 <= i < j < |s| :: s[i] <= s[j]
  }

  predicate StrictlyAscending(s: seq<nat>)
  {
    forall i, j | 0 <= i < j < |s| :: s[i] < s[j]
  }

  /** Set.prototype.add on an insertion-ordered set held as a sequence. */
  function Add(pages: seq<nat>, x: nat): seq<nat>
  {
    if x in pages then pages else pages + [x]
  }

  /** Adding xs one after the other, first to last. */
  function AddAll(pages: seq<nat>, xs: seq<nat>): seq<nat>
    decreases |xs|
  {
    if xs == [] then pages else Add(AddAll(pages, xs[..|xs| - 1]), xs[|xs| - 1])
  }

  /** The 0-based pages offered by `for (let i = lo; i <= hi; i++)` when
      only 1 <= i <= maxPages is added, in loop order. */
  function RangeIndices(lo: int, hi: int, maxPages: nat): seq<nat>
    decreases hi - lo
  {
    if hi < lo then []
    else RangeIndices(lo, hi - 1, maxPages) + (if 1 <= hi <= maxPages then [hi - 1] else [])
  }

  /** The 0-based pages one trimmed token offers, in the order the source
      adds them. A hyphen token reads only the first two pieces of its
      split on '-'. */
  function TokenIndices(token: string, maxPages: nat): seq<nat>
  {
    if '-' in token then
      var ends := Split(token, '-');
      var start, end := ToNumber(ends[0]), ToNumber(ends[1]);
      if start.Num? && end.Num? then RangeIndices(start.value, end.value, maxPages) else []
    else
      var p := ToNumber(token);
      if p.Num? && 1 <= p.value <= maxPages then [p.value - 1] else []
  }

  /** The Set's contents, in insertion order, after the comma-separated
      parts have been processed left to right. */
  function Collected(parts: seq<string>, maxPages: nat): seq<nat>
  {
    if parts == [] then []
    else AddAll(Collected(parts[..|parts| - 1], maxPages), TokenIndices(Trim(parts[|parts| - 1]), maxPages))
  }

  /** parsePages of the delete-pages tool: the Set of requested pages as
      an array, in first-insertion order. The split tool's parser runs
      the same loop. */
  method ParsePages(text: string, maxPages: nat) returns (pages: seq<nat>)
    ensures pages == Collected(Split(text, ','), maxPages)
  {
    var parts := Split(text, ',');
    pages := CollectTokens(parts, maxPages);
  }

  /** The parser's outer loop over the comma-separated parts. */
  method CollectTokens(parts: seq<string>, maxPages: nat) returns (pages: seq<nat>)
    ensures pages == Collected(parts, maxPages)
  {
    pages := [];
    var k := 0;
    while k < |parts|
      invariant 0 <= k <= |parts|
      invariant pages == Collected(parts[..k], maxPages)
    {
      pages := AddToken(pages, Trim(parts[k]), maxPages);
      CollectedStep(parts, k, maxPages);
      k := k + 1;
    }
    assert parts[..|parts|] == parts;
  }

  /** The body of the parser's loop for one trimmed token: a range token
      adds every in-bounds page from its start to its end, one by one; any
      other token adds its page when it is in bounds. */
  method AddToken(pages: seq<nat>, trimmed: string, maxPages: nat) returns (added: seq<nat>)
    ensures added == AddAll(pages, TokenIndices(trimmed, maxPages))
  {
    if '-' in trimmed {
      added := AddRangeToken(pages, trimmed, maxPages);
    } else {
      added := AddPageToken(pages, trimmed, maxPages);
    }
  }

  /** A token with a hyphen: the numbers before and after the first one
      bound the range, and a NaN at either end adds nothing. */
  method AddRangeToken(pages: seq<nat>, trimmed: string, maxPages: nat) returns (added: seq<nat>)
    requires '-' in trimmed
    ensures added == AddAll(pages, TokenIndices(trimmed, maxPages))
  {
    var ends := Split(trimmed, '-');
    var start, end := ToNumber(ends[0]), ToNumber(ends[1]);
    if start.Num? && end.Num? {
      added := AddRange(pages, start.value, end.value, maxPages);
    } else {
      added := pages;
    }
  }

  /** Any other token: its number, when it names a page of the document. */
  method AddPageToken(pages: seq<nat>, trimmed: string, maxPages: nat) returns (added: seq<nat>)
    requires '-' !in trimmed
    ensures added == AddAll(pages, TokenIndices(trimmed, maxPages))
  {
    var p := ToNumber(trimmed);
    PageTokenIndices(trimmed, maxPages);
    if p.Num? && 1 <= p.value <= maxPages {
      AddAllOne(pages, p.value - 1);
      added := Add(pages, p.value - 1);
    } else {
      added := pages;
    }
  }

  /** The inner loop over a range token: i runs from start to end and
      every i within [1, maxPages] adds page i - 1. */
  method AddRange(pages: seq<nat>, start: int, end: int, maxPages: nat) returns (added: seq<nat>)
    ensures added == AddAll(pages, RangeIndices(start, end, maxPages))
  {
    added := pages;
    if end < start {
      return;
    }
    var i := start;
    assert RangeIndices(start, start - 1, maxPages) == [];
    while i <= end
      invariant start <= i <= end + 1
      invariant added == AddAll(pages, RangeIndices(start, i - 1, maxPages))
      decreases end - i
    {
      AddRangeStep(pages, start, i, maxPages);
      if 1 <= i <= maxPages {
        added := Add(added, i - 1);
      }
      assert added == AddAll(pages, RangeIndices(start, i, maxPages));
      i := i + 1;
    }
    assert i - 1 == end;
  }

  /** Array.prototype.sort with the comparator (a, b) => a - b, written as
      an insertion sort. */
  function Insert(x: nat, s: seq<nat>): (r: seq<nat>)
    ensures multiset(r) == multiset(s) + multiset{x}
  {
    if s == [] || x <= s[0] then [x] + s
    else
      assert s == [s[0]] + s[1..];
      [s[0]] + Insert(x, s[1..])
  }

  function SortAscending(s: seq<nat>): (r: seq<nat>)
    ensures multiset(r) == multiset(s)
  {
    if s == [] then []
    else
      assert s == [s[0]] + s[1..];
      Insert(s[0], SortAscending(s[1..]))
  }

  lemma {:induction false} InsertSorted(x: nat, s: seq<nat>)
    requires x !in s && StrictlyAscending(s)
    ensures StrictlyAscending(Insert(x, s))
    ensures forall y :: y in Insert(x, s) <==> y == x || y in s
  {
    if s != [] && x > s[0] {
      var t := Insert(x, s[1..]);
      InsertSorted(x, s[1..]);
      assert Insert(x, s) == [s[0]] + t;
      forall j | 0 <= j < |t| ensures s[0] < t[j] {
        assert t[j] in t;
        if t[j] != x {
          var k :| 0 <= k < |s[1..]| && s[1..][k] == t[j];
          assert s[k + 1] == t[j];
        }
      }
    }
  }

  /** Sorting a duplicate-free list gives a strictly ascending list of the
      same pages. */
  lemma {:induction false} SortedDistinct(s: seq<nat>)
    requires NoDuplicates(s)
    ensures StrictlyAscending(SortAscending(s))
    ensures forall x :: x in SortAscending(s) <==> x in s
  {
    if s != [] {
      SortedDistinct(s[1..]);
      assert s[0] !in s[1..];
      InsertSorted(s[0], SortAscending(s[1..]));
      assert s == [s[0]] + s[1..];
    }
  }

  /** Sorting changes nothing in a list that is already strictly ascending. */
  lemma {:induction false} SortAscendingNoop(s: seq<nat>)
    requires StrictlyAscending(s)
    ensures SortAscending(s) == s
  {
    if s != [] {
      SortAscendingNoop(s[1..]);
      assert s == [s[0]] + s[1..];
    }
  }

  /** parsePageRange of the split tool: the same collected pages, sorted
      ascending. */
  method ParsePageRange(text: string, maxPages: nat) returns (pages: seq<nat>)
    ensures pages == SortAscending(Collected(Split(text, ','), maxPages))
  {
    var collected := ParsePages(text, maxPages);
    pages := SortAscending(collected);
  }

  /** What the split tool extracts: distinct pages, ascending, every one
      an index into the document, and exactly the requested ones. */
  lemma SelectionValid(text: string, maxPages: nat)
    ensures StrictlyAscending(SortAscending(Collected(Split(text, ','), maxPages)))
    ensures InBounds(SortAscending(Collected(Split(text, ','), maxPages)), maxPages)
    ensures forall x :: x in SortAscending(Collected(Split(text, ','), maxPages)) <==>
                        x in Collected(Split(text, ','), maxPages)
  {
    var collected := Collected(Split(text, ','), maxPages);
    var pages := SortAscending(collected);
    CollectedValid(Split(text, ','), maxPages);
    SortedDistinct(collected);
    forall i | 0 <= i < |pages| ensures pages[i] < maxPages {
      assert pages[i] in multiset(collected);
    }
  }

  /** The delete tool's keeper list as a specification: every page of
      0..total-1 that the deletion list does not hold, ascending. */
  function Keepers(deleted: seq<nat>, total: nat): seq<nat>
  {
    if total == 0 then []
    else Keepers(deleted, total - 1) + (if total - 1 in deleted then [] else [total - 1])
  }

  /** The keeper loop of the delete tool: push every i < total that
      `includes` does not find among the deleted pages. */
  method KeeperIndices(deleted: seq<nat>, total: nat) returns (keepers: seq<nat>)
    ensures keepers == Keepers(deleted, total)
  {
    keepers := [];
    var i := 0;
    while i < total
      invariant 0 <= i <= total
      invariant keepers == Keepers(deleted, i)
    {
      if i !in deleted {
        keepers := keepers + [i];
      }
      i := i + 1;
    }
  }

  // ---- lemmas -------------------------------------------------------

  lemma {:induction false} AddAllSnoc(pages: seq<nat>, xs: seq<nat>, ys: seq<nat>)
    requires |ys| <= 1
    ensures AddAll(pages, xs + ys) == if ys == [] then AddAll(pages, xs) else Add(AddAll(pages, xs), ys[0])
  {
    if ys == [] {
      assert xs + ys == xs;
    } else {
      assert (xs + ys)[..|xs + ys| - 1] == xs;
    }
  }

  lemma AddAllOne(pages: seq<nat>, x: nat)
    ensures AddAll(pages, [x]) == Add(pages, x)
  {
    assert [x][..0] == [];
  }

  lemma PageTokenIndices(trimmed: string, maxPages: nat)
    requires '-' !in trimmed
    ensures var p := ToNumber(trimmed);
            TokenIndices(trimmed, maxPages) == if p.Num? && 1 <= p.value <= maxPages then [p.value - 1] else []
  {
  }

  /** One more turn of the range loop adds page i - 1 when it is a page
      of the document. */
  lemma AddRangeStep(pages: seq<nat>, start: int, i: int, maxPages: nat)
    requires start <= i
    ensures AddAll(pages, RangeIndices(start, i, maxPages)) ==
            if 1 <= i <= maxPages then Add(AddAll(pages, RangeIndices(start, i - 1, maxPages)), i - 1)
            else AddAll(pages, RangeIndices(start, i - 1, maxPages))
  {
    var next: seq<nat> := if 1 <= i <= maxPages then [i - 1] else [];
    assert RangeIndices(start, i, maxPages) == RangeIndices(start, i - 1, maxPages) + next;
    AddAllSnoc(pages, RangeIndices(start, i - 1, maxPages), next);
  }

  /** One more turn of the token loop adds what token k offers. */
  lemma CollectedStep(parts: seq<string>, k: nat, maxPages: nat)
    requires k < |parts|
    ensures Collected(parts[..k + 1], maxPages) ==
            AddAll(Collected(parts[..k], maxPages), TokenIndices(Trim(parts[k]), maxPages))
  {
    assert parts[..k + 1][..k] == parts[..k];
  }

  /** Adding keeps what was there, in place, and adds the new pages after
      it: the Set's first-insertion order. */
  lemma {:induction false} AddAllKeepsPrefix(pages: seq<nat>, xs: seq<nat>)
    ensures |pages| <= |AddAll(pages, xs)| && AddAll(pages, xs)[..|pages|] == pages
    decreases |xs|
  {
    if xs != [] {
      AddAllKeepsPrefix(pages, xs[..|xs| - 1]);
    }
  }

  lemma {:induction false} AddAllMembers(pages: seq<nat>, xs: seq<nat>)
    ensures forall y :: y in AddAll(pages, xs) <==> y in pages || y in xs
    decreases |xs|
  {
    if xs != [] {
      AddAllMembers(pages, xs[..|xs| - 1]);
      assert xs == xs[..|xs| - 1] + [xs[|xs| - 1]];
    }
  }

  lemma {:induction false} AddAllValid(pages: seq<nat>, xs: seq<nat>, n: nat)
    requires NoDuplicates(pages) && InBounds(pages, n) && InBounds(xs, n)
    ensures NoDuplicates(AddAll(pages, xs)) && InBounds(AddAll(pages, xs), n)
    decreases |xs|
  {
    if xs != [] {
      AddAllValid(pages, xs[..|xs| - 1], n);
    }
  }

  /** x is offered by the loop exactly when lo <= x + 1 <= hi and x is a
      page of the document. */
  lemma {:induction false} RangeIndicesMembers(lo: int, hi: int, maxPages: nat)
    ensures forall x: nat :: x in RangeIndices(lo, hi, maxPages) <==> lo <= x + 1 <= hi && x < maxPages
    ensures StrictlyAscending(RangeIndices(lo, hi, maxPages))
    decreases hi - lo
  {
    if hi >= lo {
      RangeIndicesMembers(lo, hi - 1, maxPages);
      var prev := RangeIndices(lo, hi - 1, maxPages);
      var r := RangeIndices(lo, hi, maxPages);
      assert r == prev + (if 1 <= hi <= maxPages then [hi - 1] else []);
      forall i, j | 0 <= i < j < |r| ensures r[i] < r[j] {
        if j < |prev| {
          assert r[i] == prev[i] && r[j] == prev[j];
        } else {
          assert r[i] == prev[i] && prev[i] in prev;
        }
      }
    }
  }

  /** What one token asks for: a hyphen token the pages from its start to
      its end (both numbers), any other token the single page its number
      names; pages outside the document are never offered. */
  lemma TokenIndicesMembers(token: string, maxPages: nat, x: nat)
    ensures x in TokenIndices(token, maxPages) <==>
      x < maxPages &&
      if '-' in token then
        var ends := Split(token, '-');
        ToNumber(ends[0]).Num? && ToNumber(ends[1]).Num? &&
        ToNumber(ends[0]).value <= x + 1 <= ToNumber(ends[1]).value
      else ToNumber(token) == Num(x + 1)
  {
    if '-' in token {
      var ends := Split(token, '-');
      if ToNumber(ends[0]).Num? && ToNumber(ends[1]).Num? {
        RangeIndicesMembers(ToNumber(ends[0]).value, ToNumber(ends[1]).value, maxPages);
      }
    }
  }

  lemma TokenIndicesInBounds(token: string, maxPages: nat)
    ensures InBounds(TokenIndices(token, maxPages), maxPages)
  {
    forall i | 0 <= i < |TokenIndices(token, maxPages)|
      ensures TokenIndices(token, maxPages)[i] < maxPages
    {
      TokenIndicesMembers(token, maxPages, TokenIndices(token, maxPages)[i]);
    }
  }

  /** Every collected page lies in [0, maxPages - 1] and none repeats. */
  lemma {:induction false} CollectedValid(parts: seq<string>, maxPages: nat)
    ensures NoDuplicates(Collected(parts, maxPages)) && InBounds(Collected(parts, maxPages), maxPages)
  {
    if parts != [] {
      CollectedValid(parts[..|parts| - 1], maxPages);
      TokenIndicesInBounds(Trim(parts[|parts| - 1]), maxPages);
      AddAllValid(Collected(parts[..|parts| - 1], maxPages), TokenIndices(Trim(parts[|parts| - 1]), maxPages), maxPages);
    }
  }

  /** What each token of the text asks for, token by token. */
  function Requests(parts: seq<string>, maxPages: nat): (r: seq<seq<nat>>)
    ensures |r| == |parts|
    ensures forall k | 0 <= k < |parts| :: r[k] == TokenIndices(Trim(parts[k]), maxPages)
  {
    if parts == [] then []
    else
      var init := parts[..|parts| - 1];
      assert forall k | 0 <= k < |init| :: init[k] == parts[k];
      Requests(init, maxPages) + [TokenIndices(Trim(parts[|parts| - 1]), maxPages)]
  }

  /** Some request asks for page x. */
  predicate Requested(requests: seq<seq<nat>>, x: nat)
  {
    exists k | 0 <= k < |requests| :: x in requests[k]
  }

  lemma RequestedSnoc(requests: seq<seq<nat>>, x: nat)
    requires requests != []
    ensures Requested(requests, x) <==>
            Requested(requests[..|requests| - 1], x) || x in requests[|requests| - 1]
  {
    var init := requests[..|requests| - 1];
    if Requested(requests, x) {
      var k :| 0 <= k < |requests| && x in requests[k];
      if k < |init| {
        assert init[k] == requests[k];
      }
    }
    if Requested(init, x) {
      var k :| 0 <= k < |init| && x in init[k];
      assert requests[k] == init[k];
    }
  }

  /** A page is collected exactly when some token asks for it: a bad token
      is dropped on its own without spoiling the rest. */
  lemma {:induction false} CollectedMembers(parts: seq<string>, maxPages: nat, x: nat)
    ensures x in Collected(parts, maxPages) <==> Requested(Requests(parts, maxPages), x)
  {
    if parts != [] {
      var init := parts[..|parts| - 1];
      var requests := Requests(parts, maxPages);
      CollectedMembers(init, maxPages, x);
      AddAllMembers(Collected(init, maxPages), TokenIndices(Trim(parts[|parts| - 1]), maxPages));
      RequestedSnoc(requests, x);
      assert requests[..|parts| - 1] == Requests(init, maxPages);
      assert requests[|parts| - 1] == TokenIndices(Trim(parts[|parts| - 1]), maxPages);
    }
  }

  /** Pages asked for by earlier tokens come first, in the order they
      were first asked for; later tokens only append. */
  lemma {:induction false} CollectedPrefix(parts: seq<string>, k: nat, maxPages: nat)
    requires k <= |parts|
    ensures |Collected(parts[..k], maxPages)| <= |Collected(parts, maxPages)|
    ensures Collected(parts, maxPages)[..|Collected(parts[..k], maxPages)|] == Collected(parts[..k], maxPages)
    decreases |parts|
  {
    if k < |parts| {
      var init := parts[..|parts| - 1];
      assert init[..k] == parts[..k];
      CollectedPrefix(init, k, maxPages);
      AddAllKeepsPrefix(Collected(init, maxPages), TokenIndices(Trim(parts[|parts| - 1]), maxPages));
    } else {
      assert parts[..k] == parts;
    }
  }

  lemma {:induction false} KeepersMembers(deleted: seq<nat>, total: nat)
    ensures forall x: nat :: x in Keepers(deleted, total) <==> x < total && x !in deleted
  {
    if total > 0 {
      KeepersMembers(deleted, total - 1);
      var prev := Keepers(deleted, total - 1);
      assert Keepers(deleted, total) == prev + (if total - 1 in deleted then [] else [total - 1]);
      forall x: nat ensures x in Keepers(deleted, total) <==> x < total && x !in deleted {
        assert x in prev <==> x < total - 1 && x !in deleted;
      }
    }
  }

  lemma {:induction false} KeepersAscending(deleted: seq<nat>, total: nat)
    ensures StrictlyAscending(Keepers(deleted, total))
  {
    if total > 0 {
      KeepersAscending(deleted, total - 1);
      KeepersMembers(deleted, total - 1);
      var prev := Keepers(deleted, total - 1);
      var r := Keepers(deleted, total);
      assert r == prev + (if total - 1 in deleted then [] else [total - 1]);
      forall i, j | 0 <= i < j < |r| ensures r[i] < r[j] {
        if j < |prev| {
          assert r[i] == prev[i] && r[j] == prev[j];
        } else {
          assert r[i] == prev[i] && prev[i] in prev;
        }
      }
    }
  }

  /** Kept and deleted pages are disjoint and together are every page;
      nothing is kept exactly when every page is deleted. */
  lemma KeepersPartition(deleted: seq<nat>, total: nat)
    ensures forall x: nat | x < total :: (x in Keepers(deleted, total)) != (x in deleted)
    ensures Keepers(deleted, total) == [] <==> forall x: nat | x < total :: x in deleted
  {
    KeepersMembers(deleted, total);
    if Keepers(deleted, total) != [] {
      assert Keepers(deleted, total)[0] in Keepers(deleted, total);
    }
  }
}
