/** Slice-based pagination of the matched books (scripts.js:110, 124, 166, 173). */
module Pagination {

  function Min(a: int, b: int): int { if a <= b then a else b }

  /** `s.slice(start, end)` for non-negative bounds: both are clamped to `|s|`,
      and the slice is empty once `end` does not exceed `start`. */
  function Slice<T>(s: seq<T>, start: nat, end: nat): seq<T> {
    var a, b := Min(start, |s|), Min(end, |s|);
    if b <= a then [] else s[a..b]
  }

  /** What pages 1 to `page` show together. */
  function Shown<T>(s: seq<T>, page: nat, n: nat): seq<T> {
    s[..Min(|s|, page * n)]
  }

  /** The page the "show more" button renders next. */
  function NextPage<T>(s: seq<T>, page: nat, n: nat): seq<T> {
    Slice(s, page * n, (page + 1) * n)
  }

  /** What is shown is a prefix of the matches: the first `page * n` of them, or all of them
      when there are fewer. */
  lemma ShownIsPrefix<T>(s: seq<T>, page: nat, n: nat)
    ensures |Shown(s, page, n)| == Min(|s|, page * n)
    ensures Shown(s, page, n) == s[..|Shown(s, page, n)|]
  {
  }

  /** The next page holds `n` books, or the fewer that are left after index `page * n`,
      and they are the ones starting at that index, so distinct pages never overlap. */
  lemma NextPageRun<T>(s: seq<T>, page: nat, n: nat)
    ensures |NextPage(s, page, n)| == if |s| <= page * n then 0 else Min(n, |s| - page * n)
    ensures forall k :: 0 <= k < |NextPage(s, page, n)| ==> NextPage(s, page, n)[k] == s[page * n + k]
  {
    assert (page + 1) * n == page * n + n;
  }

  /** The first page rendered at start-up and after a search, `slice(0, n)`, is what page 1 shows. */
  lemma FirstPageIsShown<T>(s: seq<T>, n: nat)
    ensures Slice(s, 0, n) == Shown(s, 1, n)
  {
  }

  /** Appending the next page to what is shown gives what the following page shows. */
  lemma NextPageExtendsShown<T>(s: seq<T>, page: nat, n: nat)
    ensures Shown(s, page, n) + NextPage(s, page, n) == Shown(s, page + 1, n)
  {
    assert (page + 1) * n == page * n + n;
  }

  /** `matches.length - page * BOOKS_PER_PAGE` */
  function Remaining(count: nat, page: nat, n: nat): int {
    count - page * n
  }

  /** `Math.max(remaining, 0)`, the count the button shows. */
  function RemainingLabel(count: nat, page: nat, n: nat): nat {
    if Remaining(count, page, n) <= 0 then 0 else Remaining(count, page, n)
  }

  /** The button is disabled exactly when every match is shown, and its label
      counts the matches not yet shown. */
  lemma ButtonReflectsShown<T>(s: seq<T>, page: nat, n: nat)
    ensures Remaining(|s|, page, n) <= 0 <==> |Shown(s, page, n)| == |s|
    ensures RemainingLabel(|s|, page, n) == |s| - |Shown(s, page, n)|
  {
  }

  /** Pages 1 to `count` rendered one after the other. */
  function Pages<T>(s: seq<T>, count: nat, n: nat): seq<T> {
    if count == 0 then [] else Pages(s, count - 1, n) + NextPage(s, count - 1, n)
  }

  /** The pages are contiguous and do not overlap: rendered one after another they
      give exactly the books shown, each once. */
  lemma {:induction false} PagesAreShown<T>(s: seq<T>, count: nat, n: nat)
    ensures Pages(s, count, n) == Shown(s, count, n)
  {
    if count > 0 {
      PagesAreShown(s, count - 1, n);
      NextPageExtendsShown(s, count - 1, n);
    }
  }
}
