/**
 * Pagination of a list view: the rows split into pages of `perPage` rows
 * each, the last page holding the remainder. An empty list still has one,
 * empty, page.
 */
module Pagination {
  import opened Wrappers

  function Pages<T>(items: seq<T>, perPage: nat): (pages: seq<seq<T>>)
    requires perPage > 0
    ensures |pages| >= 1
    decreases |items|
  {
    if |items| <= perPage then [items]
    else [items[..perPage]] + Pages(items[perPage..], perPage)
  }

  function Flatten<T>(pages: seq<seq<T>>): seq<T> {
    if pages == [] then [] else pages[0] + Flatten(pages[1..])
  }

  /**
   * The pages, read in order, are exactly the rows; every page but the last
   * is full, and the last one is empty only when there are no rows.
   */
  lemma {:induction false} PagesPartition<T>(items: seq<T>, perPage: nat)
    requires perPage > 0
    ensures Flatten(Pages(items, perPage)) == items
    ensures forall k :: 0 <= k < |Pages(items, perPage)| - 1 ==> |Pages(items, perPage)[k]| == perPage
    ensures var last := Pages(items, perPage)[|Pages(items, perPage)| - 1];
            |last| <= perPage && (|last| == 0 <==> items == [])
    decreases |items|
  {
    var pages := Pages(items, perPage);
    if |items| <= perPage {
      assert Flatten(pages) == items + Flatten([]);
    } else {
      var rest := Pages(items[perPage..], perPage);
      PagesPartition(items[perPage..], perPage);
      assert pages == [items[..perPage]] + rest;
      assert pages[1..] == rest;
      assert Flatten(pages) == items[..perPage] + Flatten(rest);
      assert items == items[..perPage] + items[perPage..];
      forall k | 0 <= k < |pages| - 1 ensures |pages[k]| == perPage {
        if k > 0 { assert pages[k] == rest[k - 1]; }
      }
    }
  }

  /**
   * The page a list view shows for the requested page number: `None` (a "not
   * found" answer) unless 1 <= number <= the number of pages.
   */
  function Page<T>(items: seq<T>, perPage: nat, number: int): (r: Option<seq<T>>)
    requires perPage > 0
    ensures r.Some? <==> 1 <= number <= |Pages(items, perPage)|
    ensures r.Some? ==> r.value == Pages(items, perPage)[number - 1]
  {
    var pages := Pages(items, perPage);
    if 1 <= number <= |pages| then Some(pages[number - 1]) else None
  }
}
