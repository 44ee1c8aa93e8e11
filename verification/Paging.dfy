/** Message history in pages: what the server cuts, what the controller counts, how the client walks. */
module Paging {
  import opened Common
  import opened Options

  const LIMIT_MAX := 100

  /** A page as the endpoint returns it. */
  datatype Page<+T> = Page(data: seq<T>, total: nat, page: nat, limit: nat, pages: nat)

  /** How many messages the pages before this one hold. */
  function Before(page: nat, limit: nat): nat
    requires page >= 1
  {
    (page - 1) * limit
  }

  /** The service: skips the pages before and takes one, whatever numbers it is given. */
  function GetHistory<T>(history: seq<T>, page: int, limit: int): (data: seq<T>)
    ensures |data| <= LIMIT_MAX
  {
    var safePage, safeLimit := Max(page, 1), Min(Max(limit, 1), LIMIT_MAX);
    Slice(history, Before(safePage, safeLimit), safeLimit)
  }

  /** `skip` and `take` of the query. */
  function Slice<T>(history: seq<T>, skip: nat, take: nat): (data: seq<T>)
    ensures |data| <= take
  {
    if skip >= |history| then [] else history[skip..Min(skip + take, |history|)]
  }

  /** `Math.ceil(total / limit)`, and no pages of nothing. */
  function PageCount(total: nat, limit: nat): nat
    requires limit >= 1
  {
    if total == 0 then 0 else (total + limit - 1) / limit
  }

  predicate ValidLimit(limit: nat) {
    1 <= limit <= LIMIT_MAX
  }

  /** The controller, behind the validation of its query parameters. */
  function HistoryPage<T>(history: seq<T>, page: nat, limit: nat): Page<T>
    requires page >= 1 && ValidLimit(limit)
  {
    Page(GetHistory(history, page, limit), |history|, page, limit, PageCount(|history|, limit))
  }

  /** `getNextPageParam` of the infinite query. */
  function NextPageParam<T>(last: Page<T>): Option<nat> {
    if last.page >= last.pages then None else Some(last.page + 1)
  }

  // ------------------------------------------------------------------ pages cover the history

  /** The data of pages `1..n`, one after the other. */
  function Concatenated<T>(history: seq<T>, limit: nat, n: nat): seq<T>
    requires ValidLimit(limit)
  {
    if n == 0 then [] else Concatenated(history, limit, n - 1) + GetHistory(history, n, limit)
  }

  lemma BeforeNext(page: nat, limit: nat)
    requires page >= 1
    ensures Before(page + 1, limit) == Before(page, limit) + limit
    ensures Before(1, limit) == 0
  {
  }

  lemma BeforeGrows(a: nat, b: nat, limit: nat)
    requires 1 <= a <= b
    ensures Before(a, limit) <= Before(b, limit)
  {
  }

  lemma {:induction false} ConcatenatedIsPrefix<T>(history: seq<T>, limit: nat, n: nat)
    requires ValidLimit(limit)
    ensures Concatenated(history, limit, n) == history[..Min(Before(n + 1, limit), |history|)]
  {
    hide Before;
    BeforeNext(n + 1, limit);
    if n > 0 {
      ConcatenatedIsPrefix(history, limit, n - 1);
      BeforeNext(n, limit);
    }
  }

  lemma PageCountBounds(total: nat, limit: nat)
    requires limit >= 1
    ensures total <= Before(PageCount(total, limit) + 1, limit)
    ensures PageCount(total, limit) > 0 ==> Before(PageCount(total, limit), limit) < total
  {
    if total > 0 {
      var q, r := (total + limit - 1) / limit, (total + limit - 1) % limit;
      assert total + limit - 1 == q * limit + r;
      assert (q - 1) * limit == q * limit - limit;
    }
  }

  lemma PageSize<T>(history: seq<T>, limit: nat, page: nat)
    requires ValidLimit(limit) && page >= 1
    ensures page < PageCount(|history|, limit) ==> |GetHistory(history, page, limit)| == limit
    ensures page <= PageCount(|history|, limit) ==> GetHistory(history, page, limit) != []
    ensures page > PageCount(|history|, limit) ==> GetHistory(history, page, limit) == []
  {
    hide Before, PageCount;
    var pages := PageCount(|history|, limit);
    PageCountBounds(|history|, limit);
    BeforeNext(page, limit);
    if page < pages {
      BeforeGrows(page + 1, pages, limit);
    } else if page > pages {
      BeforeGrows(pages + 1, page, limit);
    }
  }

  /** Numbers out of range are moved to the nearest page, and to the nearest limit from 1 to 100. */
  lemma NumbersAreClamped<T>(history: seq<T>, page: int, limit: int)
    ensures |GetHistory(history, page, limit)| <= 100
    ensures page < 1 ==> GetHistory(history, page, limit) == GetHistory(history, 1, limit)
    ensures limit < 1 ==> GetHistory(history, page, limit) == GetHistory(history, page, 1)
    ensures limit > 100 ==> GetHistory(history, page, limit) == GetHistory(history, page, 100)
    ensures ValidLimit(if limit < 0 then 0 else limit) <==> 1 <= limit <= 100
  {
  }

  /** Pages one to the page count are the whole history, each message once and in order; all but the last are full. */
  lemma PagesCoverHistory<T>(history: seq<T>, limit: nat)
    requires ValidLimit(limit)
    ensures Concatenated(history, limit, PageCount(|history|, limit)) == history
    ensures forall p: nat :: 1 <= p < PageCount(|history|, limit) ==> |GetHistory(history, p, limit)| == limit
    ensures forall p: nat :: 1 <= p <= PageCount(|history|, limit) ==> GetHistory(history, p, limit) != []
    ensures forall p: nat :: p > PageCount(|history|, limit) && p >= 1 ==> GetHistory(history, p, limit) == []
  {
    hide Before, PageCount, GetHistory;
    PageCountBounds(|history|, limit);
    ConcatenatedIsPrefix(history, limit, PageCount(|history|, limit));
    forall p: nat | p >= 1
      ensures p < PageCount(|history|, limit) ==> |GetHistory(history, p, limit)| == limit
      ensures p <= PageCount(|history|, limit) ==> GetHistory(history, p, limit) != []
      ensures p > PageCount(|history|, limit) ==> GetHistory(history, p, limit) == []
    {
      PageSize(history, limit, p);
    }
  }

  // ------------------------------------------------------------------ the client's walk

  /** The pages fetched from `page` on, each telling whether there is a next one. */
  function Walk<T>(history: seq<T>, limit: nat, page: nat): seq<Page<T>>
    requires page >= 1 && ValidLimit(limit)
    decreases PageCount(|history|, limit) - page
  {
    var fetched := HistoryPage(history, page, limit);
    [fetched] + (if NextPageParam(fetched).None? then [] else Walk(history, limit, NextPageParam(fetched).value))
  }

  lemma {:induction false} WalkFetchesTheRest<T>(history: seq<T>, limit: nat, page: nat)
    requires page >= 1 && ValidLimit(limit)
    ensures var walk := Walk(history, limit, page);
            && |walk| == Max(PageCount(|history|, limit) - page, 0) + 1
            && (forall k :: 0 <= k < |walk| ==> walk[k] == HistoryPage(history, page + k, limit))
    decreases PageCount(|history|, limit) - page
  {
    hide GetHistory, PageCount;
    var fetched := HistoryPage(history, page, limit);
    if NextPageParam(fetched).Some? {
      WalkFetchesTheRest(history, limit, page + 1);
    }
  }

  function Data<T>(pages: seq<Page<T>>): seq<T> {
    if pages == [] then [] else Data(pages[..|pages| - 1]) + pages[|pages| - 1].data
  }

  lemma {:induction false} DataOfFirstPages<T>(history: seq<T>, limit: nat, pages: seq<Page<T>>)
    requires ValidLimit(limit)
    requires forall k :: 0 <= k < |pages| ==> pages[k] == HistoryPage(history, 1 + k, limit)
    ensures Data(pages) == Concatenated(history, limit, |pages|)
  {
    if pages != [] {
      DataOfFirstPages(history, limit, pages[..|pages| - 1]);
    }
  }

  /** From page 1 the walk fetches page 1, then exactly the remaining pages, and what it shows is the history. */
  lemma WalkShowsHistory<T>(history: seq<T>, limit: nat)
    requires ValidLimit(limit)
    ensures var walk := Walk(history, limit, 1);
            && |walk| == Max(PageCount(|history|, limit), 1)
            && (forall k :: 0 <= k < |walk| ==> walk[k] == HistoryPage(history, k + 1, limit))
            && Data(walk) == history
  {
    hide Before, GetHistory, Walk;
    var walk := Walk(history, limit, 1);
    WalkFetchesTheRest(history, limit, 1);
    DataOfFirstPages(history, limit, walk);
    PagesCoverHistory(history, limit);
    if |history| == 0 {
      ConcatenatedIsPrefix(history, limit, 1);
    }
  }
}
