/**
 The client's copy of a chat history against the server's: a message is put at the head of a cached
 page, and the page is cut back to its limit.
 */
module HistoryCache {
  import opened Common
  import opened Options
  import opened Paging

  datatype Message = Message(id: nat, chat: nat, createdAt: nat)

  predicate HasId(messages: seq<Message>, id: nat) {
    exists i :: 0 <= i < |messages| && messages[i].id == id
  }

  /** Nothing for a page that is not cached; nothing new for a message the page already shows. */
  function PrependMessageToHistory(cache: Option<Page<Message>>, m: Message): Option<Page<Message>> {
    if cache.None? || HasId(cache.value.data, m.id) then cache else
    var longer := [m] + cache.value.data;
    Some(cache.value.(data := longer[..Min(|longer|, cache.value.limit)], total := cache.value.total + 1))
  }

  // ------------------------------------------------------------------ the server's side

  /** Newest first, by distinct creation times, one message per id. */
  predicate NewestFirst(history: seq<Message>) {
    && (forall i, j :: 0 <= i < j < |history| ==> history[i].createdAt > history[j].createdAt)
    && (forall i, j :: 0 <= i < j < |history| ==> history[i].id != history[j].id)
  }

  /** A message of the table: the row with its id, if the table has one, and a time of its own otherwise. */
  predicate Consistent(history: seq<Message>, m: Message) {
    && (forall i :: 0 <= i < |history| && history[i].id == m.id ==> history[i] == m)
    && (forall i :: 0 <= i < |history| && history[i].createdAt == m.createdAt ==> history[i] == m)
  }

  /** The history once the server has stored the message: in its place by creation time. */
  function Stored(history: seq<Message>, m: Message): seq<Message> {
    if history == [] then [m]
    else if history[0] == m then history
    else if history[0].createdAt < m.createdAt then [m] + history
    else [history[0]] + Stored(history[1..], m)
  }

  lemma TailIsOlder(history: seq<Message>, m: Message)
    requires NewestFirst(history) && Consistent(history, m) && history != []
    ensures NewestFirst(history[1..]) && Consistent(history[1..], m)
    ensures forall i :: 0 < i < |history| ==> history[i].createdAt < history[0].createdAt
  {
  }

  lemma HeadBefore(head: Message, rest: seq<Message>)
    requires NewestFirst(rest)
    requires forall x :: x in rest ==> x.createdAt < head.createdAt && x.id != head.id
    ensures NewestFirst([head] + rest)
  {
  }

  /** Storing adds the message, keeps the others, and keeps the order. */
  lemma {:induction false} StoredIsSorted(history: seq<Message>, m: Message)
    requires NewestFirst(history) && Consistent(history, m)
    ensures forall x :: x in Stored(history, m) <==> x in history || x == m
    ensures NewestFirst(Stored(history, m))
  {
    if history == [] || history[0] == m {
    } else if history[0].createdAt < m.createdAt {
      TailIsOlder(history, m);
      HeadBefore(m, history);
    } else {
      var head, rest := history[0], history[1..];
      assert history == [head] + rest;
      assert forall x :: x in rest ==> x.createdAt < head.createdAt && x.id != head.id;
      assert m.createdAt < head.createdAt && m.id != head.id;
      TailIsOlder(history, m);
      hide NewestFirst, Consistent;
      StoredIsSorted(rest, m);
      HeadBefore(head, Stored(rest, m));
    }
  }

  lemma {:induction false} StoredIsKnown(history: seq<Message>, m: Message, i: nat)
    requires NewestFirst(history) && Consistent(history, m) && i < |history| && history[i] == m
    ensures Stored(history, m) == history
  {
    hide NewestFirst, Consistent;
    if i > 0 {
      TailIsOlder(history, m);
      StoredIsKnown(history[1..], m, i - 1);
      assert history == [history[0]] + history[1..];
    }
  }

  /** The newest message is stored at the head, an older one leaves the head alone. */
  lemma StoredHead(history: seq<Message>, m: Message)
    requires NewestFirst(history) && Consistent(history, m) && m !in history
    ensures history == [] || history[0].createdAt < m.createdAt ==> Stored(history, m) == [m] + history
    ensures history != [] && history[0].createdAt > m.createdAt ==> Stored(history, m)[0] == history[0]
  {
  }

  /** The cached page shows what the server would send; the page count may be stale. */
  predicate ShowsPage(cache: Page<Message>, history: seq<Message>, page: nat, limit: nat)
    requires page >= 1 && ValidLimit(limit)
  {
    cache.data == GetHistory(history, page, limit) && cache.total == |history|
    && cache.page == page && cache.limit == limit
  }

  /** The message is on page 1, or it is new and newer than everything. */
  predicate Timely(history: seq<Message>, m: Message, limit: nat) {
    if m in history then m in history[..Min(limit, |history|)]
    else history == [] || history[0].createdAt < m.createdAt
  }

  lemma FirstPage(history: seq<Message>, limit: nat)
    requires ValidLimit(limit)
    ensures GetHistory(history, 1, limit) == history[..Min(limit, |history|)]
  {
  }

  /** On page 1 prepending agrees with the server exactly for timely deliveries. */
  lemma PrependAgreesExactly(cache: Page<Message>, history: seq<Message>, m: Message, limit: nat)
    requires NewestFirst(history) && Consistent(history, m) && ValidLimit(limit)
    requires ShowsPage(cache, history, 1, limit)
    ensures ShowsPage(PrependMessageToHistory(Some(cache), m).value, Stored(history, m), 1, limit)
            <==> Timely(history, m, limit)
  {
    FirstPage(history, limit);
    FirstPage(Stored(history, m), limit);
    assert HasId(cache.data, m.id) <==> m in cache.data;
    if m in history {
      var i :| 0 <= i < |history| && history[i] == m;
      StoredIsKnown(history, m, i);
    } else {
      hide Stored;
      StoredHead(history, m);
      assert PrependMessageToHistory(Some(cache), m).value.data[0] == m;
    }
  }

  /** Deliveries in the order they arrive, each timely when it does. */
  predicate AllTimely(history: seq<Message>, deliveries: seq<Message>, limit: nat)
    decreases |deliveries|
  {
    deliveries == [] ||
    (Consistent(history, deliveries[0]) && Timely(history, deliveries[0], limit)
     && AllTimely(Stored(history, deliveries[0]), deliveries[1..], limit))
  }

  function StoredAll(history: seq<Message>, deliveries: seq<Message>): seq<Message>
    decreases |deliveries|
  {
    if deliveries == [] then history else StoredAll(Stored(history, deliveries[0]), deliveries[1..])
  }

  function PrependAll(cache: Page<Message>, deliveries: seq<Message>): Page<Message>
    decreases |deliveries|
  {
    if deliveries == [] then cache else
    PrependAll(PrependMessageToHistory(Some(cache), deliveries[0]).value, deliveries[1..])
  }

  /**
   Starting from the server's page 1, any run of newer messages, each delivered again any number of
   times while it is still on the page, leaves the cache at the server's page 1 of the longer history.
   */
  lemma {:induction false} CacheFollowsServer(cache: Page<Message>, history: seq<Message>, deliveries: seq<Message>,
                                              limit: nat)
    requires NewestFirst(history) && ValidLimit(limit) && AllTimely(history, deliveries, limit)
    requires ShowsPage(cache, history, 1, limit)
    ensures ShowsPage(PrependAll(cache, deliveries), StoredAll(history, deliveries), 1, limit)
    decreases |deliveries|
  {
    hide ShowsPage, Timely, Stored, Consistent, NewestFirst;
    if deliveries != [] {
      PrependAgreesExactly(cache, history, deliveries[0], limit);
      StoredIsSorted(history, deliveries[0]);
      CacheFollowsServer(PrependMessageToHistory(Some(cache), deliveries[0]).value,
                         Stored(history, deliveries[0]), deliveries[1..], limit);
    }
  }

  lemma DeeperPagesStartLater(history: seq<Message>, m: Message, page: nat, limit: nat)
    requires page >= 2 && ValidLimit(limit) && m !in history
    ensures var sent := GetHistory([m] + history, page, limit);
            sent == [] || sent[0] != m
  {
    hide Before;
    BeforeNext(1, limit);
    BeforeGrows(2, page, limit);
    var skip := Before(page, limit);
    if skip <= |history| {
      assert ([m] + history)[skip] == history[skip - 1];
    }
  }

  lemma PrependedHead(cache: Page<Message>, m: Message)
    requires !HasId(cache.data, m.id) && cache.limit >= 1
    ensures PrependMessageToHistory(Some(cache), m).value.data != []
    ensures PrependMessageToHistory(Some(cache), m).value.data[0] == m
  {
  }

  /** A new message belongs on page 1 only: prepending it to a deeper page never agrees with the server. */
  lemma DeeperPagesGoStale(cache: Page<Message>, history: seq<Message>, m: Message, page: nat, limit: nat)
    requires NewestFirst(history) && Consistent(history, m) && ValidLimit(limit)
    requires m !in history && (history == [] || history[0].createdAt < m.createdAt)
    requires page >= 1 && ShowsPage(cache, history, page, limit)
    ensures ShowsPage(PrependMessageToHistory(Some(cache), m).value, Stored(history, m), page, limit) <==> page == 1
  {
    if page == 1 {
      PrependAgreesExactly(cache, history, m, limit);
    } else {
      hide Stored, Before, PrependMessageToHistory;
      StoredHead(history, m);
      DeeperPagesStartLater(history, m, page, limit);
      assert forall k :: 0 <= k < |cache.data| ==> cache.data[k] in history;
      PrependedHead(cache, m);
    }
  }

  // ------------------------------------------------------------------ the infinite list

  function PrependToFirst(pages: seq<Page<Message>>, m: Message): seq<Page<Message>> {
    if pages == [] then pages else [PrependMessageToHistory(Some(pages[0]), m).value] + pages[1..]
  }

  lemma DataSnoc<T>(pages: seq<Page<T>>, last: Page<T>)
    ensures Data(pages + [last]) == Data(pages) + last.data
  {
    assert (pages + [last])[..|pages|] == pages;
  }

  lemma {:induction false} DataAppends<T>(left: seq<Page<T>>, right: seq<Page<T>>)
    ensures Data(left + right) == Data(left) + Data(right)
  {
    if right == [] {
      assert left + right == left;
    } else {
      hide Data;
      var front, last := right[..|right| - 1], right[|right| - 1];
      assert right == front + [last] && left + right == (left + front) + [last];
      DataSnoc(front, last);
      DataSnoc(left + front, last);
      DataAppends(left, front);
      assert Data(left) + Data(front) + last.data == Data(left) + (Data(front) + last.data);
    }
  }

  /** The first pages of a history, as the walk loads them. */
  function Loaded(history: seq<Message>, limit: nat, n: nat): (pages: seq<Page<Message>>)
    requires ValidLimit(limit)
    ensures |pages| == n && forall k :: 0 <= k < n ==> pages[k] == HistoryPage(history, k + 1, limit)
  {
    seq(n, k requires 0 <= k < n => HistoryPage(history, k + 1, limit))
  }

  lemma LoadedData(history: seq<Message>, limit: nat, n: nat)
    requires ValidLimit(limit) && n >= 1
    ensures limit <= Before(n + 1, limit)
    ensures Data(Loaded(history, limit, n)) == history[..Min(Before(n + 1, limit), |history|)]
    ensures Data(Loaded(history, limit, n)[1..]) == history[Min(limit, |history|)..Min(Before(n + 1, limit), |history|)]
  {
    var pages := Loaded(history, limit, n);
    hide GetHistory, Before;
    BeforeNext(1, limit);
    BeforeGrows(2, n + 1, limit);
    DataOfFirstPages(history, limit, pages);
    ConcatenatedIsPrefix(history, limit, n);
    FirstPage(history, limit);
    assert pages == [pages[0]] + pages[1..];
    DataAppends([pages[0]], pages[1..]);
    DataOfOne(pages[0]);
    assert Data(pages)[Min(limit, |history|)..] == Data(pages[1..]);
  }

  /** What the list shows of a history after a new message. */
  function ShownAfter(history: seq<Message>, m: Message, limit: nat, seen: nat): seq<Message>
    requires ValidLimit(limit) && Min(limit, |history|) <= seen <= |history|
  {
    if |history| < limit then [m] + history else [m] + history[..limit - 1] + history[limit..seen]
  }

  /** The list as rendered: the loaded pages one after the other. A message pushed off page 1 is in none of them. */
  lemma InfiniteListDropsTheBoundary(history: seq<Message>, m: Message, n: nat, limit: nat)
    requires NewestFirst(history) && Consistent(history, m) && ValidLimit(limit) && n >= 1
    requires m !in history && (history == [] || history[0].createdAt < m.createdAt)
    ensures limit <= Before(n + 1, limit)
    ensures Data(Loaded(history, limit, n)) == history[..Min(Before(n + 1, limit), |history|)]
    ensures Data(PrependToFirst(Loaded(history, limit, n), m))
         == ShownAfter(history, m, limit, Min(Before(n + 1, limit), |history|))
    ensures |history| >= limit ==> history[limit - 1] !in Data(PrependToFirst(Loaded(history, limit, n), m))
  {
    hide Before, GetHistory, ShownAfter, Loaded, Consistent, NewestFirst;
    LoadedData(history, limit, n);
    var pages, seen := Loaded(history, limit, n), Min(Before(n + 1, limit), |history|);
    var first := PrependMessageToHistory(Some(pages[0]), m).value;
    PrependToFirstPage(history, m, limit);
    DataAppends([first], pages[1..]);
    DataOfOne(first);
    TrimmedPlusRest(history, m, limit, seen);
    BoundaryIsMissing(history, m, limit, seen);
  }

  lemma DataOfOne<T>(page: Page<T>)
    ensures Data([page]) == page.data
  {
    DataSnoc([], page);
    assert [] + [page] == [page];
  }

  lemma PrependToFirstPage(history: seq<Message>, m: Message, limit: nat)
    requires Consistent(history, m) && ValidLimit(limit) && m !in history
    ensures PrependMessageToHistory(Some(HistoryPage(history, 1, limit)), m).value.data
         == ([m] + history)[..Min(limit, |history| + 1)]
  {
    FirstPage(history, limit);
  }

  lemma TrimmedPlusRest(history: seq<Message>, m: Message, limit: nat, seen: nat)
    requires ValidLimit(limit) && Min(limit, |history|) <= seen <= |history|
    ensures ([m] + history)[..Min(limit, |history| + 1)] + history[Min(limit, |history|)..seen]
         == ShownAfter(history, m, limit, seen)
  {
  }

  lemma BoundaryIsMissing(history: seq<Message>, m: Message, limit: nat, seen: nat)
    requires NewestFirst(history) && ValidLimit(limit) && Min(limit, |history|) <= seen <= |history| && m !in history
    ensures |history| >= limit ==> history[limit - 1] !in ShownAfter(history, m, limit, seen)
  {
  }
}
