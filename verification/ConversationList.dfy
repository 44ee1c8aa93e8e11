/**
 The conversation list under messages that arrive from three sides, in any order and any number of
 times: previews, activity times and the order of the list converge.
 */
module ConversationList {
  import opened Common
  import opened Options
  import opened HistoryCache

  datatype Conversation = Conversation(id: nat, lastMessage: Option<Message>, lastActivityAt: nat)

  /** One conversation under one message: a message of the chat that is not older than the preview replaces it. */
  function Patch(c: Conversation, m: Message): Conversation {
    if c.id != m.chat then c
    else if c.lastMessage.Some? && c.lastMessage.value.createdAt > m.createdAt then c
    else c.(lastMessage := Some(m), lastActivityAt := m.createdAt)
  }

  function PatchAll(cache: seq<Conversation>, m: Message): (r: seq<Conversation>)
    ensures |r| == |cache| && forall i :: 0 <= i < |cache| ==> r[i] == Patch(cache[i], m)
  {
    seq(|cache|, i requires 0 <= i < |cache| => Patch(cache[i], m))
  }

  // ------------------------------------------------------------------ the sort

  predicate ActivityTimesDiffer(list: seq<Conversation>) {
    forall i, j :: 0 <= i < j < |list| ==> list[i].lastActivityAt != list[j].lastActivityAt
  }

  predicate MostRecentFirst(list: seq<Conversation>) {
    forall i, j :: 0 <= i < j < |list| ==> list[i].lastActivityAt > list[j].lastActivityAt
  }

  /** The comparator of the sort. */
  function Compare(a: Conversation, b: Conversation): int {
    if a.lastActivityAt < b.lastActivityAt then 1 else -1
  }

  /** It contradicts itself exactly on ties, where each of the two is to go first. */
  lemma ComparatorIsConsistentExactlyOffTies(a: Conversation, b: Conversation)
    ensures Compare(a, b) == -Compare(b, a) <==> a.lastActivityAt != b.lastActivityAt
    ensures a.lastActivityAt == b.lastActivityAt ==> Compare(a, b) < 0 && Compare(b, a) < 0
    ensures a.lastActivityAt < b.lastActivityAt ==> Compare(a, b) > 0
  {
  }

  /** The comparator never says of two of these conversations that each goes before the other. */
  predicate IsConsistentOn(list: seq<Conversation>) {
    forall i, j :: 0 <= i < j < |list| ==> Compare(list[i], list[j]) == -Compare(list[j], list[i])
  }

  /**
   What ECMA-262 promises of `Array.prototype.sort`: a permutation, and one in comparator order if the
   comparator is consistent on the elements. Otherwise the order is the engine's.
   */
  ghost predicate IsSortOf(sorted: seq<Conversation>, list: seq<Conversation>) {
    && multiset(sorted) == multiset(list)
    && (IsConsistentOn(list) ==> forall i, j :: 0 <= i < j < |sorted| ==> Compare(sorted[i], sorted[j]) <= 0)
  }

  lemma SameElements(xs: seq<Conversation>, ys: seq<Conversation>)
    requires multiset(xs) == multiset(ys)
    ensures |xs| == |ys| && forall c :: c in xs <==> c in ys
  {
    assert |multiset(xs)| == |multiset(ys)|;
    assert forall c :: c in xs <==> c in multiset(xs);
    assert forall c :: c in ys <==> c in multiset(ys);
  }

  lemma {:induction false} Multiplicity(list: seq<Conversation>, i: nat, j: nat)
    requires i < j < |list| && list[i] == list[j]
    ensures multiset(list)[list[i]] >= 2
  {
    assert list == list[..j] + list[j..];
    assert list[i] in list[..j] && list[j] in list[j..];
  }

  lemma {:induction false} DistinctOnce(list: seq<Conversation>, c: Conversation)
    requires Distinct(list)
    ensures multiset(list)[c] <= 1
  {
    if list != [] {
      assert list == [list[0]] + list[1..];
      DistinctOnce(list[1..], c);
      assert c == list[0] ==> c !in list[1..];
    }
  }

  lemma PermutedTimesDiffer(sorted: seq<Conversation>, list: seq<Conversation>)
    requires multiset(sorted) == multiset(list) && ActivityTimesDiffer(list)
    ensures ActivityTimesDiffer(sorted)
  {
    SameElements(sorted, list);
    forall i, j | 0 <= i < j < |sorted| ensures sorted[i].lastActivityAt != sorted[j].lastActivityAt {
      assert sorted[i] in list && sorted[j] in list;
      if sorted[i] == sorted[j] {
        Multiplicity(sorted, i, j);
        DistinctOnce(list, sorted[i]);
      }
    }
  }

  /** The sort mirrors the order of the server exactly: most recent first, whenever the activity times differ. */
  lemma SortIsMostRecentFirst(sorted: seq<Conversation>, list: seq<Conversation>)
    requires IsSortOf(sorted, list) && ActivityTimesDiffer(list)
    ensures MostRecentFirst(sorted)
  {
    PermutedTimesDiffer(sorted, list);
    forall i, j | 0 <= i < j < |sorted| ensures sorted[i].lastActivityAt > sorted[j].lastActivityAt {
      assert Compare(sorted[i], sorted[j]) <= 0;
    }
  }

  /** One way to sort: insert each conversation before the first one that is less recent. */
  function Insert(c: Conversation, list: seq<Conversation>): (r: seq<Conversation>)
    ensures multiset(r) == multiset(list) + multiset{c}
  {
    if list == [] then [c]
    else if list[0].lastActivityAt < c.lastActivityAt then [c] + list
    else
      assert list == [list[0]] + list[1..];
      [list[0]] + Insert(c, list[1..])
  }

  function Sort(list: seq<Conversation>): (r: seq<Conversation>)
    ensures multiset(r) == multiset(list)
  {
    if list == [] then [] else
    assert list == [list[0]] + list[1..];
    Insert(list[0], Sort(list[1..]))
  }

  lemma HeadFirst(head: Conversation, rest: seq<Conversation>)
    requires MostRecentFirst(rest) && forall x :: x in rest ==> x.lastActivityAt < head.lastActivityAt
    ensures MostRecentFirst([head] + rest)
  {
  }

  lemma {:induction false} InsertKeepsOrder(c: Conversation, list: seq<Conversation>)
    requires MostRecentFirst(list)
    requires forall x :: x in list ==> x.lastActivityAt != c.lastActivityAt
    ensures MostRecentFirst(Insert(c, list))
    ensures forall x :: x in Insert(c, list) ==> x in list || x == c
  {
    if list == [] {
    } else if list[0].lastActivityAt < c.lastActivityAt {
      HeadFirst(c, list);
    } else {
      InsertKeepsOrder(c, list[1..]);
      assert list[0] in list && forall x :: x in list[1..] ==> x.lastActivityAt < list[0].lastActivityAt;
      HeadFirst(list[0], Insert(c, list[1..]));
    }
  }

  lemma {:induction false} SortDescends(list: seq<Conversation>)
    requires ActivityTimesDiffer(list)
    ensures MostRecentFirst(Sort(list))
  {
    if list != [] {
      SortDescends(list[1..]);
      SameElements(Sort(list[1..]), list[1..]);
      InsertKeepsOrder(list[0], Sort(list[1..]));
    }
  }

  /** Insertion does what is promised of the sort. */
  lemma SortSorts(list: seq<Conversation>)
    ensures IsSortOf(Sort(list), list)
  {
    if IsConsistentOn(list) {
      forall i, j | 0 <= i < j < |list| ensures list[i].lastActivityAt != list[j].lastActivityAt {
        ComparatorIsConsistentExactlyOffTies(list[i], list[j]);
      }
      SortDescends(list);
    }
  }

  // ------------------------------------------------------------------ deliveries

  /** `patchConversationWithMessage` on a cached list: some sort of the patched conversations. */
  ghost predicate IsPatchOf(after: seq<Conversation>, before: seq<Conversation>, m: Message) {
    IsSortOf(after, PatchAll(before, m))
  }

  /** The list goes through `lists` as the messages are delivered one by one. */
  ghost predicate Delivers(lists: seq<seq<Conversation>>, messages: seq<Message>) {
    |lists| == |messages| + 1
    && forall k :: 0 <= k < |messages| ==> IsPatchOf(lists[k + 1], lists[k], messages[k])
  }

  predicate UniqueIds(list: seq<Conversation>) {
    forall i, j :: 0 <= i < j < |list| ==> list[i].id != list[j].id
  }

  function PatchByAll(c: Conversation, messages: seq<Message>): (r: Conversation)
    ensures r.id == c.id
  {
    if messages == [] then c else Patch(PatchByAll(c, messages[..|messages| - 1]), messages[|messages| - 1])
  }

  /** `after` holds, once each, the conversations of `before` patched by all of the messages. */
  ghost predicate HoldsPatched(after: seq<Conversation>, before: seq<Conversation>, messages: seq<Message>) {
    && |after| == |before| && UniqueIds(after)
    && (forall i :: 0 <= i < |before| ==> PatchByAll(before[i], messages) in after)
    && (forall c :: c in after ==> exists i :: 0 <= i < |before| && c == PatchByAll(before[i], messages))
  }

  lemma SortKeepsIds(sorted: seq<Conversation>, list: seq<Conversation>)
    requires UniqueIds(list) && multiset(sorted) == multiset(list)
    ensures UniqueIds(sorted) && |sorted| == |list|
    ensures forall c :: c in sorted <==> c in list
  {
    SameElements(sorted, list);
    forall i, j | 0 <= i < j < |sorted| ensures sorted[i].id != sorted[j].id {
      if sorted[i].id == sorted[j].id {
        assert sorted[i] in list && sorted[j] in list;
        Multiplicity(sorted, i, j);
        DistinctOnce(list, sorted[i]);
      }
    }
  }

  /** After any deliveries every conversation is there exactly once, patched by exactly the messages delivered. */
  lemma {:induction false} DeliveriesPatchEach(lists: seq<seq<Conversation>>, messages: seq<Message>)
    requires Delivers(lists, messages) && UniqueIds(lists[0])
    ensures HoldsPatched(lists[|messages|], lists[0], messages)
    decreases |messages|
  {
    var n := |messages|;
    if n > 0 {
      var front, last := messages[..n - 1], messages[n - 1];
      assert Delivers(lists[..n], front) by {
        assert forall k :: 0 <= k < n - 1 ==> IsPatchOf(lists[..n][k + 1], lists[..n][k], front[k]);
      }
      DeliveriesPatchEach(lists[..n], front);
      StepPatchesEach(lists[n], lists[n - 1], lists[0], front, last);
      assert front + [last] == messages;
    }
  }

  lemma StepPatchesEach(after: seq<Conversation>, before: seq<Conversation>, start: seq<Conversation>,
                        front: seq<Message>, last: Message)
    requires HoldsPatched(before, start, front) && IsPatchOf(after, before, last)
    ensures HoldsPatched(after, start, front + [last])
  {
    assert (front + [last])[..|front|] == front;
    var patched := PatchAll(before, last);
    SortKeepsIds(after, patched);
    forall i | 0 <= i < |start| ensures PatchByAll(start[i], front + [last]) in after {
      var k :| 0 <= k < |before| && before[k] == PatchByAll(start[i], front);
      assert patched[k] == PatchByAll(start[i], front + [last]);
    }
    forall c | c in after ensures exists i :: 0 <= i < |start| && c == PatchByAll(start[i], front + [last]) {
      var k :| 0 <= k < |patched| && patched[k] == c;
      assert before[k] in before;
      var i :| 0 <= i < |start| && before[k] == PatchByAll(start[i], front);
      assert c == PatchByAll(start[i], front + [last]);
    }
  }

  // ------------------------------------------------------------------ the newest message wins

  /** The messages that compete for the preview of a conversation. */
  predicate Competes(c: Conversation, messages: seq<Message>, m: Message) {
    (m in messages && m.chat == c.id) || c.lastMessage == Some(m)
  }

  predicate IsNewest(c: Conversation, messages: seq<Message>, m: Message) {
    && Competes(c, messages, m)
    && (forall x :: x in messages && x.chat == c.id ==> x.createdAt <= m.createdAt)
    && (c.lastMessage.Some? ==> c.lastMessage.value.createdAt <= m.createdAt)
  }

  /** Previews belong to their chat and carry the activity time. */
  predicate PreviewInv(c: Conversation) {
    c.lastMessage.Some? ==> c.lastMessage.value.chat == c.id && c.lastActivityAt == c.lastMessage.value.createdAt
  }

  /** The conversation shows the message at `k`: the last to arrive of the newest ones. */
  predicate ShowsLatest(r: Conversation, c: Conversation, messages: seq<Message>, k: int) {
    && 0 <= k < |messages| && messages[k].chat == c.id
    && r == Conversation(c.id, Some(messages[k]), messages[k].createdAt)
    && (c.lastMessage.Some? ==> c.lastMessage.value.createdAt <= messages[k].createdAt)
    && (forall j :: 0 <= j < k && messages[j].chat == c.id ==> messages[j].createdAt <= messages[k].createdAt)
    && (forall j :: k < j < |messages| && messages[j].chat == c.id ==> messages[j].createdAt < messages[k].createdAt)
  }

  predicate OnlyOlder(c: Conversation, messages: seq<Message>) {
    forall m :: m in messages && m.chat == c.id ==>
      c.lastMessage.Some? && m.createdAt < c.lastMessage.value.createdAt
  }

  lemma NextIsShown(c: Conversation, front: seq<Message>, last: Message, before: Conversation, k: int)
    requires (before == c && OnlyOlder(c, front)) || ShowsLatest(before, c, front, k)
    ensures var messages, r := front + [last], Patch(before, last);
            || (r == c && OnlyOlder(c, messages))
            || ShowsLatest(r, c, messages, k) || ShowsLatest(r, c, messages, |front|)
  {
    var messages := front + [last];
    assert forall j :: 0 <= j < |front| ==> messages[j] == front[j] && front[j] in front;
  }

  lemma {:induction false} ShownAt(c: Conversation, messages: seq<Message>) returns (k: int)
    ensures var r := PatchByAll(c, messages);
            (r == c && OnlyOlder(c, messages)) || ShowsLatest(r, c, messages, k)
  {
    if messages == [] {
      k := 0;
    } else {
      var front, last := messages[..|messages| - 1], messages[|messages| - 1];
      k := ShownAt(c, front);
      NextIsShown(c, front, last, PatchByAll(c, front), k);
      assert messages == front + [last];
      k := if ShowsLatest(PatchByAll(c, messages), c, messages, k) then k else |front|;
    }
  }

  /** Of messages sent at the same time the one that arrives last is shown; an older one never is. */
  lemma LatestArrivalIsShown(c: Conversation, messages: seq<Message>)
    ensures var r := PatchByAll(c, messages);
            (r == c && OnlyOlder(c, messages)) || exists k :: ShowsLatest(r, c, messages, k)
  {
    var k := ShownAt(c, messages);
  }

  lemma {:induction false} NewestBecomesPreview(c: Conversation, messages: seq<Message>)
    requires PreviewInv(c)
    ensures var r := PatchByAll(c, messages);
            && PreviewInv(r)
            && (r.lastMessage.Some? ==> IsNewest(c, messages, r.lastMessage.value))
            && (r.lastMessage.None? ==> r == c && forall x :: x in messages ==> x.chat != c.id)
  {
    if messages != [] {
      var front, last := messages[..|messages| - 1], messages[|messages| - 1];
      NewestBecomesPreview(c, front);
      assert messages == front + [last];
    }
  }

  /** Creation times tell the messages of a chat apart, those already shown included. */
  ghost predicate TimesTellApart(list: seq<Conversation>, messages: seq<Message>) {
    forall c, x, y :: c in list && Competes(c, messages, x) && Competes(c, messages, y) ==>
      x == y || x.createdAt != y.createdAt
  }

  lemma SameMessagesSamePreview(c: Conversation, list: seq<Conversation>, xs: seq<Message>, ys: seq<Message>)
    requires PreviewInv(c) && c in list && TimesTellApart(list, xs)
    requires forall m :: m in xs <==> m in ys
    ensures PatchByAll(c, xs) == PatchByAll(c, ys)
  {
    NewestBecomesPreview(c, xs);
    NewestBecomesPreview(c, ys);
    var x, y := PatchByAll(c, xs), PatchByAll(c, ys);
    if x.lastMessage.Some? && y.lastMessage.Some? {
      assert Competes(c, xs, x.lastMessage.value) && Competes(c, xs, y.lastMessage.value);
    }
  }

  lemma {:induction false} DescendingIsDetermined(xs: seq<Conversation>, ys: seq<Conversation>)
    requires MostRecentFirst(xs) && MostRecentFirst(ys) && |xs| == |ys|
    requires forall c :: c in xs <==> c in ys
    ensures xs == ys
  {
    if xs != [] {
      assert xs[0] in ys && ys[0] in xs;
      assert xs[0] == ys[0];
      forall c ensures c in xs[1..] <==> c in ys[1..] {
        assert c in xs[1..] ==> c != xs[0] && c in ys;
        assert c in ys[1..] ==> c != ys[0] && c in xs;
        assert xs == [xs[0]] + xs[1..] && ys == [ys[0]] + ys[1..];
      }
      DescendingIsDetermined(xs[1..], ys[1..]);
    }
  }

  /**
   Convergence: the same messages, delivered in two orders and with any repetitions, leave the same
   conversations, each with its newest message as preview and that message's time as activity; and the
   same list, most recent first, when the activity times differ.
   */
  lemma DeliveriesConverge(start: seq<Conversation>, xs: seq<Message>, ys: seq<Message>,
                           viaXs: seq<seq<Conversation>>, viaYs: seq<seq<Conversation>>)
    requires UniqueIds(start) && TimesTellApart(start, xs)
    requires forall c :: c in start ==> PreviewInv(c)
    requires forall m :: m in xs <==> m in ys
    requires Delivers(viaXs, xs) && Delivers(viaYs, ys) && viaXs[0] == viaYs[0] == start
    ensures HoldsPatched(viaXs[|xs|], start, xs)
    ensures forall c :: c in viaXs[|xs|] <==> c in viaYs[|ys|]
    ensures forall c :: c in viaXs[|xs|] ==>
              if c.lastMessage.None? then c in start && forall m :: m in xs ==> m.chat != c.id
              else c.lastActivityAt == c.lastMessage.value.createdAt
                   && forall m :: m in xs && m.chat == c.id ==> m.createdAt <= c.lastMessage.value.createdAt
    ensures xs != [] && ActivityTimesDiffer(viaXs[|xs|]) ==>
              viaXs[|xs|] == viaYs[|ys|] && MostRecentFirst(viaXs[|xs|])
  {
    hide IsPatchOf, PatchByAll, TimesTellApart, PreviewInv;
    var x, y := viaXs[|xs|], viaYs[|ys|];
    DeliveriesPatchEach(viaXs, xs);
    DeliveriesPatchEach(viaYs, ys);
    forall i | 0 <= i < |start| ensures PatchByAll(start[i], xs) == PatchByAll(start[i], ys) {
      SameMessagesSamePreview(start[i], start, xs, ys);
    }
    assert forall c :: c in x <==> c in y;
    PreviewsAreNewest(start, xs, x);
    if xs != [] && ActivityTimesDiffer(x) {
      assert xs[0] in ys;
      SameElementsSameTimes(x, y);
      LastDeliverySorts(viaXs, xs);
      LastDeliverySorts(viaYs, ys);
      DescendingIsDetermined(x, y);
    }
  }

  lemma PreviewsAreNewest(start: seq<Conversation>, xs: seq<Message>, x: seq<Conversation>)
    requires HoldsPatched(x, start, xs) && forall c :: c in start ==> PreviewInv(c)
    ensures forall c :: c in x ==>
              if c.lastMessage.None? then c in start && forall m :: m in xs ==> m.chat != c.id
              else c.lastActivityAt == c.lastMessage.value.createdAt
                   && forall m :: m in xs && m.chat == c.id ==> m.createdAt <= c.lastMessage.value.createdAt
  {
    hide PatchByAll;
    forall c | c in x
      ensures if c.lastMessage.None? then c in start && forall m :: m in xs ==> m.chat != c.id
              else c.lastActivityAt == c.lastMessage.value.createdAt
                   && forall m :: m in xs && m.chat == c.id ==> m.createdAt <= c.lastMessage.value.createdAt
    {
      var i :| 0 <= i < |start| && c == PatchByAll(start[i], xs);
      NewestBecomesPreview(start[i], xs);
    }
  }

  lemma LastDeliverySorts(via: seq<seq<Conversation>>, xs: seq<Message>)
    requires Delivers(via, xs) && xs != [] && ActivityTimesDiffer(via[|xs|])
    ensures MostRecentFirst(via[|xs|])
  {
    hide IsSortOf;
    assert IsPatchOf(via[|xs| - 1 + 1], via[|xs| - 1], xs[|xs| - 1]);
    DistinctTimesAreDescending(via[|xs|], PatchAll(via[|xs| - 1], xs[|xs| - 1]));
  }

  lemma DistinctTimesAreDescending(sorted: seq<Conversation>, list: seq<Conversation>)
    requires IsSortOf(sorted, list) && ActivityTimesDiffer(sorted)
    ensures MostRecentFirst(sorted)
  {
    PermutedTimesDiffer(list, sorted);
    SortIsMostRecentFirst(sorted, list);
  }

  lemma SameElementsSameTimes(xs: seq<Conversation>, ys: seq<Conversation>)
    requires UniqueIds(ys) && ActivityTimesDiffer(xs) && forall c :: c in xs <==> c in ys
    ensures ActivityTimesDiffer(ys)
  {
    forall i, j | 0 <= i < j < |ys| ensures ys[i].lastActivityAt != ys[j].lastActivityAt {
      assert ys[i] in xs && ys[j] in xs;
    }
  }
}
