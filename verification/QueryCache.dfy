/** The query cache of the client, updated in place when a message arrives. */
module QueryCache {
  import opened Options
  import opened Paging
  import opened HistoryCache
  import opened ConversationList

  class QueryClient {
    var historyPages: map<(nat, nat), Page<Message>>     // by chat and page
    var infiniteHistories: map<nat, seq<Page<Message>>>  // by chat
    var conversations: Option<seq<Conversation>>

    constructor ()
      ensures historyPages == map[] && infiniteHistories == map[] && conversations == None
    {
      historyPages, infiniteHistories, conversations := map[], map[], None;
    }

    method PrependToPages(m: Message)
      modifies this`historyPages
      ensures historyPages.Keys == old(historyPages).Keys
      ensures forall k :: k in historyPages ==>
                Some(historyPages[k]) == if k.0 == m.chat then PrependMessageToHistory(Some(old(historyPages)[k]), m)
                                         else Some(old(historyPages)[k])
    {
      hide PrependMessageToHistory;
      var left := historyPages.Keys;
      while left != {}
        invariant left <= historyPages.Keys == old(historyPages).Keys
        invariant forall k :: k in historyPages ==>
                    Some(historyPages[k]) == if k.0 == m.chat && k !in left
                                             then PrependMessageToHistory(Some(old(historyPages)[k]), m)
                                             else Some(old(historyPages)[k])
        decreases |left|
      {
        var key :| key in left;
        left := left - {key};
        if key.0 == m.chat {
          PrependToCached(historyPages[key], m);
          historyPages := historyPages[key := PrependMessageToHistory(Some(historyPages[key]), m).value];
        }
      }
    }

    /** Every cached page of the message's chat and the first page of its infinite list take the message at the head. */
    method ApplyIncomingMessage(m: Message)
      modifies this
      ensures historyPages.Keys == old(historyPages).Keys
      ensures forall k :: k in historyPages ==>
                Some(historyPages[k]) == if k.0 == m.chat then PrependMessageToHistory(Some(old(historyPages)[k]), m)
                                         else Some(old(historyPages)[k])
      ensures infiniteHistories.Keys == old(infiniteHistories).Keys
      ensures forall c :: c in infiniteHistories ==>
                infiniteHistories[c] == if c == m.chat then PrependToFirst(old(infiniteHistories)[c], m)
                                        else old(infiniteHistories)[c]
      ensures old(conversations).None? ==> conversations.None?
      ensures old(conversations).Some? ==>
                conversations.Some? && IsPatchOf(conversations.value, old(conversations).value, m)
    {
      hide PrependMessageToHistory, IsSortOf, PrependToFirst;
      PrependToPages(m);
      if m.chat in infiniteHistories {
        infiniteHistories := infiniteHistories[m.chat := PrependToFirst(infiniteHistories[m.chat], m)];
      }
      if conversations.Some? {
        SortSorts(PatchAll(conversations.value, m));
        conversations := Some(Sort(PatchAll(conversations.value, m)));
      }
    }
  }

  lemma PrependToCached(cached: Page<Message>, m: Message)
    ensures PrependMessageToHistory(Some(cached), m).Some?
  {
  }
}
