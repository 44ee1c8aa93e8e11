/**
 The contact-request and chat tables: the rows, the constraints the store enforces, and the three
 writes the contact service makes. Rows are never deleted, so a row's id is its position.
 */
module ContactTables {
  import opened Options

  type UserId = nat

  datatype Status = Pending | Accepted | Declined

  datatype Request = Request(sender: UserId, receiver: UserId, status: Status)

  datatype Chat = Chat(userA: UserId, userB: UserId)

  datatype Tables = Tables(requests: seq<Request>, chats: seq<Chat>)

  /** Both orders of a pair name the same chat. */
  function Normalize(a: UserId, b: UserId): Chat {
    if a < b then Chat(a, b) else Chat(b, a)
  }

  /** The request from `sender` to `receiver`. */
  function FindRequest(requests: seq<Request>, sender: UserId, receiver: UserId): (r: Option<nat>)
    ensures r.Some? ==> r.value < |requests|
                        && requests[r.value].sender == sender && requests[r.value].receiver == receiver
    ensures r.None? ==> forall i :: 0 <= i < |requests| ==>
                          requests[i].sender != sender || requests[i].receiver != receiver
  {
    if requests == [] then None else
    var last := requests[|requests| - 1];
    if last.sender == sender && last.receiver == receiver then Some(|requests| - 1)
    else FindRequest(requests[..|requests| - 1], sender, receiver)
  }

  /** The insert, refused by the unique constraint on the pair and by the check against self-requests. */
  function InsertRequest(t: Tables, sender: UserId, receiver: UserId): Option<Tables> {
    if sender == receiver || FindRequest(t.requests, sender, receiver).Some? then None
    else Some(t.(requests := t.requests + [Request(sender, receiver, Pending)]))
  }

  function SetStatus(t: Tables, id: nat, status: Status): Tables
    requires id < |t.requests|
  {
    t.(requests := t.requests[id := t.requests[id].(status := status)])
  }

  /** The chat of a pair, created unless it exists. */
  function CreateChatForPair(t: Tables, a: UserId, b: UserId): Tables {
    if Normalize(a, b) in t.chats then t else t.(chats := t.chats + [Normalize(a, b)])
  }

  /** The transaction of a response: the new status and, on acceptance, the pair's chat. */
  function CommitResponse(t: Tables, id: nat, status: Status): Tables
    requires id < |t.requests|
  {
    var updated := SetStatus(t, id, status);
    if status == Accepted then CreateChatForPair(updated, t.requests[id].sender, t.requests[id].receiver)
    else updated
  }

  // ------------------------------------------------------------------ what the tables always satisfy

  ghost predicate RequestsInv(requests: seq<Request>) {
    && (forall i :: 0 <= i < |requests| ==> requests[i].sender != requests[i].receiver)
    && (forall i, j :: 0 <= i < j < |requests| ==>
          requests[i].sender != requests[j].sender || requests[i].receiver != requests[j].receiver)
  }

  ghost predicate ChatsInv(chats: seq<Chat>) {
    && (forall i :: 0 <= i < |chats| ==> chats[i].userA < chats[i].userB)
    && (forall i, j :: 0 <= i < j < |chats| ==> chats[i] != chats[j])
  }

  /** One request per ordered pair, none to oneself; one normalized chat per pair; a chat for every acceptance. */
  ghost predicate Inv(t: Tables) {
    && RequestsInv(t.requests) && ChatsInv(t.chats)
    && (forall i :: 0 <= i < |t.requests| && t.requests[i].status == Accepted ==>
          Normalize(t.requests[i].sender, t.requests[i].receiver) in t.chats)
  }

  lemma InsertKeepsInv(t: Tables, sender: UserId, receiver: UserId)
    requires Inv(t) && InsertRequest(t, sender, receiver).Some?
    ensures Inv(InsertRequest(t, sender, receiver).value)
  {
  }

  lemma SetStatusKeepsInv(t: Tables, id: nat, status: Status)
    requires Inv(t) && id < |t.requests|
    requires status == Accepted ==> Normalize(t.requests[id].sender, t.requests[id].receiver) in t.chats
    ensures Inv(SetStatus(t, id, status))
  {
  }

  lemma CommitKeepsInv(t: Tables, id: nat, status: Status)
    requires Inv(t) && id < |t.requests|
    ensures Inv(CommitResponse(t, id, status))
  {
    var Request(a, b, _) := t.requests[id];
    var chats := CreateChatForPair(t, a, b).chats;
    assert Inv(t.(chats := chats)) by {
      assert forall c :: c in t.chats ==> c in chats;
    }
    SetStatusKeepsInv(if status == Accepted then t.(chats := chats) else t, id, status);
  }
}
