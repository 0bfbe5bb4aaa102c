/**
 * The records of the conversation store (lib/store.ts) and the two list
 * transformations every action is built from: `chats.map(...)` that edits the
 * chats with a given id, and `chats.filter(...)` that drops them.
 */
module ChatModel {
  import opened Wrappers

  datatype Sender = User | Ai

  /** A message id is a millisecond timestamp in the store; here it is any int. */
  datatype Message = Message(id: int, text: string, sender: Sender)

  /** `documentName` is None on a chat that never had a document attached. */
  datatype Chat = Chat(id: int, title: string, messages: seq<Message>, documentName: Option<string>)

  const DefaultTitle: string := "New Chat"

  const SimulatedReply: string :=
    "This is a simulated response. The real AI would consider the chat history and any attached document."

  /** A chat as `startNewChat` and the initial state create it. */
  function EmptyChat(id: int): Chat
  {
    Chat(id, DefaultTitle, [], None)
  }

  /** The callback an action passes to `chats.map` for the chats whose id matches. */
  datatype Edit =
    | AddUserMessage(text: string, messageId: int)  // sendMessage, optimistic step
    | AddMessage(message: Message)                  // sendMessage, delayed reply
    | SetDocument(name: string)                     // attachDocument
    | SetTitle(newTitle: string)                    // renameChat

  /** One chat after an edit: the id never changes and messages are only appended. */
  function Apply(e: Edit, c: Chat): (r: Chat)
    ensures r.id == c.id
    ensures c.messages <= r.messages && |r.messages| <= |c.messages| + 1
  {
    match e
    case AddUserMessage(text, messageId) =>
      c.(title := if |c.messages| == 0 then text else c.title,
         messages := c.messages + [Message(messageId, text, User)])
    case AddMessage(m) => c.(messages := c.messages + [m])
    case SetDocument(name) => c.(documentName := Some(name))
    case SetTitle(t) => c.(title := t)
  }

  /** `chats.map(c => c.id === id ? edit(c) : c)`. */
  function UpdateWhere(chats: seq<Chat>, id: int, e: Edit): (r: seq<Chat>)
    ensures |r| == |chats|
    ensures forall i :: 0 <= i < |chats| ==>
      r[i] == if chats[i].id == id then Apply(e, chats[i]) else chats[i]
  {
    if chats == [] then []
    else [if chats[0].id == id then Apply(e, chats[0]) else chats[0]] + UpdateWhere(chats[1..], id, e)
  }

  /** `chats.map(c => c.id)`. */
  function Ids(chats: seq<Chat>): (ids: seq<int>)
    ensures |ids| == |chats|
    ensures forall i :: 0 <= i < |chats| ==> ids[i] == chats[i].id
  {
    if chats == [] then [] else [chats[0].id] + Ids(chats[1..])
  }

  /** No two chats share an id. */
  predicate DistinctIds(chats: seq<Chat>)
  {
    forall i, j :: 0 <= i < j < |chats| ==> chats[i].id != chats[j].id
  }

  /** `chats.filter(c => c.id !== id)`. */
  function RemoveChat(chats: seq<Chat>, id: int): (r: seq<Chat>)
    ensures |r| <= |chats|
    ensures forall c :: c in r <==> c in chats && c.id != id
  {
    if chats == [] then []
    else
      assert chats == [chats[0]] + chats[1..];
      (if chats[0].id == id then [] else [chats[0]]) + RemoveChat(chats[1..], id)
  }

  /** An edit keeps every id in place. */
  lemma UpdateWhereKeepsIds(chats: seq<Chat>, id: int, e: Edit)
    ensures Ids(UpdateWhere(chats, id, e)) == Ids(chats)
  {
  }

  /** An edit addressed to an id no chat has changes nothing. */
  lemma UpdateWhereUnknownId(chats: seq<Chat>, id: int, e: Edit)
    requires id !in Ids(chats)
    ensures UpdateWhere(chats, id, e) == chats
  {
  }

  /** The ids left after removal are exactly the old ids other than the removed one. */
  lemma RemoveChatIds(chats: seq<Chat>, id: int, x: int)
    ensures x in Ids(RemoveChat(chats, id)) <==> x in Ids(chats) && x != id
  {
  }

  /** Removing an id no chat has changes nothing. */
  lemma {:induction false} RemoveChatUnknownId(chats: seq<Chat>, id: int)
    requires id !in Ids(chats)
    ensures RemoveChat(chats, id) == chats
  {
    if chats != [] {
      assert Ids(chats)[0] == chats[0].id;
      assert forall k :: 0 <= k < |chats| - 1 ==> Ids(chats[1..])[k] == Ids(chats)[k + 1];
      RemoveChatUnknownId(chats[1..], id);
      assert chats == [chats[0]] + chats[1..];
    }
  }

  /** Removal keeps the survivors in their order: it distributes over concatenation. */
  lemma {:induction false} RemoveChatAppend(a: seq<Chat>, b: seq<Chat>, id: int)
    ensures RemoveChat(a + b, id) == RemoveChat(a, id) + RemoveChat(b, id)
  {
    if a == [] {
      assert a + b == b;
    } else {
      assert (a + b)[0] == a[0];
      assert (a + b)[1..] == a[1..] + b;
      RemoveChatAppend(a[1..], b, id);
    }
  }

  /** A chat whose id no later chat has can be put in front of a list with distinct ids. */
  lemma PrependKeepsDistinct(c: Chat, rest: seq<Chat>)
    requires DistinctIds(rest)
    requires forall d :: d in rest ==> d.id != c.id
    ensures DistinctIds([c] + rest)
  {
  }

  /** Removal keeps ids distinct. */
  lemma {:induction false} RemoveChatKeepsDistinct(chats: seq<Chat>, id: int)
    requires DistinctIds(chats)
    ensures DistinctIds(RemoveChat(chats, id))
  {
    if chats != [] {
      var tail := chats[1..];
      assert DistinctIds(tail) by {
        forall i, j | 0 <= i < j < |tail| ensures tail[i].id != tail[j].id {
          assert tail[i] == chats[i + 1] && tail[j] == chats[j + 1];
        }
      }
      RemoveChatKeepsDistinct(tail, id);
      var rest := RemoveChat(tail, id);
      if chats[0].id != id {
        forall d | d in rest ensures d.id != chats[0].id {
          assert d in tail;
          var k :| 0 <= k < |tail| && tail[k] == d;
          assert tail[k] == chats[k + 1];
        }
        PrependKeepsDistinct(chats[0], rest);
      }
    }
  }
}
