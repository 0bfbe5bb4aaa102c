/**
 * The store's state and its actions as pure updaters: each function is the
 * value an action hands to Zustand's `set`, applied to the whole state.
 */
module StoreActions {
  import opened Wrappers
  import opened ChatModel

  datatype State = State(chats: seq<Chat>, activeChatId: Option<int>, isLoading: bool)

  /** JavaScript truthiness of `activeChatId`: null and 0 are both falsy. */
  predicate HasActiveChat(active: Option<int>)
  {
    active.Some? && active.value != 0
  }

  /** Chat ids are distinct, and `activeChatId` is null or names a chat. */
  predicate Valid(s: State)
  {
    DistinctIds(s.chats) && (s.activeChatId.Some? ==> s.activeChatId.value in Ids(s.chats))
  }

  /** One empty "New Chat" with id 1, active, nothing loading. */
  function Initial(): (s: State)
    ensures Valid(s) && !s.isLoading
    ensures HasActiveChat(s.activeChatId) && Ids(s.chats) == [s.activeChatId.value]
    ensures s.activeChatId == Some(1) && |s.chats| == 1
    ensures s.chats[0].title == DefaultTitle && s.chats[0].messages == [] && s.chats[0].documentName == None
  {
    State([EmptyChat(1)], Some(1), false)
  }

  /** `startNewChat`, with the timestamp it reads passed in as `newChatId`. */
  function StartNewChat(s: State, newChatId: int): (r: State)
  {
    s.(chats := [EmptyChat(newChatId)] + s.chats, activeChatId := Some(newChatId))
  }

  /** `setActiveChat`: no check that the id exists. */
  function SetActiveChat(s: State, chatId: int): (r: State)
  {
    s.(activeChatId := Some(chatId))
  }

  /** The chat id `sendMessage` reads before acting, or None when it returns early. */
  function CapturedChat(s: State): Option<int>
  {
    if HasActiveChat(s.activeChatId) then s.activeChatId else None
  }

  /** The optimistic step of `sendMessage(text)`; `now` is the user message's id. */
  function SendMessage(s: State, text: string, now: int): (r: State)
    ensures !HasActiveChat(s.activeChatId) ==> r == s
    ensures HasActiveChat(s.activeChatId) ==> r.isLoading && r.activeChatId == s.activeChatId
  {
    match CapturedChat(s)
    case None => s
    case Some(id) => State(UpdateWhere(s.chats, id, AddUserMessage(text, now)), s.activeChatId, true)
  }

  /** The canned answer; its id is one more than the timestamp read when the timer fires. */
  function AiReply(now: int): (m: Message)
  {
    Message(now + 1, SimulatedReply, Ai)
  }

  /** The delayed step of `sendMessage`, addressed to the chat captured at send time. */
  function CompleteAiReply(s: State, chatId: int, now: int): (r: State)
  {
    s.(chats := UpdateWhere(s.chats, chatId, AddMessage(AiReply(now))), isLoading := false)
  }

  /** `attachDocument(chatId, name)`. */
  function AttachDocument(s: State, chatId: int, name: string): (r: State)
  {
    s.(chats := UpdateWhere(s.chats, chatId, SetDocument(name)))
  }

  /** `renameChat(chatId, newTitle)`. */
  function RenameChat(s: State, chatId: int, newTitle: string): (r: State)
  {
    s.(chats := UpdateWhere(s.chats, chatId, SetTitle(newTitle)))
  }

  /** The active chat after `deleted` is removed and `remaining` is what is left. */
  function NextActive(active: Option<int>, remaining: seq<Chat>, deleted: int): (next: Option<int>)
  {
    if active == Some(deleted) then
      if |remaining| > 0 then Some(remaining[0].id) else None
    else active
  }

  /** `deleteChat(chatId)`. */
  function DeleteChat(s: State, chatId: int): (r: State)
  {
    var remaining := RemoveChat(s.chats, chatId);
    s.(chats := remaining, activeChatId := NextActive(s.activeChatId, remaining, chatId))
  }

  // ---------------------------------------------------------------- startNewChat

  /** The new chat is first and active, the old chats follow in order, and a valid
      store stays valid exactly when the new id is fresh. */
  lemma StartNewChatValid(s: State, newChatId: int)
    ensures var r := StartNewChat(s, newChatId);
      r.chats[0] == EmptyChat(newChatId) && r.chats[1..] == s.chats &&
      r.activeChatId == Some(newChatId) && r.isLoading == s.isLoading &&
      (Valid(s) ==> (Valid(r) <==> newChatId !in Ids(s.chats)))
  {
  }

  // ---------------------------------------------------------------- setActiveChat

  /** Selecting a chat keeps the store valid exactly when the id names a chat. */
  lemma SetActiveChatValid(s: State, chatId: int)
    requires Valid(s)
    ensures Valid(SetActiveChat(s, chatId)) <==> chatId in Ids(s.chats)
  {
  }

  // ---------------------------------------------------------------- sendMessage

  /** With an active chat, the optimistic step appends one user message to that chat,
      sets its title only when it had no messages, raises `isLoading`, and leaves
      every other chat and the selection unchanged. */
  lemma SendMessageEffect(s: State, text: string, now: int)
    requires HasActiveChat(s.activeChatId)
    ensures var r := SendMessage(s, text, now);
      var id := s.activeChatId.value;
      r.isLoading && r.activeChatId == s.activeChatId && |r.chats| == |s.chats| &&
      (forall i :: 0 <= i < |s.chats| && s.chats[i].id == id ==>
        r.chats[i].id == id &&
        r.chats[i].messages == s.chats[i].messages + [Message(now, text, User)] &&
        r.chats[i].title == (if |s.chats[i].messages| == 0 then text else s.chats[i].title) &&
        r.chats[i].documentName == s.chats[i].documentName) &&
      (forall i :: 0 <= i < |s.chats| && s.chats[i].id != id ==> r.chats[i] == s.chats[i])
  {
  }

  /** The title changes only on a chat that had no messages, and then becomes the text. */
  lemma SendMessageTitle(s: State, text: string, now: int, i: int)
    requires 0 <= i < |s.chats|
    ensures var r := SendMessage(s, text, now);
      |r.chats| == |s.chats| &&
      (r.chats[i].title != s.chats[i].title ==> |s.chats[i].messages| == 0 && r.chats[i].title == text)
  {
  }

  /** A second message never changes the title the first one set. */
  lemma SecondMessageKeepsTitle(s: State, first: string, second: string, n1: int, n2: int)
    requires HasActiveChat(s.activeChatId)
    ensures var s1 := SendMessage(s, first, n1);
      var s2 := SendMessage(s1, second, n2);
      |s2.chats| == |s.chats| &&
      forall i :: 0 <= i < |s.chats| && s.chats[i].id == s.activeChatId.value ==>
        s2.chats[i].title == s1.chats[i].title &&
        s2.chats[i].title == (if |s.chats[i].messages| == 0 then first else s.chats[i].title)
  {
  }

  /** Completion appends exactly one AI message to every chat with the captured id,
      clears `isLoading`, and changes no other chat and not the selection. */
  lemma CompleteAiReplyEffect(s: State, chatId: int, now: int)
    ensures var r := CompleteAiReply(s, chatId, now);
      !r.isLoading && r.activeChatId == s.activeChatId && |r.chats| == |s.chats| &&
      (forall i :: 0 <= i < |s.chats| && s.chats[i].id == chatId ==>
        r.chats[i] == s.chats[i].(messages := s.chats[i].messages + [AiReply(now)])) &&
      (forall i :: 0 <= i < |s.chats| && s.chats[i].id != chatId ==> r.chats[i] == s.chats[i])
  {
  }

  /** The reply lands in the chat that was active at send time even if another chat
      was selected meanwhile: that chat ends with the user message followed by the
      reply, the other chats are untouched, and the new selection stays. */
  lemma ReplyFollowsCapturedChat(s: State, text: string, now: int, other: int, later: int)
    requires HasActiveChat(s.activeChatId)
    ensures var id := CapturedChat(s).value;
      var r := CompleteAiReply(SetActiveChat(SendMessage(s, text, now), other), id, later);
      !r.isLoading && r.activeChatId == Some(other) && |r.chats| == |s.chats| &&
      (forall i :: 0 <= i < |s.chats| && s.chats[i].id == id ==>
        r.chats[i].messages == s.chats[i].messages + [Message(now, text, User), AiReply(later)]) &&
      (forall i :: 0 <= i < |s.chats| && s.chats[i].id != id ==> r.chats[i] == s.chats[i])
  {
  }

  /** A reply whose chat was deleted before it arrived changes no chat. */
  lemma ReplyAfterDeleteChangesNoChat(s: State, chatId: int, now: int)
    ensures var d := DeleteChat(s, chatId);
      var r := CompleteAiReply(d, chatId, now);
      r.chats == d.chats && !r.isLoading && r.activeChatId == d.activeChatId
  {
  }

  // ---------------------------------------------------------------- attachDocument, renameChat

  /** Attaching sets `documentName` on the chats with that id and nothing else;
      for an unknown id the chat list is unchanged. */
  lemma AttachDocumentEffect(s: State, chatId: int, name: string)
    ensures var r := AttachDocument(s, chatId, name);
      r.activeChatId == s.activeChatId && r.isLoading == s.isLoading && |r.chats| == |s.chats| &&
      (forall i :: 0 <= i < |s.chats| ==>
        r.chats[i].id == s.chats[i].id && r.chats[i].title == s.chats[i].title &&
        r.chats[i].messages == s.chats[i].messages &&
        r.chats[i].documentName == (if s.chats[i].id == chatId then Some(name) else s.chats[i].documentName)) &&
      (chatId !in Ids(s.chats) ==> r.chats == s.chats)
  {
  }

  /** Renaming sets `title` on the chats with that id and nothing else;
      for an unknown id the chat list is unchanged. */
  lemma RenameChatEffect(s: State, chatId: int, newTitle: string)
    ensures var r := RenameChat(s, chatId, newTitle);
      r.activeChatId == s.activeChatId && r.isLoading == s.isLoading && |r.chats| == |s.chats| &&
      (forall i :: 0 <= i < |s.chats| ==>
        r.chats[i].id == s.chats[i].id && r.chats[i].documentName == s.chats[i].documentName &&
        r.chats[i].messages == s.chats[i].messages &&
        r.chats[i].title == (if s.chats[i].id == chatId then newTitle else s.chats[i].title)) &&
      (chatId !in Ids(s.chats) ==> r.chats == s.chats)
  {
  }

  /** Every edit-shaped action (both steps of sendMessage, attachDocument, renameChat)
      keeps the store valid, because it keeps every id in place. */
  lemma UpdateKeepsValid(s: State, chatId: int, e: Edit, isLoading: bool)
    requires Valid(s)
    ensures Valid(State(UpdateWhere(s.chats, chatId, e), s.activeChatId, isLoading))
  {
  }

  // ---------------------------------------------------------------- deleteChat

  /** Deleting keeps the store valid: the survivors keep distinct ids, and a deleted
      active chat is replaced by the first survivor or by null. */
  lemma DeleteChatValid(s: State, chatId: int)
    requires Valid(s)
    ensures var r := DeleteChat(s, chatId);
      Valid(r) &&
      (s.activeChatId == Some(chatId) && r.chats != [] ==> r.activeChatId == Some(r.chats[0].id)) &&
      (s.activeChatId == Some(chatId) && r.chats == [] ==> r.activeChatId == None)
  {
    var r := DeleteChat(s, chatId);
    RemoveChatKeepsDistinct(s.chats, chatId);
    if r.activeChatId.Some? {
      if s.activeChatId == Some(chatId) {
        assert Ids(r.chats)[0] == r.activeChatId.value;
      } else {
        RemoveChatIds(s.chats, chatId, s.activeChatId.value);
      }
    }
  }

  /** Deleting removes every chat with the id and keeps the other chats. A deleted
      active chat is replaced by the first remaining chat, or by null when none remain;
      any other selection is left alone. An unknown id leaves the chats
      alone, and the whole state too when the selection names an existing chat (a
      dangling selection equal to the id is still moved to the first chat). */
  lemma DeleteChatEffect(s: State, chatId: int)
    ensures var r := DeleteChat(s, chatId);
      chatId !in Ids(r.chats) && r.isLoading == s.isLoading &&
      (forall c :: c in s.chats && c.id != chatId ==> c in r.chats) &&
      (s.activeChatId != Some(chatId) ==> r.activeChatId == s.activeChatId) &&
      (s.activeChatId == Some(chatId) && r.chats != [] ==> r.activeChatId == Some(r.chats[0].id)) &&
      (s.activeChatId == Some(chatId) && r.chats == [] ==> r.activeChatId == None) &&
      (chatId !in Ids(s.chats) ==> r.chats == s.chats) &&
      (chatId !in Ids(s.chats) && Valid(s) ==> r == s)
  {
    var r := DeleteChat(s, chatId);
    RemoveChatIds(s.chats, chatId, chatId);
    if chatId !in Ids(s.chats) {
      RemoveChatUnknownId(s.chats, chatId);
      assert r.chats == s.chats;
    }
  }

  /** With distinct ids, the first chat's id does not occur further on. */
  lemma HeadIdNotInTail(chats: seq<Chat>)
    requires DistinctIds(chats) && chats != []
    ensures chats[0].id !in Ids(chats[1..])
  {
  }

  /** Deleting the active chat at the head of the list selects the chat after it. */
  lemma DeleteActiveHeadSelectsNext(s: State)
    requires Valid(s) && |s.chats| >= 2 && s.activeChatId == Some(s.chats[0].id)
    ensures var r := DeleteChat(s, s.chats[0].id);
      r.chats == s.chats[1..] && r.activeChatId == Some(s.chats[1].id)
  {
    var x := s.chats[0].id;
    HeadIdNotInTail(s.chats);
    RemoveChatUnknownId(s.chats[1..], x);
    assert RemoveChat(s.chats, x) == RemoveChat(s.chats[1..], x);
  }

  // ---------------------------------------------------------------- any sequence of actions

  /** One call into the store: the actions, with `sendMessage` split at its timer. */
  datatype Action =
    | StartNew(newChatId: int)
    | Select(chatId: int)
    | Send(text: string, now: int)
    | Reply(replyChatId: int, replyNow: int)
    | Attach(attachChatId: int, name: string)
    | Rename(renameChatId: int, newTitle: string)
    | Delete(deleteChatId: int)

  function Step(s: State, a: Action): (r: State)
  {
    match a
    case StartNew(id) => StartNewChat(s, id)
    case Select(id) => SetActiveChat(s, id)
    case Send(text, now) => SendMessage(s, text, now)
    case Reply(id, now) => CompleteAiReply(s, id, now)
    case Attach(id, name) => AttachDocument(s, id, name)
    case Rename(id, t) => RenameChat(s, id, t)
    case Delete(id) => DeleteChat(s, id)
  }

  /** The two conditions the store does not check: a fresh new-chat id, which
      `Date.now()` does not guarantee, and a listed id for selection, which the
      sidebar meets (components/chatbot/Sidebar.tsx:64-78). */
  predicate MeetsUncheckedConditions(s: State, a: Action)
  {
    match a
    case StartNew(id) => id !in Ids(s.chats)
    case Select(id) => id in Ids(s.chats)
    case _ => true
  }

  function Run(s: State, actions: seq<Action>): (r: State)
    decreases |actions|
  {
    if actions == [] then s else Run(Step(s, actions[0]), actions[1..])
  }

  predicate RunMeetsConditions(s: State, actions: seq<Action>)
    decreases |actions|
  {
    actions == [] ||
    (MeetsUncheckedConditions(s, actions[0]) && RunMeetsConditions(Step(s, actions[0]), actions[1..]))
  }

  /** One step from a valid state, under the two unchecked conditions, is valid. */
  lemma StepKeepsValid(s: State, a: Action)
    requires Valid(s) && MeetsUncheckedConditions(s, a)
    ensures Valid(Step(s, a))
  {
    match a
    case StartNew(id) => StartNewChatValid(s, id);
    case Select(id) =>
    case Send(text, now) =>
      if HasActiveChat(s.activeChatId) {
        UpdateKeepsValid(s, s.activeChatId.value, AddUserMessage(text, now), true);
      }
    case Reply(id, now) => UpdateKeepsValid(s, id, AddMessage(AiReply(now)), false);
    case Attach(id, name) => UpdateKeepsValid(s, id, SetDocument(name), s.isLoading);
    case Rename(id, t) => UpdateKeepsValid(s, id, SetTitle(t), s.isLoading);
    case Delete(id) => DeleteChatValid(s, id);
  }

  /** From a valid state (the initial one is), every sequence of actions whose calls
      meet the two unchecked conditions keeps chat ids distinct and `activeChatId`
      null or naming a chat. */
  lemma {:induction false} RunKeepsValid(s: State, actions: seq<Action>)
    requires Valid(s) && RunMeetsConditions(s, actions)
    ensures Valid(Run(s, actions))
    decreases |actions|
  {
    if actions != [] {
      StepKeepsValid(s, actions[0]);
      RunKeepsValid(Step(s, actions[0]), actions[1..]);
    }
  }
}
