/**
 * The store object of lib/store.ts: three fields that every action overwrites.
 * Each method's new state is the matching updater of StoreActions applied to the
 * old state, and each keeps the invariant, for `StartNewChat` and `SetActiveChat`
 * only under the condition the store does not check (a fresh id, a listed id). `sendMessage` is split at its timer: SendMessageBegin is the
 * synchronous part and returns the chat id the timer callback closes over;
 * CompleteAiReply is the callback.
 */
module Store {
  import opened Wrappers
  import opened ChatModel
  import StoreActions

  class ChatStore {
    var chats: seq<Chat>
    var activeChatId: Option<int>
    var isLoading: bool

    function Snapshot(): StoreActions.State
      reads this
    {
      StoreActions.State(chats, activeChatId, isLoading)
    }

    ghost predicate Valid()
      reads this
    {
      StoreActions.Valid(Snapshot())
    }

    constructor ()
      ensures Snapshot() == StoreActions.Initial()
      ensures Valid() && !isLoading
    {
      chats := [EmptyChat(1)];
      activeChatId := Some(1);
      isLoading := false;
    }

    /** `newChatId` stands for the `Date.now()` the action reads. */
    method StartNewChat(newChatId: int)
      modifies this
      ensures Snapshot() == StoreActions.StartNewChat(old(Snapshot()), newChatId)
      ensures chats == [EmptyChat(newChatId)] + old(chats)
      ensures activeChatId == Some(newChatId) && isLoading == old(isLoading)
      ensures old(Valid()) && newChatId !in old(Ids(chats)) ==> Valid()
    {
      ghost var before := Snapshot();
      chats, activeChatId := [EmptyChat(newChatId)] + chats, Some(newChatId);
      StoreActions.StartNewChatValid(before, newChatId);
    }

    method SetActiveChat(chatId: int)
      modifies this
      ensures Snapshot() == StoreActions.SetActiveChat(old(Snapshot()), chatId)
      ensures chats == old(chats) && isLoading == old(isLoading) && activeChatId == Some(chatId)
      ensures old(Valid()) && chatId in old(Ids(chats)) ==> Valid()
    {
      activeChatId := Some(chatId);
    }

    /** The synchronous half of `sendMessage(text)`; `now` is the user message's id.
        Returns the chat the reply must go to, or None when nothing was sent. */
    method SendMessageBegin(text: string, now: int) returns (pending: Option<int>)
      modifies this
      ensures pending == StoreActions.CapturedChat(old(Snapshot()))
      ensures pending.Some? <==> StoreActions.HasActiveChat(old(activeChatId))
      ensures pending.Some? ==> pending == old(activeChatId)
      ensures Snapshot() == StoreActions.SendMessage(old(Snapshot()), text, now)
      ensures pending.None? ==> Snapshot() == old(Snapshot())
      ensures old(Valid()) ==> Valid()
    {
      ghost var before := Snapshot();
      if !StoreActions.HasActiveChat(activeChatId) {
        return None;
      }
      pending := activeChatId;
      isLoading := true;
      chats := UpdateWhere(chats, pending.value, AddUserMessage(text, now));
      if StoreActions.Valid(before) {
        StoreActions.UpdateKeepsValid(before, pending.value, AddUserMessage(text, now), true);
      }
    }

    /** The timer callback of `sendMessage`, for the chat SendMessageBegin returned;
        `now` is the timestamp it reads. */
    method CompleteAiReply(chatId: int, now: int)
      modifies this
      ensures Snapshot() == StoreActions.CompleteAiReply(old(Snapshot()), chatId, now)
      ensures !isLoading && activeChatId == old(activeChatId)
      ensures old(Valid()) ==> Valid()
    {
      ghost var before := Snapshot();
      isLoading := false;
      chats := UpdateWhere(chats, chatId, AddMessage(StoreActions.AiReply(now)));
      if StoreActions.Valid(before) {
        StoreActions.UpdateKeepsValid(before, chatId, AddMessage(StoreActions.AiReply(now)), false);
      }
    }

    method AttachDocument(chatId: int, documentName: string)
      modifies this
      ensures Snapshot() == StoreActions.AttachDocument(old(Snapshot()), chatId, documentName)
      ensures activeChatId == old(activeChatId) && isLoading == old(isLoading)
      ensures old(Valid()) ==> Valid()
    {
      ghost var before := Snapshot();
      chats := UpdateWhere(chats, chatId, SetDocument(documentName));
      if StoreActions.Valid(before) {
        StoreActions.UpdateKeepsValid(before, chatId, SetDocument(documentName), isLoading);
      }
    }

    method RenameChat(chatId: int, newTitle: string)
      modifies this
      ensures Snapshot() == StoreActions.RenameChat(old(Snapshot()), chatId, newTitle)
      ensures activeChatId == old(activeChatId) && isLoading == old(isLoading)
      ensures old(Valid()) ==> Valid()
    {
      ghost var before := Snapshot();
      chats := UpdateWhere(chats, chatId, SetTitle(newTitle));
      if StoreActions.Valid(before) {
        StoreActions.UpdateKeepsValid(before, chatId, SetTitle(newTitle), isLoading);
      }
    }

    method DeleteChat(chatId: int)
      modifies this
      ensures Snapshot() == StoreActions.DeleteChat(old(Snapshot()), chatId)
      ensures chats == RemoveChat(old(chats), chatId) && isLoading == old(isLoading)
      ensures old(Valid()) ==> Valid()
    {
      ghost var before := Snapshot();
      var remainingChats := RemoveChat(chats, chatId);
      var newActiveChatId := activeChatId;
      if activeChatId == Some(chatId) {
        newActiveChatId := if |remainingChats| > 0 then Some(remainingChats[0].id) else None;
      }
      chats, activeChatId := remainingChats, newActiveChatId;
      if StoreActions.Valid(before) {
        StoreActions.DeleteChatValid(before, chatId);
      }
    }
  }
}
