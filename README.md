# Conversation store of the chat application, in Dafny

The application keeps all conversation state in one Zustand store (`lib/store.ts`):
a list of chats, each with a title, an ordered list of messages from `user` or `ai`
and an optional attached document name; the id of the active chat (or null); and
an `isLoading` flag raised while a simulated AI reply is pending. Six actions
replace these fields: `startNewChat`, `setActiveChat`, `sendMessage` (an optimistic
step, then a reply delivered by a 1500 ms timer), `attachDocument`, `renameChat`
and `deleteChat`.

The model has four files:

- `wrappers.dfy` — `Option`, for `T | null` and the optional `documentName`.
- `chat_model.dfy` (module `ChatModel`) — the `Message` and `Chat` records; `Edit`,
  the per-chat callbacks the actions pass to `chats.map`; `UpdateWhere`, the
  `map` that edits the chats with a given id; `RemoveChat`, the `filter` of
  `deleteChat`; and lemmas about both.
- `store_actions.dfy` (module `StoreActions`) — the store state as a value and one
  pure updater per action (the function each action hands to `set`), the store
  invariant `Valid` (chat ids are distinct; `activeChatId` is null or names a chat),
  and the lemmas that state what each action does and when it keeps `Valid`.
- `store.dfy` (module `Store`) — class `ChatStore` with the three mutable fields.
  Every method's postcondition gives the whole new state as the matching updater
  applied to the old state, and says the invariant is kept. For `StartNewChat` and
  `SetActiveChat` this holds only under a condition the store does not check: a
  fresh id, and an id that names a chat. `sendMessage` is split at its timer into
  `SendMessageBegin`, which returns the chat id the timer callback closes over, and
  `CompleteAiReply(chatId, now)`, the callback itself.

Timestamps (`Date.now()`) become `int` parameters: the new chat id, the user
message id `now`, and the reply id `now + 1`, as in the source.

Points where the code behaves in a way worth knowing, all modelled as written:

- `sendMessage` tests `!activeChatId`, so an active chat with id 0 counts as no
  active chat (`StoreActions.HasActiveChat`).
- `setActiveChat` does not check that the id exists, so it keeps `Valid` exactly
  when the id names a chat (`SetActiveChatValid`). `startNewChat` keeps ids distinct
  exactly when the timestamp is fresh (`StartNewChatValid`); the code does not
  ensure that.
- The sidebar selects only ids it lists (components/chatbot/Sidebar.tsx:64-78).
  Nothing guarantees fresh new-chat ids: `startNewChat` reads `Date.now()`, so two
  calls in the same millisecond, or a clock set back, can repeat an existing id.
  `RunKeepsValid` proves that every sequence of actions keeps the store valid
  under both conditions, and so assumes fresh timestamps.
- `deleteChat` compares the deleted id with `activeChatId` without checking that a
  chat had that id. A dangling selection equal to an unknown deleted id is
  therefore moved to the first chat. With a valid state, deleting an unknown id
  changes nothing (`DeleteChatEffect`).
- The reply goes to the chat captured at send time, even after the user selects
  another chat (`ReplyFollowsCapturedChat`). If that chat was deleted meanwhile, no
  chat changes (`ReplyAfterDeleteChangesNoChat`). In both cases the reply clears
  `isLoading`, even when a second send is still pending.
- components/chatbot/ChatMessages.tsx:12 reads `isMessagesLoading`, but the store
  never defines it. The store has no fetch or backend code; its only AI reply is
  the canned text set by the timer.

## Model

| member | source | states |
|---|---|---|
| `ChatModel.Apply` | lib/store.ts:59-98 | Covers the four per-chat callbacks: lines 59-65, 82, 91 and 98. An action's per-chat callback never changes the chat's id. It only appends to the messages, at most one at a time. |
| `ChatModel.UpdateWhere` | lib/store.ts:58-99 | Covers the `map` at lines 58-68, 80-84, 90-92 and 97-99. It keeps the length. Chat i is edited exactly when its id matches, and every other chat is returned unchanged. |
| `ChatModel.UpdateWhereKeepsIds` | lib/store.ts:58-68 | Editing chats through the `map` leaves the list of ids unchanged. |
| `ChatModel.UpdateWhereUnknownId` | lib/store.ts:97-99 | An edit addressed to an id that no chat has leaves the list unchanged. |
| `ChatModel.RemoveChat` | lib/store.ts:105 | A chat survives the `filter` exactly when it was in the list and its id differs from the deleted id. The list does not grow. |
| `ChatModel.RemoveChatIds` | lib/store.ts:105 | The ids after removal are exactly the old ids minus the deleted one. |
| `ChatModel.RemoveChatUnknownId` | lib/store.ts:105 | Removing an id that no chat has leaves the list unchanged. |
| `ChatModel.RemoveChatAppend` | lib/store.ts:105 | Removal distributes over concatenation, so survivors keep their relative order. |
| `ChatModel.PrependKeepsDistinct` | lib/store.ts:43 | Putting a chat in front keeps ids distinct when no listed chat has its id. |
| `ChatModel.RemoveChatKeepsDistinct` | lib/store.ts:105 | Removal keeps chat ids pairwise distinct. |
| `StoreActions.Initial` | lib/store.ts:31-33 | The initial state is valid and not loading. Its only chat has id 1, the title "New Chat", no messages and no document, and it is the active chat. |
| `StoreActions.SendMessage` | lib/store.ts:50-69 | With no truthy active chat (null or 0), `sendMessage` leaves the whole state unchanged. Otherwise it raises `isLoading` and keeps the selection. |
| `StoreActions.StartNewChatValid` | lib/store.ts:35-45 | The new "New Chat" is first and active. The old chats follow in order, and `isLoading` is unchanged. A valid store stays valid exactly when the new id is fresh. |
| `StoreActions.SetActiveChatValid` | lib/store.ts:47-49 | From a valid state, selecting an id keeps the store valid exactly when a chat has that id. |
| `StoreActions.SendMessageEffect` | lib/store.ts:54-69 | The optimistic step appends exactly one `user` message with the text to the active chat. It sets the title only if the chat had no messages, raises `isLoading`, and leaves the other chats and the selection unchanged. |
| `StoreActions.SendMessageTitle` | lib/store.ts:60 | A send changes a chat's title only if that chat had no messages, and the new title is the sent text. |
| `StoreActions.SecondMessageKeepsTitle` | lib/store.ts:58-66 | After two sends to the same chat, the title is the first text if the chat started empty, and is unchanged otherwise. The second send never changes it. |
| `StoreActions.CompleteAiReplyEffect` | lib/store.ts:72-85 | The reply appends exactly one `ai` message (id `now + 1`, the canned text) to the chats with the captured id. It clears `isLoading` and changes no other chat and not the selection. |
| `StoreActions.ReplyFollowsCapturedChat` | lib/store.ts:51-85 | The user selects another chat between send and reply. The chat active at send time still ends with the user message followed by the reply, the other chats are unchanged, the new selection stays, and `isLoading` is false. |
| `StoreActions.ReplyAfterDeleteChangesNoChat` | lib/store.ts:78-85 | If the captured chat was deleted before the reply, the reply changes no chat and only clears `isLoading`. |
| `StoreActions.AttachDocumentEffect` | lib/store.ts:88-94 | Only `documentName` changes, and only on chats with the id. Ids, titles and messages are unchanged, and an unknown id leaves the chats unchanged. |
| `StoreActions.RenameChatEffect` | lib/store.ts:95-101 | Only `title` changes, and only on chats with the id. Ids, documents and messages are unchanged, and an unknown id leaves the chats unchanged. |
| `StoreActions.UpdateKeepsValid` | lib/store.ts:56-100 | Each `map`-based action (both steps of `sendMessage`, `attachDocument`, `renameChat`) keeps the store valid. |
| `StoreActions.DeleteChatValid` | lib/store.ts:103-113 | From a valid state, deleting keeps the store valid. A deleted active chat is replaced by the first remaining chat, or by null when none remain. |
| `StoreActions.DeleteChatEffect` | lib/store.ts:103-113 | No chat with the id remains, every other chat does, and `isLoading` is unchanged. If the deleted id was selected, the first remaining chat becomes active, or null when none remain. Otherwise the selection is unchanged. An unknown id leaves the chats unchanged, and the whole state unchanged when the state is valid. |
| `StoreActions.DeleteActiveHeadSelectsNext` | lib/store.ts:106-111 | Deleting the active first chat of a valid list with at least two chats leaves the tail and selects its first chat. |
| `StoreActions.StepKeepsValid` | lib/store.ts:35-113 | One action from a valid state keeps the store valid. This requires a fresh id for `startNewChat` and a listed id for `setActiveChat`, neither of which the store checks. |
| `StoreActions.RunKeepsValid` | lib/store.ts:34-114 | Every sequence of actions keeps chat ids distinct and `activeChatId` null or naming a chat, when each call meets the two conditions the store does not check: a fresh new-chat id and a listed selected id. |
| `Store.ChatStore.constructor` | lib/store.ts:30-33 | The store starts in the initial state, which is valid. |
| `Store.ChatStore.StartNewChat` | lib/store.ts:35-46 | The new state is `startNewChat`'s updater applied to the old one. The new chat is in front and selected, `isLoading` is kept, and validity is kept for a fresh id. |
| `Store.ChatStore.SetActiveChat` | lib/store.ts:47-49 | Only `activeChatId` changes, with no existence check. Validity is kept when the id names a chat. |
| `Store.ChatStore.SendMessageBegin` | lib/store.ts:50-70 | Returns the active chat id exactly when it is truthy, and None otherwise, in which case nothing changes. Applies the optimistic step and keeps validity. |
| `Store.ChatStore.CompleteAiReply` | lib/store.ts:71-86 | Applies the timer callback for the given chat id, clears `isLoading`, keeps the selection, and keeps validity. |
| `Store.ChatStore.AttachDocument` | lib/store.ts:88-94 | Applies `attachDocument`'s updater. The selection and `isLoading` are kept, and so is validity. |
| `Store.ChatStore.RenameChat` | lib/store.ts:95-101 | Applies `renameChat`'s updater. The selection and `isLoading` are kept, and so is validity. |
| `Store.ChatStore.DeleteChat` | lib/store.ts:103-114 | The chats become the filtered list, with the selection repaired as `deleteChat` does. `isLoading` is kept, and so is validity. |

## Left out

- React components (sidebar, message list, input form, page) and their local UI state: presentation only.
- Zustand plumbing (`create`, `set`, `get`, subscriptions): each `set` is modelled as one atomic assignment of the fields it returns.
- The clock and the 1500 ms timer: timestamps are parameters, and the timer's firing is the explicit call `CompleteAiReply`.
- Caller-side guards: the input form sends only non-blank text while not loading, and the sidebar renames only with a trimmed non-empty title. The store does not check these, so no method requires them.
- The sidebar's display-title helper: presentation logic, not store state.
- `isMessagesLoading`, read by components/chatbot/ChatMessages.tsx:12: the store never defines it, so there is nothing to model.
- JavaScript numbers are unbounded `int`s here. Timestamps stay far below 2^53, and NaN cannot arise from the store's ids, so truthiness reduces to "not null and not 0".
