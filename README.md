# chatMBM core, modelled in Dafny

chatMBM is a browser chat client for the OpenRouter API. This project models
its core. The store is a pure reducer (`appReducer`) over the app state. The
services module frames a streamed completion, filters the free-model catalogue,
picks out the first choice and chooses error messages. The service hook merges
the vision model into the catalogue, picks a default model and formats outgoing
messages. The two chat handlers are modelled as the ordered logs of store
actions they dispatch, and those logs are composed with the reducer.

Modules, one per source file:

- `Types` (`types.dfy`): the records of `src/types/index.ts`, plus `Option`,
  `Result` and JavaScript truthiness of an optional string.
- `Text` (`text.dfy`): the JavaScript string built-ins the core uses, written
  out. These are `String(n)` for the clock readings and statuses it renders (with its read-back),
  `split` on one character (with `join` as its inverse), `startsWith`, and
  `trim` over the ECMAScript white-space set.
- `AppContext` (`app_context.dfy`): `initialState`, the 11 actions,
  `appReducer` as `Reduce`, dispatching a log as `ApplyAll`, and the lockstep
  invariant between `currentSession` and `sessions`.
- `OpenRouter` (`openrouter.dfy`): `makeRequest`'s outcome and error text,
  `getModels`, `sendMessage`, and `sendMessageStream` as an imperative read
  loop proved against a line-framing specification.
- `UseOpenRouter` (`use_openrouter.dfy`): `fetchModels` and `sendMessage` of
  the hook, as methods returning their action logs.
- `ChatInterface` (`chat_interface.dfy`): `handleSendMessage` and
  `handleKeyPress`.
- `NewChatButton` (`new_chat_button.dfy`): `handleNewChat`.

Every `new Date()` and `Date.now()` is a parameter of type `Instant` (a count
of milliseconds). An HTTP response is a value: its `ok` flag, its status, the
server's `error.message` if any, and its parsed body. A streamed body is the
sequence of already-decoded text pieces the reader delivers, plus flags for a
missing body and a failing reader. Extracting `choices[0].delta.content` from
one `data: ` payload by `JSON.parse` is the parameter
`delta: string -> Option<string>`; `None` stands for a parse failure or a
missing field.

DELETE_MESSAGE filters out every message with the id
(src/context/AppContext.tsx:78, 86), not only the first.

## Model

| member | source | states |
|---|---|---|
| Text.NatToString | src/components/Chat/NewChatButton.tsx:16 | `String(n)` for the ids (below 10^21, where JavaScript prints plain digits) is a non-empty string of decimal digits with no leading zero |
| Text.DecimalRoundTrip | src/components/Chat/NewChatButton.tsx:16 | reading the decimal numeral of `n` back gives `n` |
| Text.NatToStringInjective | src/components/Chat/ChatInterface.tsx:23 | distinct clock readings give distinct id strings |
| Text.Split | src/services/openrouter.ts:157 | `split('\n')` yields at least one piece and no piece contains the separator |
| Text.JoinSplit | src/services/openrouter.ts:157 | joining the pieces of a split with the separator gives the string back |
| Text.SplitJoin | src/services/openrouter.ts:157 | splitting the join of separator-free pieces gives the pieces back |
| Text.SplitOfPlain | src/services/openrouter.ts:157 | a string without the separator splits into itself alone |
| Text.SplitAppend | src/services/openrouter.ts:156-158 | splitting `x + p` keeps every complete piece of `x` and re-splits only its last piece with `p` appended |
| Text.TrimStart | src/components/Chat/ChatInterface.tsx:24 | the result is a suffix, does not start with white space, and all that was cut is white space |
| Text.TrimEnd | src/components/Chat/ChatInterface.tsx:24 | the result is a prefix, does not end with white space, and all that was cut is white space |
| Text.Trim | src/components/Chat/ChatInterface.tsx:20-24 | `trim()`: no contract of its own; see TrimStart, TrimEnd, TrimIsCore and TrimEmptyIff |
| Text.TrimIsCore | src/components/Chat/ChatInterface.tsx:24 | `trim()` yields a slice of the input with white space only on either side of it and none at its ends |
| Text.TrimEmptyIff | src/components/Chat/ChatInterface.tsx:20 | `trim()` is empty exactly when every character is white space |
| AppContext.InitialState | src/context/AppContext.tsx:21-28 | no current session, no sessions, no models, empty selection, not loading, no error; the invariant holds |
| AppContext.ApplyEdit | src/context/AppContext.tsx:55-59 | editing a session keeps its id, model and creation time, stamps `updatedAt`, and changes only the edited field |
| AppContext.WithoutMessage | src/context/AppContext.tsx:78 | the filter keeps exactly the messages with another id, never adds one, and no message with the id survives |
| AppContext.WithoutMessageConcat | src/context/AppContext.tsx:78 | filtering distributes over concatenation |
| AppContext.WithoutMessageFresh | src/context/AppContext.tsx:78 | filtering out an id no message has changes nothing |
| AppContext.AppendThenRemove | src/context/AppContext.tsx:57-78 | appending a message with a fresh id, then filtering that id out, gives the original sequence |
| AppContext.UpdateMatching | src/context/AppContext.tsx:53-61 | the `map` edits exactly the sessions with the id, in place, and keeps the length |
| AppContext.WithoutSession | src/context/AppContext.tsx:102 | the filter keeps exactly the sessions with another id and adds none |
| AppContext.WithoutSessionConcat | src/context/AppContext.tsx:102 | filtering sessions distributes over concatenation |
| AppContext.Lookup | src/context/AppContext.tsx:50-117 | the first session in the list with the id (every earlier one has another id), or none exactly when no session has it |
| AppContext.LookupUpdateMatching | src/context/AppContext.tsx:53-68 | after an edit by id, looking the id up finds the edited first match; other lookups are unchanged |
| AppContext.LookupWithoutSession | src/context/AppContext.tsx:102 | after deleting an id no lookup of it succeeds; every other lookup is unchanged |
| AppContext.ApplyAllConcat | src/context/AppContext.tsx:30-122 | dispatching two logs in turn is dispatching their concatenation |
| AppContext.Reduce | src/context/AppContext.tsx:30-122 | `appReducer`: no contract of its own; see SettersChangeOneField, SessionActionsKeepSettings, AddMessageEffect, DeleteMessageEffect, CreateSessionEffect, DeleteSessionEffect, UpdateTitleEffect, ReducePreservesLockstep and AddThenDeleteRestores |
| AppContext.ApplyEditSameContent | src/context/AppContext.tsx:62-68 | editing two copies of a session that differ only in `updatedAt` gives the same session |
| AppContext.ReducePreservesLockstep | src/context/AppContext.tsx:50-117 | every action keeps the current session equal, up to `updatedAt`, to the first session with its id; the two pointer swaps do so when their result has the invariant |
| AppContext.ApplyAllPreservesLockstep | src/context/AppContext.tsx:50-117 | a log without SET_SESSIONS and SET_CURRENT_SESSION keeps that invariant |
| AppContext.SettersChangeOneField | src/context/AppContext.tsx:32-48 | each of the six setters changes its own field and nothing else |
| AppContext.SessionActionsKeepSettings | src/context/AppContext.tsx:50-117 | the five session actions leave models, selection, loading flag and error alone |
| AppContext.AddMessageEffect | src/context/AppContext.tsx:50-69 | every session with the id, and the current session when it has the id, becomes exactly the old one with the message appended and `now` as update time; other sessions, the count and the current session otherwise are unchanged |
| AppContext.DeleteMessageEffect | src/context/AppContext.tsx:71-90 | in every session with the id, and in the current session when it has the id, the messages become exactly the old ones without that message id, in order, with every other field but the update time kept; other sessions and the current session otherwise are unchanged |
| AppContext.AddThenDeleteRestores | src/context/AppContext.tsx:50-90 | ADD_MESSAGE of a fresh id followed by DELETE_MESSAGE of it restores every session's content and the rest of the state |
| AppContext.CreateSessionEffect | src/context/AppContext.tsx:92-97 | CREATE_SESSION puts the session at the head of `sessions`, keeps the old ones after it in order, makes it current, and establishes the invariant |
| AppContext.DeleteSessionEffect | src/context/AppContext.tsx:99-104 | DELETE_SESSION removes every session with the id and keeps the others; it clears the current session exactly when that session has the id |
| AppContext.UpdateTitleEffect | src/context/AppContext.tsx:106-117 | every session with the id, and the current session when it has the id, becomes exactly the old one with the new title and `now` as update time; other sessions, the count and the current session otherwise are unchanged |
| OpenRouter.ErrorMessageChoice | src/services/openrouter.ts:35-38 | a non-empty server message wins; otherwise the text is the status prefix followed by a numeral that reads back as the status |
| OpenRouter.ErrorMessage | src/services/openrouter.ts:35-38 | the thrown error's text: no contract of its own; see ErrorMessageChoice |
| OpenRouter.MakeRequest | src/services/openrouter.ts:13-47 | succeeds exactly with an API key and a 2xx status, yielding the body; the missing key and the failed status each give their own message |
| OpenRouter.CompletionRequest | src/services/openrouter.ts:89-98 | the request carries the model, the formatted messages, the stream flag, temperature 0.7 and 1000 max tokens |
| OpenRouter.PriceText | src/services/openrouter.ts:70-71 | on a price that passed the filter, `price \|\| '0'` is always `"0"` |
| OpenRouter.ToAIModel | src/services/openrouter.ts:64-74 | keeps id and name, marks the model free with prices "0", and defaults the description and the context length |
| OpenRouter.IsFreeEntry | src/services/openrouter.ts:56-63 | the free-model filter's test: no contract of its own; see ConvertFreeAllFree, FreeModels and FreeModelsSpec |
| OpenRouter.ConvertFree | src/services/openrouter.ts:55-74 | filter then map over the catalogue: no contract of its own; see ConvertFreeAllFree, ConvertFreePositions and FreeModelsSpec |
| OpenRouter.FreeModels | src/services/openrouter.ts:55-75 | at most ten models, every one free with zero prices |
| OpenRouter.ConvertFreeAllFree | src/services/openrouter.ts:64-74 | every converted entry is free with zero prices |
| OpenRouter.ConvertFreePositions | src/services/openrouter.ts:55-74 | the converted list has one entry per free raw entry, in catalogue order: the free entry at `j` lands at the number of free entries before it |
| OpenRouter.FreeModelsSpec | src/services/openrouter.ts:55-75 | the list has `min(10, free count)` entries and keeps the first ten free entries in catalogue order |
| OpenRouter.GetModels | src/services/openrouter.ts:50-82 | succeeds exactly when the request does, with the free-model list; every failure becomes the one fixed message |
| OpenRouter.FirstChoice | src/services/openrouter.ts:102-106 | yields the first choice's content exactly when `choices` is present and non-empty, else the no-response error |
| OpenRouter.SendMessage | src/services/openrouter.ts:84-111 | succeeds exactly with a key, a 2xx status and a non-empty `choices`, returning the first content; every failure becomes the one fixed message |
| OpenRouter.ProcessLines | src/services/openrouter.ts:160-175 | the frame loop over complete lines: no contract of its own; see ProcessConcat, DoneEndsStream, SilentLineSkipped, DeltaFrameEmits and HandleLines |
| OpenRouter.StreamSpec | src/services/openrouter.ts:113-181 | the streamed outcome over the whole text read: no contract of its own; see SendMessageStream, DoneIsFinal and TrailingTextDiscarded |
| OpenRouter.ProcessConcat | src/services/openrouter.ts:160-175 | processing two runs of lines is processing the first, then (unless it ended the stream) the second |
| OpenRouter.DoneEndsStream | src/services/openrouter.ts:163 | a `data: [DONE]` line ends the stream: no later line has any effect |
| OpenRouter.SilentLineSkipped | src/services/openrouter.ts:161-173 | a line that is not a data line, or whose payload yields no delta, is skipped |
| OpenRouter.DeltaFrameEmits | src/services/openrouter.ts:165-170 | a data line whose payload yields a non-empty delta emits exactly that delta, after everything before it |
| OpenRouter.CompleteLinesAppend | src/services/openrouter.ts:156-158 | more text only adds complete lines after those already complete |
| OpenRouter.CompleteLinesPlain | src/services/openrouter.ts:156-158 | text without a newline completes no line |
| OpenRouter.SplitBuffer | src/services/openrouter.ts:156-158 | after a read the carried buffer has no newline, no line has one, and lines joined by newlines plus the buffer are the old buffer plus the new text |
| OpenRouter.SendMessageStream | src/services/openrouter.ts:113-181 | the read loop emits exactly the deltas and the outcome of the framing specification over the complete lines of all text read |
| OpenRouter.ReadStep | src/services/openrouter.ts:152-158 | one read extends the lines split off so far to the split of all text read |
| OpenRouter.HandleLines | src/services/openrouter.ts:160-175 | the inner loop over one read's lines emits what the framing specification does and reports whether `[DONE]` was seen |
| OpenRouter.LineStep | src/services/openrouter.ts:161-170 | one line extends the framing of the lines before it by at most one delta, or ends the stream |
| OpenRouter.ConcatSplit | src/services/openrouter.ts:156 | the text of all reads is the text of the first `k` followed by the rest |
| OpenRouter.CompletePrefix | src/services/openrouter.ts:156-158 | the lines split off after `k` reads come first among all complete lines |
| OpenRouter.DoneIsFinal | src/services/openrouter.ts:163 | returning at `[DONE]` mid-stream gives what processing the whole stream gives |
| OpenRouter.TrailingTextDiscarded | src/services/openrouter.ts:153-158 | a last read without a newline changes neither the deltas nor the outcome |
| UseOpenRouter.Merge | src/hooks/useOpenRouter.ts:19-29 | the catalogue is the vision model followed by the fetched models in order |
| UseOpenRouter.FindFree | src/hooks/useOpenRouter.ts:34 | finds the first free model of the list (every earlier one is not free), and finds one exactly when one exists |
| UseOpenRouter.FindById | src/hooks/useOpenRouter.ts:35 | finds the first model of the list with the id (every earlier one has another id), and finds one exactly when one exists |
| UseOpenRouter.SelectDefault | src/hooks/useOpenRouter.ts:32-43 | the default-selection rule: no contract of its own; see SelectDefaultCases, SelectDefaultListed and FetchModelsEffect |
| UseOpenRouter.SelectDefaultCases | src/hooks/useOpenRouter.ts:32-43 | an empty, missing or non-free selection becomes the first free model when there is one; a listed free selection stays; without a free model an empty selection becomes the head of the list and any other stays |
| UseOpenRouter.SelectDefaultListed | src/hooks/useOpenRouter.ts:32-43 | any selection made is a listed model, and a free one whenever the list has a free model |
| UseOpenRouter.MergedHasFree | src/hooks/useOpenRouter.ts:29-34 | the merged catalogue has a free model exactly when the fetched catalogue had a free entry |
| UseOpenRouter.FetchModelsLog | src/hooks/useOpenRouter.ts:11-50 | the actions `fetchModels` dispatches: no contract of its own; see FetchModels and FetchModelsEffect |
| UseOpenRouter.FetchModels | src/hooks/useOpenRouter.ts:11-50 | clears the error first, then dispatches the merged catalogue and the default selection, or the fetch's error |
| UseOpenRouter.FetchModelsEffect | src/hooks/useOpenRouter.ts:11-50 | composed with the store: the catalogue, the error slot and a listed (free where possible) selection, or only the error on failure; sessions untouched |
| UseOpenRouter.FormatMessages | src/hooks/useOpenRouter.ts:61-75 | formats each message in place, keeping the count |
| UseOpenRouter.FormatMessage | src/hooks/useOpenRouter.ts:61-75 | one message in the request's format: no contract of its own; see FormatMessagesFaithful |
| UseOpenRouter.FormatMessagesFaithful | src/hooks/useOpenRouter.ts:61-75 | count, order, role and text are kept; an image is sent, as exactly [text part, image part], exactly when the message has a non-empty image URL |
| UseOpenRouter.SendMessage | src/hooks/useOpenRouter.ts:52-92 | clears the error first; streams with a callback and resolves to "", else returns the buffered result; a failure is dispatched to the error slot |
| ChatInterface.UserMessage | src/components/Chat/ChatInterface.tsx:22-28 | the user's message has the trimmed input, role user, the send time as id and as timestamp, the session's model and no image |
| ChatInterface.CanSend | src/components/Chat/ChatInterface.tsx:20 | the send guard: no contract of its own; see SendTurnGuard and TrimEmptyIff |
| ChatInterface.SimulatedReply | src/components/Chat/ChatInterface.tsx:44-50 | the reply has role assistant, the session's model, the next millisecond as id, the reply time as timestamp, and content exactly the fixed Turkish prefix, the user's text and a closing quote |
| ChatInterface.SendTurnLog | src/components/Chat/ChatInterface.tsx:31-60 | the actions `handleSendMessage` dispatches: no contract of its own; see SendTurnGuard, SendTurnShape, HandleSendMessage and SendTurnEffect |
| ChatInterface.HandleSendMessage | src/components/Chat/ChatInterface.tsx:19-62 | dispatches the turn's action log and clears the input exactly when the guard lets it send |
| ChatInterface.SendTurnGuard | src/components/Chat/ChatInterface.tsx:20 | nothing is dispatched exactly when the input is all white space, there is no session, or a request is in flight |
| ChatInterface.SendTurnShape | src/components/Chat/ChatInterface.tsx:31-60 | a send that passes the guard dispatches exactly four actions in order: ADD_MESSAGE of the user's message, SET_LOADING(true), the reply's ADD_MESSAGE or the fixed error, and SET_LOADING(false) last |
| ChatInterface.AddToCurrent | src/components/Chat/ChatInterface.tsx:31-34 | ADD_MESSAGE aimed at the current session appends to it and keeps the invariant and the flags |
| ChatInterface.SendTurnEffect | src/components/Chat/ChatInterface.tsx:19-62 | composed with the store: the current session and its entry gain the user's message then the reply (or only the user's message on error), the store ends not loading, and the error slot holds the fixed message only on error |
| ChatInterface.HandleKeyPress | src/components/Chat/ChatInterface.tsx:64-69 | Enter without Shift sends, dispatching the send log and clearing the input exactly when the guard lets it send; any other key dispatches nothing and keeps the input |
| NewChatButton.NewSession | src/components/Chat/NewChatButton.tsx:15-22 | the new session is empty, titled "Yeni Sohbet", on the selected model, created and updated now, with an id that reads back as now |
| NewChatButton.NewChatLog | src/components/Chat/NewChatButton.tsx:9-25 | the action `handleNewChat` dispatches: no contract of its own; see HandleNewChat and NewChatEffect |
| NewChatButton.HandleNewChat | src/components/Chat/NewChatButton.tsx:9-25 | dispatches exactly one action: CREATE_SESSION exactly when a model is selected, else the error |
| NewChatButton.NewChatEffect | src/components/Chat/NewChatButton.tsx:9-25 | composed with the store: without a model only the error changes; with one the new session heads `sessions` and is current, the old sessions follow, and the invariant holds |

## Left out

- Network and I/O: `fetch`, request headers, `response.json()`, `reader.read()` and the API-key environment lookup. The response is a parameter; the key is a boolean.
- UTF-8 decoding by `TextDecoder` and `JSON.parse` of stream frames. The decoded pieces and the `delta` function are parameters.
- The clock. `Date.now()` and `new Date()` are `Instant` parameters. Every `new Date()` inside one reducer call reads the same instant, and `ApplyAll` uses one instant for a whole log. Id uniqueness is not derived from the clock.
- Telemetry spans and `console` output in the service.
- React plumbing: `useState`, `useEffect`, `useReducer` and the context provider. The hook's `isLoadingModels` and `isLoadingMessage` flags are React state, not store state, and are not modelled.
- ChatInterface.SendTurnEffect: assumes no other dispatch lands during the one-second await. In that window the new-chat button and the history list stay enabled, so a CREATE_SESSION or SET_CURRENT_SESSION could change the current session; the reply is still aimed at the session read when the send started, and this interleaving is not modelled.
- UseOpenRouter.FetchModelsEffect: applies the whole `fetchModels` log with nothing in between, although the log spans the awaited catalogue request and another component (the new-chat button's SET_ERROR, say) could dispatch meanwhile. It also reads the selection from the store when the log starts, while the hook uses the `selectedModel` captured when it last rendered; the two are taken to agree.
- The one-second `setTimeout` in the send handler. Whether the awaited step rejects is the parameter `replyFails`; a timer never rejects, so the error path is modelled but not reachable in practice.
- The reducer's `default` case: the action type is a closed union, so no action reaches it.
- The hooks' fallback texts for a thrown non-`Error` value ('Failed to fetch models', 'Failed to send message'). Every error the service throws is an `Error`, so those texts are never used.
- The service catches every failure and rethrows a fixed message. The model keeps only the fixed messages, so the server's error text never reaches the store.
- OpenRouter.SendMessageStream: an exception thrown by the `onChunk` callback is not modelled; chunks are appended to the output and the callback cannot fail.
- JSON values in the catalogue: ids and names are taken to be strings and prices to be strings, numbers or absent; `context_length` is taken to be an integer or absent (the source passes any JSON number through `|| 0`, so fractional values are not modelled); other JSON types are not modelled.
- `src/hooks/useChatSessions.ts`, the local-storage persistence, is not part of this model.
- UI-only files: `App.tsx`, `ModelSelector.tsx`, `ChatHistory.tsx`, `ErrorAlert.tsx`, `FadeIn.tsx` and the Tailwind configuration.
- Deriving a session title from the first message, and replacing a placeholder reply, appear in no modelled file and are not modelled.
