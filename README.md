# AI Coder chat and editor, modelled in Dafny

AI Coder is a Next.js app with three panes. A file sidebar sits on one side and a code editor in the middle. A chat panel on the other side talks to a language model and drops the code blocks of each answer into the active file. This project models and proves the parts of the app that hold logic:

- **The client chat store** (`useChats`, module `UseChats`). It holds the list of chats, the chat on screen and the loading flag. Its operations are create, load, update, delete and send.
  - The send cycle appends the user message optimistically and posts the history.
  - It then streams the answer into an assistant placeholder, chunk by chunk.
  - From the finished text it extracts the fenced code blocks.
  - On any failure it appends an apology, but only while the chat on screen is still the one the message was sent to.
- **The code-block extractor** (module `FenceExtract`). It models the lazy global regular expression ```` /```[\s\S]*?```/g ```` and the `"\n\n"` join that follows it.
  - It is a recursive scanner.
  - It is proved equal to a declarative description of what a global lazy match finds, and that description has exactly one solution.
- **The server storage** (`ChatStorage`, module `ChatStorage`).
  - The two tables, `chats` and `messages`, are row sequences in a class.
  - Every query takes a failure flag.
  - `order(...)` is a stable sort, and `.single()` fails unless exactly one row matches.
  - An insert fails on a duplicate primary key.
- **The chat endpoint** (`POST /api/chat`, module `ChatRoute`). This covers:
  - the 400 checks on the posted history;
  - the 500 answers for anything thrown;
  - the `onFinish` writes that store the last user message and then the answer.
- **The UI state machines and mappings**:
  - the chat panel's handlers and auto-select effect (`ChatPanel`);
  - the page's file map (`Page`);
  - the sidebar's new-file form (`Sidebar`);
  - the editor's language badge, line count and selection (`CodeEditor`);
  - the Monaco editor's badge style, change handler and download name (`OptimizedCodeEditor`).

Shared JavaScript string behaviour lives in module `Text`:
- `trim` over the ECMAScript white-space set;
- `split` on one character;
- `join`;
- `Number.prototype.toString` for naturals;
- ASCII `toLowerCase`.

`Option` lives in module `Wrappers`.

Three kinds of input are parameters, because the model cannot compute them:
- **Network replies:** a thrown request, an ok flag, a body, and the decoded chunks.
- **Storage failures and ids:** a failure flag per request, generated ids and clock readings.
- **Everything else the app cannot compute:** `JSON.stringify` and `toLocaleString`.

## Model

| member | source | states |
|---|---|---|
| Text.TrimStart | components/chat-panel.tsx:43 | the result is a suffix of the input, everything dropped is white space, and it does not start with white space |
| Text.TrimEnd | components/chat-panel.tsx:43 | the result is a prefix of the input, everything dropped is white space, and it does not end with white space |
| Text.Trim | components/chat-panel.tsx:43 | `trim()` gives a slice of the input with only white space before and after it |
| Text.TrimEdges | components/chat-panel.tsx:69-70 | a trimmed title is empty or starts and ends with a non-space character |
| Text.BlankIffAllSpace | components/chat-panel.tsx:43 | `!s.trim()` holds exactly when every character of `s` is white space |
| Text.TrimIdempotent | components/sidebar.tsx:21-22 | trimming a trimmed name changes nothing |
| Text.Split | components/code-editor.tsx:19 | `split` on one character gives at least one piece, and no piece holds the separator |
| Text.Join | hooks/use-chats.ts:217 | `join` of no parts is empty, of one part is that part, and of several begins with the first part followed by the separator |
| Text.SplitJoin | components/code-editor.tsx:19 | joining the pieces with the separator gives back the string |
| Text.SplitCount | components/code-editor.tsx:19 | the number of pieces is the number of separators plus one |
| Text.SplitNoSeparator | components/code-editor.tsx:46 | a string without the separator splits into itself |
| Text.LastPieceAfterSeparator | components/code-editor.tsx:46 | whatever precedes a separator does not affect `split(...).pop()` |
| Text.LastPieceIsTail | components/code-editor.tsx:46 | `pop()` after a split is the text after the last separator |
| Text.Decimal | hooks/use-chats.ts:123 | `toString` of a natural is non-empty, made of digits, and has no leading zero |
| Text.DecimalRoundTrip | hooks/use-chats.ts:123 | reading the digits back gives the number |
| Text.DecimalInjective | hooks/use-chats.ts:172 | different clock readings give different message ids |
| Text.LowerChar | components/optimized-code-editor.tsx:78 | an upper-case ASCII letter becomes the letter 32 code points on, its lower-case form, and every other character is kept |
| Text.ToLower | components/optimized-code-editor.tsx:78 | `toLowerCase` keeps the length and lower-cases each character |
| FenceExtract.NextFence | hooks/use-chats.ts:216 | the result is the leftmost triple backtick at or after the position, or none when there is none |
| FenceExtract.Spans | hooks/use-chats.ts:216 | the scan's matches lie inside the text at or after the resume position, and each spans at least two fences |
| FenceExtract.Blocks | hooks/use-chats.ts:216 | `match` gives one text per match, each at least six characters long |
| FenceExtract.GeneratedCode | hooks/use-chats.ts:216-217 | `generatedCode` is null exactly when nothing matched, and otherwise begins with the first match |
| FenceExtract.SpansAreGlobalMatch | hooks/use-chats.ts:216 | the scanner's spans satisfy the declarative description of a leftmost, shortest, non-overlapping global match |
| FenceExtract.GlobalMatchUnique | hooks/use-chats.ts:216 | only one sequence of spans satisfies that description, namely the scanner's |
| FenceExtract.GlobalMatchOrdered | hooks/use-chats.ts:216 | every span is a shortest match from a triple backtick to the nearest later one, and the spans are in source order without overlap |
| FenceExtract.NoCodeIffNoClosedPair | hooks/use-chats.ts:216-217 | `generatedCode` is null exactly when no triple backtick has another one three or more characters after it |
| FenceExtract.LazyMatchIsFencedBlock | hooks/use-chats.ts:216 | each matched region starts and ends with its delimiters and holds no triple backtick inside |
| FenceExtract.BlocksAreFenced | hooks/use-chats.ts:216 | every element of `codeMatch` is such a fenced block |
| FenceExtract.GeneratedCodeNonEmpty | hooks/use-chats.ts:217 | extracted code is at least six characters long, so it is never the empty string |
| FenceExtract.NoBacktickNoCode | hooks/use-chats.ts:216-217 | text without a backtick yields null |
| FenceExtract.FencedRegion | hooks/use-chats.ts:216 | three backticks, a backtick-free body and three backticks form a shortest match |
| FenceExtract.UnclosedOpenerEndsScan | hooks/use-chats.ts:216 | an opener with no close after it ends the scan with no further match |
| FenceExtract.SingleBlockMatch | hooks/use-chats.ts:216 | text with one fenced block and no other backticks matches exactly that block |
| FenceExtract.SingleBlock | hooks/use-chats.ts:216-217 | in that case `generatedCode` is the block with its delimiters |
| UseChats.RoleOf | hooks/use-chats.ts:147 | the role is "user" exactly for type "user" and "assistant" for anything else |
| UseChats.ToApi | hooks/use-chats.ts:145-149 | the projection keeps the length, each id and each content, and maps the type to a role |
| UseChats.History | hooks/use-chats.ts:141-149 | the posted history has one entry per message on screen plus one, and ends with the new message under its role |
| UseChats.HistoryShape | hooks/use-chats.ts:142-149 | the history is as long as the chat on screen plus one, ends with the new user message, and keeps ids, contents and roles |
| UseChats.ReplaceById | hooks/use-chats.ts:88 | every chat with the id becomes the reply's chat, and length and positions are kept |
| UseChats.RemoveById | hooks/use-chats.ts:106 | exactly the chats whose id differs remain |
| UseChats.RemoveByIdAppend | hooks/use-chats.ts:106 | the filter distributes over concatenation, which keeps the relative order |
| UseChats.RemoveAbsentId | hooks/use-chats.ts:106 | a list without the id is left unchanged |
| UseChats.RewriteById | hooks/use-chats.ts:205-207 | the message with the placeholder's id gets the content, and every other message is kept |
| UseChats.RewriteTwice | hooks/use-chats.ts:200-210 | rewriting the placeholder twice is the same as rewriting it once with the later content |
| UseChats.RewriteFreshLast | hooks/use-chats.ts:179-207 | rewriting a freshly appended placeholder changes only the last message |
| UseChats.AppendTo | hooks/use-chats.ts:130-139 | the updater appends to a chat on screen and keeps null as null |
| UseChats.ConcatPrefix | hooks/use-chats.ts:192-197 | the running concatenation after k chunks is a prefix of the final text |
| UseChats.PlaceholderTracksChunks | hooks/use-chats.ts:192-211 | after k chunks the placeholder holds the concatenation of the first k chunks, and all other messages are unchanged |
| UseChats.FreshIds | hooks/use-chats.ts:123-172 | the user message and the placeholder get different ids |
| UseChats.SendState | hooks/use-chats.ts:130-243 | a send to a chat not on screen leaves the screen as it was; otherwise only the messages change, two or three are added, and a failure leaves the apology last |
| UseChats.SendReturn | hooks/use-chats.ts:215-222 | a result exactly when the cycle did not throw: the user message with the sent content and the assistant message with the whole received text, with ids from the two clock readings |
| UseChats.OtherChatUntouched | hooks/use-chats.ts:130-243 | when the chat on screen is not the target, sending leaves it unchanged |
| UseChats.SendAppendsPair | hooks/use-chats.ts:117-222 | a successful send appends exactly the returned user message and the finished assistant message |
| UseChats.SendFailureAppendsApology | hooks/use-chats.ts:161-243 | a failed send appends the user message, then the partly streamed placeholder when the response was ok, then exactly one apology, and returns nothing |
| UseChats.SendCodeIffClosedPair | hooks/use-chats.ts:216-217 | the returned code is null exactly when the answer holds no closed pair of fences |
| UseChats.ChatStore.constructor | hooks/use-chats.ts:21-23 | no chats, nothing on screen, not loading |
| UseChats.ChatStore.FetchChats | hooks/use-chats.ts:26-34 | the list becomes `data.chats` or `[]`, and a thrown request changes nothing |
| UseChats.ChatStore.CreateChat | hooks/use-chats.ts:37-57 | on ok the new chat is put at index 0 in front of the others and put on screen; otherwise nothing changes; loading ends false |
| UseChats.ChatStore.LoadChat | hooks/use-chats.ts:60-75 | on ok the chat is put on screen; the list is untouched; loading ends false |
| UseChats.ChatStore.UpdateChat | hooks/use-chats.ts:78-96 | on ok the chats with the id are replaced in place, and the chat on screen is replaced only when its id matches |
| UseChats.ChatStore.DeleteChat | hooks/use-chats.ts:99-114 | on ok exactly the chats with another id remain, and the chat on screen becomes null exactly when it was the deleted one |
| UseChats.ChatStore.SendMessage | hooks/use-chats.ts:117-247 | the posted history, the chat on screen after the chunk loop and the error path, and the returned messages and code all equal the send-cycle functions; the list is untouched and loading ends false |
| UseChats.ChatStore.ReadChunks | hooks/use-chats.ts:191-212 | after the loop the text is the concatenation of all chunks, and, only when the chat on screen is the target, the placeholder holds it |
| ChatStorage.Insert | lib/chat-storage.ts:44 | insertion adds exactly the one row |
| ChatStorage.InsertSorted | lib/chat-storage.ts:44 | insertion into sorted rows keeps them sorted |
| ChatStorage.SortBy | lib/chat-storage.ts:28 | `order(...)` returns a permutation of the rows |
| ChatStorage.SortBySorted | lib/chat-storage.ts:28 | the result of `order(...)` is sorted on the key |
| ChatStorage.IdsOf | lib/chat-storage.ts:39 | the id list follows the chat rows position by position |
| ChatStorage.RowsIn | lib/chat-storage.ts:43 | `.in('chat_id', ids)` keeps exactly the rows whose chat id is listed |
| ChatStorage.ForChat | lib/chat-storage.ts:57-72 | every row of the chat contributes its message, and every message comes from a row of that chat |
| ChatStorage.ForChatOthers | lib/chat-storage.ts:72 | a chat with no message rows gets `[]` |
| ChatStorage.Single | lib/chat-storage.ts:83 | `.single()` succeeds exactly when one row matches, and returns that row |
| ChatStorage.ChatRowsWithId | lib/chat-storage.ts:82 | `.eq('id', chatId)` keeps exactly the chat rows with the id |
| ChatStorage.MessageRowsOf | lib/chat-storage.ts:105 | `.eq('chat_id', chatId)` keeps exactly the message rows of the chat |
| ChatStorage.Touch | lib/chat-storage.ts:213-216 | only the rows with the id get the new `updated_at`, and nothing else changes |
| ChatStorage.TouchKeepsIds | lib/chat-storage.ts:213-216 | bumping `updated_at` keeps chat ids unique |
| ChatStorage.Rename | lib/chat-storage.ts:155-162 | the rows with the id get the new title and time, and the others are kept |
| ChatStorage.DropChat | lib/chat-storage.ts:181-184 | exactly the rows with another id remain |
| ChatStorage.DropKeepsIds | lib/chat-storage.ts:181-184 | deleting keeps chat ids unique |
| ChatStorage.UpdateLosesTitle | lib/chat-storage.ts:155-162 | as written, an update of chat "a" leaves its title "Old" and only moves `updated_at` |
| ChatStorage.RenameSetsTitle | lib/chat-storage.ts:155-168 | the corrected update gives the chat the new title and time, leaves the other chats alone and keeps ids unique |
| ChatStorage.GroupByChat | lib/chat-storage.ts:57-66 | the reduce creates a group exactly for the chat ids that have rows, and each group is that chat's messages in fetch order |
| ChatStorage.GroupStep | lib/chat-storage.ts:57-66 | one `push` extends the group of the row's chat and no other group |
| ChatStorage.ForChatStep | lib/chat-storage.ts:57-66 | one more row extends only its own chat's messages |
| ChatStorage.Storage.constructor | lib/chat-storage.ts:20-22 | the storage holds the given tables, whose ids are unique |
| ChatStorage.Storage.GetAllChats | lib/chat-storage.ts:24-76 | a chats error gives `[]`; otherwise the chats come in descending `updated_at` order, each with exactly its fetched messages in ascending `created_at` order, or with `[]` on a messages error |
| ChatStorage.Storage.GetMessagesForChat | lib/chat-storage.ts:101-117 | the chat's messages in ascending `created_at` order, or `[]` on error |
| ChatStorage.Storage.GetChat | lib/chat-storage.ts:78-99 | null on a lookup error or unless exactly one row matches; otherwise that row's id, title and times with the chat's messages oldest first, or none when the messages query fails |
| ChatStorage.Storage.AddMessage | lib/chat-storage.ts:193-222 | null and no change on an insert error; otherwise the row is appended and the chat's `updated_at` becomes the message's time |
| ChatStorage.Storage.CreateChat | lib/chat-storage.ts:119-153 | the given title if non-empty, else "Chat " and the local time; both times equal; the messages are the greeting exactly when it was stored |
| ChatStorage.Storage.UpdateChat | lib/chat-storage.ts:155-178 | as written: only `updated_at` changes, the title argument is ignored, and the result is null on error |
| ChatStorage.Storage.RenameChat | lib/chat-storage.ts:155-178 | corrected: the title and `updated_at` both change |
| ChatStorage.Storage.DeleteChat | lib/chat-storage.ts:180-191 | returns true exactly when the delete reported no error, and then the chat row is gone |
| ChatRoute.Status | app/api/chat/route.ts:13-71 | the answer is 200 exactly when it streams |
| ChatRoute.Lookup | app/api/chat/route.ts:9 | a found value is that of the last member with the key, and a missing key appears nowhere |
| ChatRoute.FirstBad | app/api/chat/route.ts:19-24 | none exactly when every entry has a truthy role and content; otherwise the first entry that does not |
| ChatRoute.CheckEntries | app/api/chat/route.ts:19-24 | the validation loop stops at that first bad entry and throws exactly when the entry is null |
| ChatRoute.FirstBadIs | app/api/chat/route.ts:19-24 | a bad entry preceded only by good ones is the first bad entry |
| ChatRoute.Decide | app/api/chat/route.ts:7-72 | a 400 carries one of the two fixed texts, an unparsable body is the only cause of the JSON error, and a failing model never streams |
| ChatRoute.Post | app/api/chat/route.ts:7-72 | the handler's answer is the decision on the body |
| ChatRoute.NoMessagesIff | app/api/chat/route.ts:13-16 | "No messages provided" is the answer exactly when `messages` is falsy or has length 0 |
| ChatRoute.StreamingNeedsValidHistory | app/api/chat/route.ts:13-45 | streaming starts only for a non-empty history whose entries all pass, and only when the model does not throw |
| ChatRoute.InvalidEntryRefused | app/api/chat/route.ts:19-24 | an entry with a falsy role or content gives "Invalid message format" |
| ChatRoute.FailuresAnswer500 | app/api/chat/route.ts:9-41 | a null body, a `messages` value that cannot be iterated and a null entry each answer 500, and the model fails with 500 exactly on a request that would otherwise stream |
| ChatRoute.Persisted | app/api/chat/route.ts:49-64 | at most two writes, all to the request's chat, a user turn before the assistant turn |
| ChatRoute.PersistedShape | app/api/chat/route.ts:49-64 | nothing is written unless the chat id and the text are truthy; the last entry is written as the user turn exactly when its content is truthy, and the exact text as the assistant turn after it |
| ChatRoute.OnFinish | app/api/chat/route.ts:46-66 | the storage receives those writes in that order: the message rows are appended, and each write moves its chat's update time |
| ChatPanel.AutoSelect | components/chat-panel.tsx:34-40 | the first chat is loaded exactly when chats exist and none is on screen; "New Chat" is created exactly when there are no chats and nothing is loading |
| ChatPanel.SendEnabledIff | components/chat-panel.tsx:225 | the button is enabled exactly when nothing is loading and the input has a non-space character |
| ChatPanel.CodeToForward | components/chat-panel.tsx:48-50 | only a non-empty code result is forwarded |
| ChatPanel.ForwardedIsExtracted | components/chat-panel.tsx:48-50 | the truthiness test never drops extracted code: a successful reply forwards exactly its extracted code |
| ChatPanel.ForwardedNeedsFences | components/chat-panel.tsx:48-50 | code reaches the editor only from a successful answer with a closed pair of fences |
| ChatPanel.Panel.constructor | components/chat-panel.tsx:30-32 | empty input and not editing a title |
| ChatPanel.Panel.HandleSend | components/chat-panel.tsx:42-51 | nothing happens for a blank input or no chat on screen; otherwise the untrimmed input is sent to the chat on screen, the input is cleared, and truthy code is forwarded |
| ChatPanel.Panel.ClickSend | components/chat-panel.tsx:225 | a disabled button does nothing; an enabled one sends the input when a chat is on screen, leaving the chat on screen, the cleared input and the forwarded code as `handleSend` does; when `handleSend` returns early, the input, the chat on screen, the loading flag and the forwarded code are unchanged; the chat list and the title editor are never touched |
| ChatPanel.Panel.KeyDown | components/chat-panel.tsx:216-222 | Enter without Shift sends as `handleSend` does, with the same new chat on screen, cleared input and forwarded code, unless the field is disabled; when no send happens, the input, the chat on screen, the loading flag and the forwarded code are unchanged; the chat list and the title editor are never touched |
| ChatPanel.Panel.HandleNewChat | components/chat-panel.tsx:53-55 | the requested title is "Chat " and one more than the number of chats |
| ChatPanel.Panel.HandleDeleteChat | components/chat-panel.tsx:57-60 | the store's delete is applied to the id: the screen is emptied exactly when the deletion succeeds for the chat on screen, otherwise it keeps its chat, and the loading flag is unchanged |
| ChatPanel.Panel.HandleEditTitle | components/chat-panel.tsx:62-66 | edit mode is entered for the chat, starting from its current title |
| ChatPanel.Panel.HandleSaveTitle | components/chat-panel.tsx:68-74 | the trimmed title is sent exactly when it is non-blank; when sent, the screen shows the returned chat exactly when the update succeeds for the chat on screen and otherwise keeps its chat; the loading flag is unchanged; edit mode is always left and the field cleared |
| ChatPanel.Panel.RunAutoSelect | components/chat-panel.tsx:34-40 | the effect performs the load or create that the auto-select rule chooses, and nothing otherwise; a failed reply leaves the chat list and the chat on screen as they were; after a load or create the loading flag is off |
| Page.DistinctSnoc | app/page.tsx:34-39 | adding a new key keeps the key list free of repeats |
| Page.DistinctCard | app/page.tsx:57 | the listed names are as many as the files |
| Page.Workspace.constructor | app/page.tsx:11-32 | "main.tsx" is active and the keys are exactly "main.tsx" and "utils.ts", with their templates |
| Page.Workspace.FileNames | app/page.tsx:57 | the sidebar lists each file exactly once |
| Page.Workspace.EditorContent | app/page.tsx:68 | the editor shows the active file's content, or "" when the key is absent |
| Page.Workspace.UpdateFileContent | app/page.tsx:34-39 | only the named key is set, every other file is unchanged, and the active file stays |
| Page.Workspace.CreateNewFile | app/page.tsx:41-47 | the name maps to "", overwriting any content, and becomes the active file |
| Page.Workspace.SelectFile | app/page.tsx:58 | the chosen listed file becomes active, and the files are unchanged |
| Page.Workspace.ReplaceActive | app/page.tsx:69-77 | an edit or generated code replaces the active file's content, and the editor shows it |
| CodeEditor.Extension | components/code-editor.tsx:46 | the extension holds no dot |
| CodeEditor.Language | components/code-editor.tsx:47-61 | tsx/jsx give React, ts TypeScript, js JavaScript, css CSS, html HTML, and any other extension Text |
| CodeEditor.GetLanguage | components/code-editor.tsx:45-62 | one of the six labels, and a label other than "Text" only for a known extension |
| CodeEditor.LanguageFollowsLastDot | components/code-editor.tsx:45-62 | the language is decided by the text after the last dot |
| CodeEditor.DotlessNameIsItsOwnExtension | components/code-editor.tsx:46 | a name without a dot is its own extension |
| CodeEditor.BareJsIsJavaScript | components/code-editor.tsx:46-54 | the file name "js" is labelled JavaScript |
| CodeEditor.SameExtensionSameLanguage | components/code-editor.tsx:45-62 | names that differ only before the last dot get the same language |
| CodeEditor.LineCount | components/code-editor.tsx:18-21 | the line count is the number of line feeds plus one, so it is at least 1 |
| CodeEditor.LineCountAppendLine | components/code-editor.tsx:18-21 | appending a line raises the count by one |
| CodeEditor.Clamp | components/code-editor.tsx:26 | a negative bound becomes 0, a bound past the end becomes the length, and a bound inside is kept |
| CodeEditor.Substring | components/code-editor.tsx:26 | for bounds inside the text, `substring` is the slice between them in either order |
| CodeEditor.SubstringSymmetric | components/code-editor.tsx:26 | swapping the bounds does not change the substring |
| CodeEditor.SubstringIsSelection | components/code-editor.tsx:26 | the selection has the bounds' width and the characters between them |
| CodeEditor.HandleSelect | components/code-editor.tsx:23-28 | with a callback, it receives the substring between the bounds and those same bounds; without one, nothing happens |
| OptimizedCodeEditor.VariantOf | components/optimized-code-editor.tsx:77-90 | typescript/tsx give "default", python gives "outline", and everything else, javascript and jsx included, gives "secondary" |
| OptimizedCodeEditor.BadgeVariant | components/optimized-code-editor.tsx:77-90 | one of three styles, and "secondary" for JavaScript and JSX in any case |
| OptimizedCodeEditor.BadgeIgnoresCase | components/optimized-code-editor.tsx:78 | spellings that lower-case alike get the same badge |
| OptimizedCodeEditor.BadgeCases | components/optimized-code-editor.tsx:77-90 | the badge mapping is applied to the lower-cased language |
| OptimizedCodeEditor.HandleEditorChange | components/optimized-code-editor.tsx:67-74 | a value is forwarded exactly when it is defined, unchanged |
| OptimizedCodeEditor.DownloadName | components/optimized-code-editor.tsx:41-59 | the download name is the file name ("untitled" by default), a dot, then the language |
| OptimizedCodeEditor.DownloadNameEndsWithLanguage | components/optimized-code-editor.tsx:59 | the text after the last dot of the download name is the language |
| Sidebar.FileVariant | components/sidebar.tsx:68 | a file is highlighted exactly when its name is the active file |
| Sidebar.OneHighlighted | components/sidebar.tsx:65-68 | with the active file listed once, exactly one entry is highlighted |
| Sidebar.Panel.constructor | components/sidebar.tsx:17-18 | the form starts hidden and empty |
| Sidebar.Panel.ShowInput | components/sidebar.tsx:41 | Plus shows the form and keeps the name |
| Sidebar.Panel.SetName | components/sidebar.tsx:51 | typing sets the name |
| Sidebar.Panel.HandleCreateFile | components/sidebar.tsx:20-26 | a non-blank name creates the trimmed file as the active, empty file, appended to the tab order unless it already exists, then the form is cleared and hidden; a blank name changes nothing |
| Sidebar.Panel.KeyDown | components/sidebar.tsx:52-55 | Enter creates the trimmed name as the new active, empty file, appended to the tab order unless it already exists, and clears the form; Enter on a blank name changes nothing; Escape hides the form without clearing the name; other keys do nothing |
| Sidebar.Panel.ClickFile | components/sidebar.tsx:70 | clicking a listed file makes it active and highlighted |

## Left out

- HTTP plumbing is not modelled: `fetch`, `response.json()`, `TextDecoder` and the stream reader. A reply is a datatype: thrown, an ok flag, a body flag, and the decoded chunks. A read that throws after the chunks is a flag.
- The Supabase client and `uuidv4` are not modelled. Tables are row sequences, each request has a failure flag, and ids and clock readings are parameters. Foreign keys and cascading deletes in the database schema are not part of this model.
- `Date.now()`, `new Date()`, `toISOString` and `toLocaleString` are not modelled. Clock readings are naturals and the local-time text is a string parameter.
- Dates are not modelled as `Date` objects. Timestamps stay as integers.
- `streamText`, `convertToModelMessages` and the OpenAI model are foreign calls. Whether the model call throws is a flag, and the finished text is the input of `OnFinish`.
- `JSON.stringify` of non-string content is a function parameter.
- React rendering, effect scheduling and asynchronous interleaving are not modelled. Each operation runs to completion against the state it is given.
- `ChatRoute.OnFinish`: the two `addMessage` calls are not awaited, so they may complete in either order. The model issues them in sequence and without failure flags.
- `ChatRoute.Post`: a truthy `chatId` that is not a string is treated as absent.
- `UseChats.ChatStore.CreateChat`: the requested title is not carried in the client model. `ChatPanel.Panel.HandleNewChat` returns it instead.
- `Page.Workspace.ReplaceActive` writes generated code to the file active when the answer arrives. The app's callback captures the file that was active when the send began.
- `Page.Workspace.FileNames` lists files in insertion order. `Object.keys` lists integer-like names such as "1" first, in numeric order.
- `Text.ToLower` lower-cases ASCII letters only. Full Unicode case mapping is not modelled.
- `CodeEditor.Substring`, `CodeEditor.HandleSelect`: strings are sequences of Unicode code points, while JavaScript indexes UTF-16 code units. For text with characters outside the Basic Multilingual Plane the selection bounds, and so the selected text, differ from the app's.
- The text of a 500 answer ("Error processing chat request: " and the error) is not modelled; the model keeps which failure caused it (`ChatRoute.Failure`).
- `ChatRoute.Value`: JSON numbers are integers. A fractional number such as 0.5 cannot be represented, so its truthiness and its role as a `length` are not modelled.
- `ChatStorage.SortBy` keeps rows with equal keys in table order. The database guarantees no order for ties.
- The app's copy and download actions, the Monaco editor options and the quick-prompt buttons are not modelled.
- The messages in `getAllChats` carry an extra `chat_id` field, and `addMessage` returns every column. The model's message record leaves out `chat_id`.
- These files are not part of this model: components/code-runner.tsx (it evaluates generated code), components/header.tsx (static markup) and the app/api/chats routes (thin wrappers that map storage results to 404 and 500). The `[chatId]` routes call the storage without `await`, so their checks test a promise.

## Findings

| source | as written | input that shows it | evidently intended | confidence | as-written member | corrected member |
|---|---|---|---|---|---|---|
| lib/chat-storage.ts:155-168 | `updateChat` sets only `updated_at`; the title in `updates` is never written, so renaming a chat has no effect | chat row ("a", "Old", 0, 0), then `updateChat("a", { title: "New" })` at time 5: the row becomes ("a", "Old", 0, 5) | write the new title along with `updated_at` | high, not executed | ChatStorage.UpdateLosesTitle | ChatStorage.RenameSetsTitle |
