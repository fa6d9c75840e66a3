/**
  The server-side chat storage over two tables, `chats` and `messages`.
  The database is modelled as the two row sequences held by a class; each
  query computes its answer from them, and each request may fail, which a
  flag passed to the operation says. Generated ids and clock readings are
  parameters as well.

  A query with `order(...)` returns the matching rows sorted by the key,
  rows with equal keys staying in table order; `.single()` fails unless
  exactly one row matches; an insert fails when a row with the same
  primary key exists.
 */
module ChatStorage {
  import opened Wrappers
  import Text

  /** A row of the `chats` table. */
  datatype ChatRow = ChatRow(id: string, title: string, createdAt: int, updatedAt: int)

  /** A row of the `messages` table. */
  datatype MessageRow = MessageRow(id: string, chatId: string, kind: string, content: string, createdAt: int)

  /** A message as the storage hands it out. */
  datatype Message = Message(id: string, kind: string, content: string, createdAt: int)

  /** A chat with its messages, as the storage hands it out. */
  datatype Chat = Chat(id: string, title: string, messages: seq<Message>, createdAt: int, updatedAt: int)

  /** `createChat` either throws (the insert failed) or returns the new chat. */
  datatype CreateOutcome = CreateThrew | Created(chat: Chat)

  /** The first message of every new chat. */
  const Greeting: string :=
    "Hello! I'm your AI coding assistant. I can help you generate, modify, and explain code. What would you like to work on?"

  // ---------------------------------------------------------------------
  // `order(key, { ascending: true })`: a stable sort on an integer key.
  // ---------------------------------------------------------------------

  /** `rows` is in ascending order of `key`. */
  ghost predicate SortedBy<T>(rows: seq<T>, key: T -> int) {
    forall i, j :: 0 <= i < j < |rows| ==> key(rows[i]) <= key(rows[j])
  }

  /** `r` placed into sorted rows in front of the first row whose key is not
      smaller: before rows with an equal key, which came after it. */
  function Insert<T>(r: T, sorted: seq<T>, key: T -> int): (out: seq<T>)
    ensures multiset(out) == multiset(sorted) + multiset{r}
    ensures |out| == |sorted| + 1
    decreases |sorted|
  {
    if sorted == [] || key(r) <= key(sorted[0]) then [r] + sorted
    else
      assert sorted == [sorted[0]] + sorted[1..];
      [sorted[0]] + Insert(r, sorted[1..], key)
  }

  /** A lower bound of `r` and of every sorted row bounds the insertion too. */
  lemma {:induction false} InsertBounded<T>(r: T, sorted: seq<T>, key: T -> int, b: int)
    requires b <= key(r) && forall k :: 0 <= k < |sorted| ==> b <= key(sorted[k])
    ensures forall k :: 0 <= k < |Insert(r, sorted, key)| ==> b <= key(Insert(r, sorted, key)[k])
    decreases |sorted|
  {
    if sorted != [] && key(r) > key(sorted[0]) {
      InsertBounded(r, sorted[1..], key, b);
      var rest := Insert(r, sorted[1..], key);
      assert Insert(r, sorted, key) == [sorted[0]] + rest;
    }
  }

  /** A row no larger than every row of a sorted list can go in front of it. */
  lemma SortedCons<T>(h: T, rest: seq<T>, key: T -> int)
    requires SortedBy(rest, key) && forall k :: 0 <= k < |rest| ==> key(h) <= key(rest[k])
    ensures SortedBy([h] + rest, key)
  {
    var out := [h] + rest;
    forall i, j | 0 <= i < j < |out| ensures key(out[i]) <= key(out[j]) {
      assert out[j] == rest[j - 1];
      if i > 0 {
        assert out[i] == rest[i - 1];
      }
    }
  }

  /** Insertion keeps the rows sorted. */
  lemma {:induction false} InsertSorted<T>(r: T, sorted: seq<T>, key: T -> int)
    requires SortedBy(sorted, key)
    ensures SortedBy(Insert(r, sorted, key), key)
    decreases |sorted|
  {
    if sorted == [] || key(r) <= key(sorted[0]) {
      SortedCons(r, sorted, key);
    } else {
      var tail := sorted[1..];
      assert SortedBy(tail, key) by {
        forall i, j | 0 <= i < j < |tail| ensures key(tail[i]) <= key(tail[j]) {
          assert tail[i] == sorted[i + 1] && tail[j] == sorted[j + 1];
        }
      }
      InsertSorted(r, tail, key);
      assert forall k :: 0 <= k < |tail| ==> key(sorted[0]) <= key(tail[k]) by {
        forall k | 0 <= k < |tail| ensures key(sorted[0]) <= key(tail[k]) {
          assert tail[k] == sorted[k + 1];
        }
      }
      InsertBounded(r, tail, key, key(sorted[0]));
      SortedCons(sorted[0], Insert(r, tail, key), key);
    }
  }

  /** The rows in ascending order of `key`, ties in table order. */
  function SortBy<T>(rows: seq<T>, key: T -> int): (out: seq<T>)
    ensures multiset(out) == multiset(rows) && |out| == |rows|
    decreases |rows|
  {
    if rows == [] then []
    else
      assert rows == [rows[0]] + rows[1..];
      Insert(rows[0], SortBy(rows[1..], key), key)
  }

  /** The sort's output is sorted. */
  lemma {:induction false} SortBySorted<T>(rows: seq<T>, key: T -> int)
    ensures SortedBy(SortBy(rows, key), key)
    decreases |rows|
  {
    if rows != [] {
      SortBySorted(rows[1..], key);
      InsertSorted(rows[0], SortBy(rows[1..], key), key);
    }
  }

  /** The key of `order('updated_at', { ascending: false })`. */
  function NewestFirst(r: ChatRow): int {
    -r.updatedAt
  }

  /** The key of `order('created_at', { ascending: true })`. */
  function OldestFirst(r: MessageRow): int {
    r.createdAt
  }

  // ---------------------------------------------------------------------
  // Row selections and the row-to-record maps.
  // ---------------------------------------------------------------------

  /** The ids of the given chat rows, in order (`chatsData.map(chat => chat.id)`). */
  function IdsOf(rows: seq<ChatRow>): (ids: seq<string>)
    ensures |ids| == |rows| && forall k :: 0 <= k < |rows| ==> ids[k] == rows[k].id
  {
    seq(|rows|, k requires 0 <= k < |rows| => rows[k].id)
  }

  /** The message rows whose chat is one of `ids` (`.in('chat_id', ids)`), in table order. */
  function RowsIn(rows: seq<MessageRow>, ids: seq<string>): (out: seq<MessageRow>)
    ensures forall m :: m in out <==> m in rows && m.chatId in ids
    decreases |rows|
  {
    if rows == [] then []
    else (if rows[0].chatId in ids then [rows[0]] else []) + RowsIn(rows[1..], ids)
  }

  /** A message row as a message record. */
  function ToMessage(r: MessageRow): Message {
    Message(r.id, r.kind, r.content, r.createdAt)
  }

  /** The messages of the rows with the given chat id, in row order. */
  function ForChat(rows: seq<MessageRow>, chatId: string): (out: seq<Message>)
    ensures |out| <= |rows|
    ensures forall r :: r in rows && r.chatId == chatId ==> ToMessage(r) in out
    ensures forall m :: m in out ==> exists r :: r in rows && r.chatId == chatId && m == ToMessage(r)
    decreases |rows|
  {
    if rows == [] then []
    else
      var last := rows[|rows| - 1];
      ForChat(rows[..|rows| - 1], chatId) + (if last.chatId == chatId then [ToMessage(last)] else [])
  }

  /** Rows of other chats contribute nothing. */
  lemma {:induction false} ForChatOthers(rows: seq<MessageRow>, chatId: string)
    requires forall k :: 0 <= k < |rows| ==> rows[k].chatId != chatId
    ensures ForChat(rows, chatId) == []
    decreases |rows|
  {
    if rows != [] {
      ForChatOthers(rows[..|rows| - 1], chatId);
    }
  }

  /** A chat row with the given messages. */
  function ToChat(r: ChatRow, messages: seq<Message>): Chat {
    Chat(r.id, r.title, messages, r.createdAt, r.updatedAt)
  }

  /** `.single()`: the one row, or a failure when there are none or several. */
  function Single<T>(rows: seq<T>): (r: Option<T>)
    ensures r.Some? <==> |rows| == 1
    ensures r.Some? ==> r.value == rows[0]
  {
    if |rows| == 1 then Some(rows[0]) else None
  }

  /** The chat rows with the given id. */
  function ChatRowsWithId(rows: seq<ChatRow>, id: string): (out: seq<ChatRow>)
    ensures forall r :: r in out <==> r in rows && r.id == id
    decreases |rows|
  {
    if rows == [] then []
    else (if rows[0].id == id then [rows[0]] else []) + ChatRowsWithId(rows[1..], id)
  }

  /** The message rows with the given chat id (`.eq('chat_id', id)`). */
  function MessageRowsOf(rows: seq<MessageRow>, chatId: string): (out: seq<MessageRow>)
    ensures forall r :: r in out <==> r in rows && r.chatId == chatId
    decreases |rows|
  {
    if rows == [] then []
    else (if rows[0].chatId == chatId then [rows[0]] else []) + MessageRowsOf(rows[1..], chatId)
  }

  /** No two rows share an id. */
  predicate UniqueChatIds(rows: seq<ChatRow>) {
    forall i, j :: 0 <= i < j < |rows| ==> rows[i].id != rows[j].id
  }

  /** No two message rows share an id. */
  predicate UniqueMessageIds(rows: seq<MessageRow>) {
    forall i, j :: 0 <= i < j < |rows| ==> rows[i].id != rows[j].id
  }

  /** The chat rows after `UPDATE chats SET updated_at = now WHERE id = chatId`. */
  function Touch(rows: seq<ChatRow>, chatId: string, now: int): (out: seq<ChatRow>)
    ensures |out| == |rows|
    ensures forall k :: 0 <= k < |rows| ==>
      out[k] == if rows[k].id == chatId then rows[k].(updatedAt := now) else rows[k]
    decreases |rows|
  {
    if rows == [] then []
    else [if rows[0].id == chatId then rows[0].(updatedAt := now) else rows[0]] + Touch(rows[1..], chatId, now)
  }

  /** The chat rows after a rename that also stamps the time. */
  function Rename(rows: seq<ChatRow>, chatId: string, title: string, now: int): (out: seq<ChatRow>)
    ensures |out| == |rows|
    ensures forall k :: 0 <= k < |rows| ==>
      out[k] == if rows[k].id == chatId then rows[k].(title := title, updatedAt := now) else rows[k]
    decreases |rows|
  {
    if rows == [] then []
    else
      var head := if rows[0].id == chatId then rows[0].(title := title, updatedAt := now) else rows[0];
      [head] + Rename(rows[1..], chatId, title, now)
  }

  /** The chat rows without those with the given id. */
  function DropChat(rows: seq<ChatRow>, chatId: string): (out: seq<ChatRow>)
    ensures forall r :: r in out <==> r in rows && r.id != chatId
    ensures |out| <= |rows|
    decreases |rows|
  {
    if rows == [] then []
    else (if rows[0].id == chatId then [] else [rows[0]]) + DropChat(rows[1..], chatId)
  }

  /** Stamping the time keeps the ids, so it keeps them unique. */
  lemma TouchKeepsIds(rows: seq<ChatRow>, chatId: string, now: int)
    requires UniqueChatIds(rows)
    ensures UniqueChatIds(Touch(rows, chatId, now))
  {
    var out := Touch(rows, chatId, now);
    assert forall k :: 0 <= k < |rows| ==> out[k].id == rows[k].id;
  }

  /** Dropping rows keeps the remaining ids unique. */
  lemma {:induction false} DropKeepsIds(rows: seq<ChatRow>, chatId: string)
    requires UniqueChatIds(rows)
    ensures UniqueChatIds(DropChat(rows, chatId))
    decreases |rows|
  {
    if rows != [] {
      DropKeepsIds(rows[1..], chatId);
      var rest := DropChat(rows[1..], chatId);
      if rows[0].id != chatId {
        forall j | 0 <= j < |rest| ensures rest[j].id != rows[0].id {
          assert rest[j] in rows[1..];
        }
      }
    }
  }

  // ---------------------------------------------------------------------
  // The finding: `updateChat` stamps the time and drops the title.
  // ---------------------------------------------------------------------

  /** As written, `updateChat` never changes a title: a rename of the chat
      "a" from "Old" to "New" leaves it "Old". */
  lemma UpdateLosesTitle()
    ensures Touch([ChatRow("a", "Old", 0, 0)], "a", 5) == [ChatRow("a", "Old", 0, 5)]
    ensures Touch([ChatRow("a", "Old", 0, 0)], "a", 5)[0].title != "New"
  {
    var out := Touch([ChatRow("a", "Old", 0, 0)], "a", 5);
    assert out[0] == ChatRow("a", "Old", 0, 5);
  }

  /** The rename the title argument asks for: the chat with the id takes
      the new title and the time, and no other row changes. */
  lemma RenameSetsTitle(rows: seq<ChatRow>, chatId: string, title: string, now: int)
    requires UniqueChatIds(rows)
    ensures UniqueChatIds(Rename(rows, chatId, title, now))
    ensures forall r :: r in Rename(rows, chatId, title, now) && r.id == chatId ==> r.title == title && r.updatedAt == now
    ensures forall k :: 0 <= k < |rows| && rows[k].id != chatId ==> Rename(rows, chatId, title, now)[k] == rows[k]
  {
    var out := Rename(rows, chatId, title, now);
    assert forall k :: 0 <= k < |rows| ==> out[k].id == rows[k].id;
  }

  // ---------------------------------------------------------------------
  // The storage.
  // ---------------------------------------------------------------------

  /** The group of a chat id in the accumulator (`acc[id] || []`). */
  function Group(acc: map<string, seq<Message>>, id: string): seq<Message> {
    if id in acc then acc[id] else []
  }

  /** The reduce of `getAllChats`: a group for each chat that has rows, and
      for every chat id, its group is the messages of its rows in row order. */
  method GroupByChat(rows: seq<MessageRow>) returns (acc: map<string, seq<Message>>)
    ensures forall id :: id in acc <==> ForChat(rows, id) != []
    ensures forall id :: Group(acc, id) == ForChat(rows, id)
  {
    acc := map[];
    var i := 0;
    while i < |rows|
      invariant 0 <= i <= |rows|
      invariant forall id :: id in acc ==> acc[id] != []
      invariant forall id :: Group(acc, id) == ForChat(rows[..i], id)
    {
      var r := rows[i];
      ghost var prev := acc;
      if r.chatId !in acc {
        acc := acc[r.chatId := []];
      }
      acc := acc[r.chatId := acc[r.chatId] + [ToMessage(r)]];
      GroupStep(rows, i, prev, acc);
      i := i + 1;
    }
    assert rows[..i] == rows;
  }

  /** One step of the grouping loop: appending row `i` to its chat's group
      keeps each group equal to the messages of its chat so far. */
  lemma GroupStep(rows: seq<MessageRow>, i: nat, prev: map<string, seq<Message>>, acc: map<string, seq<Message>>)
    requires i < |rows|
    requires forall id :: Group(prev, id) == ForChat(rows[..i], id)
    requires acc == prev[rows[i].chatId := Group(prev, rows[i].chatId) + [ToMessage(rows[i])]]
    ensures forall id :: Group(acc, id) == ForChat(rows[..i + 1], id)
  {
    forall id ensures Group(acc, id) == ForChat(rows[..i + 1], id) {
      ForChatStep(rows, i, id);
    }
  }

  /** The messages of a chat over one more row. */
  lemma ForChatStep(rows: seq<MessageRow>, i: nat, id: string)
    requires i < |rows|
    ensures ForChat(rows[..i + 1], id)
      == ForChat(rows[..i], id) + (if rows[i].chatId == id then [ToMessage(rows[i])] else [])
  {
    assert rows[..i + 1][..i] == rows[..i];
  }

  /** The chats and messages tables. */
  class Storage {
    var chats: seq<ChatRow>
    var messages: seq<MessageRow>

    /** Primary keys are unique in both tables. */
    predicate Valid()
      reads this
    {
      UniqueChatIds(chats) && UniqueMessageIds(messages)
    }

    /** Storage over the given tables. */
    constructor(chatRows: seq<ChatRow>, messageRows: seq<MessageRow>)
      requires UniqueChatIds(chatRows) && UniqueMessageIds(messageRows)
      ensures chats == chatRows && messages == messageRows && Valid()
    {
      chats := chatRows;
      messages := messageRows;
    }

    /** `getAllChats`: every chat, most recently updated first, each with
        the fetched messages of its chat oldest first (none when it has
        none); `[]` when the chats query fails; every chat with no messages
        when the messages query fails. */
    method GetAllChats(chatsFail: bool, messagesFail: bool) returns (r: seq<Chat>)
      ensures chatsFail ==> r == []
      ensures !chatsFail ==> |r| == |chats| && forall k :: 0 <= k < |r| ==>
        r[k] == ToChat(SortBy(chats, NewestFirst)[k],
                       if messagesFail then [] else ForChat(FetchedMessages(chats, messages), r[k].id))
      ensures !chatsFail ==> forall i, j :: 0 <= i < j < |r| ==> r[i].updatedAt >= r[j].updatedAt
    {
      if chatsFail {
        return [];
      }
      var chatsData := SortBy(chats, NewestFirst);
      SortBySorted(chats, NewestFirst);
      if messagesFail {
        r := seq(|chatsData|, k requires 0 <= k < |chatsData| => ToChat(chatsData[k], []));
      } else {
        var messagesData := SortBy(RowsIn(messages, IdsOf(chatsData)), OldestFirst);
        var byChat := GroupByChat(messagesData);
        r := seq(|chatsData|, k requires 0 <= k < |chatsData| =>
          ToChat(chatsData[k], if chatsData[k].id in byChat then byChat[chatsData[k].id] else []));
      }
      assert forall i, j :: 0 <= i < j < |r| ==> NewestFirst(chatsData[i]) <= NewestFirst(chatsData[j]);
    }

    /** `getMessagesForChat`: the chat's messages oldest first, `[]` on failure. */
    method GetMessagesForChat(chatId: string, fail: bool) returns (r: seq<Message>)
      ensures fail ==> r == []
      ensures !fail ==> r == ForChat(SortBy(MessageRowsOf(messages, chatId), OldestFirst), chatId)
    {
      if fail {
        return [];
      }
      r := ForChat(SortBy(MessageRowsOf(messages, chatId), OldestFirst), chatId);
    }

    /** `getChat`: the chat with its messages, or nothing when the lookup
        fails or does not find exactly one row. */
    method GetChat(chatId: string, chatFail: bool, messagesFail: bool) returns (r: Option<Chat>)
      ensures chatFail || |ChatRowsWithId(chats, chatId)| != 1 ==> r == None
      ensures !chatFail && |ChatRowsWithId(chats, chatId)| == 1 ==>
        r == Some(ToChat(ChatRowsWithId(chats, chatId)[0],
                         if messagesFail then [] else ForChat(SortBy(MessageRowsOf(messages, chatId), OldestFirst), chatId)))
        && r.value.id == chatId && ChatRowsWithId(chats, chatId)[0] in chats
    {
      var row := Single(ChatRowsWithId(chats, chatId));
      if chatFail || row.None? {
        return None;
      }
      assert row.value in ChatRowsWithId(chats, chatId);
      var msgs := GetMessagesForChat(chatId, messagesFail);
      r := Some(ToChat(row.value, msgs));
    }

    /** `addMessage`: a new row stamped `now` for the chat, which gets
        `now` as its update time unless that second write fails; nothing
        changes and nothing is returned when the insert fails. */
    method AddMessage(chatId: string, kind: string, content: string, newId: string, now: int,
                      insertFail: bool, touchFail: bool) returns (r: Option<Message>)
      requires Valid()
      modifies this
      ensures Valid()
      ensures var fails := insertFail || exists k :: 0 <= k < |old(messages)| && old(messages)[k].id == newId;
        (fails ==> r == None && chats == old(chats) && messages == old(messages))
        && (!fails ==> (
          && r == Some(Message(newId, kind, content, now))
          && messages == old(messages) + [MessageRow(newId, chatId, kind, content, now)]
          && chats == if touchFail then old(chats) else Touch(old(chats), chatId, now)))
    {
      if insertFail || exists k :: 0 <= k < |messages| && messages[k].id == newId {
        return None;
      }
      messages := messages + [MessageRow(newId, chatId, kind, content, now)];
      if !touchFail {
        TouchKeepsIds(chats, chatId, now);
        chats := Touch(chats, chatId, now);
      }
      r := Some(Message(newId, kind, content, now));
    }

    /** `createChat`: a row with the given title, or "Chat " and the local
        time when the title is absent or empty, stamped `now` for both times;
        then the greeting through `addMessage`. The returned chat keeps
        the insert's times and holds the greeting only when it was stored. */
    method CreateChat(title: Option<string>, newId: string, now: int, localTime: string,
                      greetingId: string, now2: int, insertFail: bool, greetingFail: bool, touchFail: bool)
      returns (r: CreateOutcome)
      requires Valid()
      modifies this
      ensures Valid()
      ensures var chosen := if title.Some? && title.value != "" then title.value else "Chat " + localTime;
        var fails := insertFail || exists k :: 0 <= k < |old(chats)| && old(chats)[k].id == newId;
        var stored := !greetingFail && forall k :: 0 <= k < |old(messages)| ==> old(messages)[k].id != greetingId;
        var row := ChatRow(newId, chosen, now, now);
        (fails ==> r == CreateThrew && chats == old(chats) && messages == old(messages))
        && (!fails ==> (
          && r == Created(Chat(newId, chosen, if stored then [Message(greetingId, "assistant", Greeting, now2)] else [], now, now))
          && messages == old(messages) + (if stored then [MessageRow(greetingId, newId, "assistant", Greeting, now2)] else [])
          && chats == if stored && !touchFail then Touch(old(chats) + [row], newId, now2) else old(chats) + [row]))
    {
      var chosen := if title.Some? && title.value != "" then title.value else "Chat " + localTime;
      if insertFail || exists k :: 0 <= k < |chats| && chats[k].id == newId {
        return CreateThrew;
      }
      var row := ChatRow(newId, chosen, now, now);
      chats := chats + [row];
      var greeting := AddMessage(newId, "assistant", Greeting, greetingId, now2, greetingFail, touchFail);
      r := Created(ToChat(row, if greeting.Some? then [greeting.value] else []));
    }

    /** `updateChat`, as written: only the update time of the chat changes;
        the title in `updates` is not written. Nothing when the update fails
        or does not find exactly one row. */
    method UpdateChat(chatId: string, updates: Option<string>, now: int, fail: bool, messagesFail: bool)
      returns (r: Option<Chat>)
      requires Valid()
      modifies this
      ensures Valid() && messages == old(messages)
      ensures var found := |ChatRowsWithId(old(chats), chatId)| == 1;
        (fail || !found ==> r == None && chats == old(chats))
        && (!fail && found ==> (
          && chats == Touch(old(chats), chatId, now)
          && r == Some(ToChat(ChatRowsWithId(old(chats), chatId)[0].(updatedAt := now),
                              if messagesFail then [] else ForChat(SortBy(MessageRowsOf(messages, chatId), OldestFirst), chatId)))))
    {
      var matching := ChatRowsWithId(chats, chatId);
      if fail || |matching| != 1 {
        return None;
      }
      var before := matching[0];
      TouchKeepsIds(chats, chatId, now);
      chats := Touch(chats, chatId, now);
      var msgs := GetMessagesForChat(chatId, messagesFail);
      r := Some(ToChat(before.(updatedAt := now), msgs));
    }

    /** The rename `updateChat` was evidently meant to perform: like it, but
        the chat also takes the new title. */
    method RenameChat(chatId: string, title: string, now: int, fail: bool, messagesFail: bool)
      returns (r: Option<Chat>)
      requires Valid()
      modifies this
      ensures Valid() && messages == old(messages)
      ensures var found := |ChatRowsWithId(old(chats), chatId)| == 1;
        (fail || !found ==> r == None && chats == old(chats))
        && (!fail && found ==> (
          && chats == Rename(old(chats), chatId, title, now)
          && r.Some? && r.value.id == chatId && r.value.title == title && r.value.updatedAt == now))
    {
      var matching := ChatRowsWithId(chats, chatId);
      if fail || |matching| != 1 {
        return None;
      }
      RenameSetsTitle(chats, chatId, title, now);
      assert matching[0] in matching;
      chats := Rename(chats, chatId, title, now);
      var msgs := GetMessagesForChat(chatId, messagesFail);
      r := Some(ToChat(matching[0].(title := title, updatedAt := now), msgs));
    }

    /** `deleteChat`: true exactly when the delete reported no error, whether
        or not a row matched; the chat's rows are gone then. */
    method DeleteChat(chatId: string, fail: bool) returns (deleted: bool)
      requires Valid()
      modifies this
      ensures Valid() && messages == old(messages)
      ensures deleted == !fail
      ensures chats == if fail then old(chats) else DropChat(old(chats), chatId)
    {
      if fail {
        return false;
      }
      DropKeepsIds(chats, chatId);
      chats := DropChat(chats, chatId);
      deleted := true;
    }
  }

  /** The rows the messages query of `getAllChats` returns: those of the
      listed chats, oldest first. */
  function FetchedMessages(chats: seq<ChatRow>, messages: seq<MessageRow>): seq<MessageRow> {
    SortBy(RowsIn(messages, IdsOf(SortBy(chats, NewestFirst))), OldestFirst)
  }
}
