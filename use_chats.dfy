/**
  The client-side chat store (`useChats`): the list of chats, the chat on
  screen and the loading flag, and the operations that change them from
  the server's replies. Each network reply is a parameter describing what
  the server sent; clock readings (`Date.now()`) are parameters too.

  `sendMessage` reads the chat on screen once, when it is called; every
  later change to the chat on screen is guarded by that snapshot's id, and
  applies the React updater to whatever the state holds at that moment.
 */
module UseChats {
  import opened Wrappers
  import Text
  import FenceExtract

  /** A message as the client holds it; `kind` is the stored `type`. */
  datatype Message = Message(id: string, kind: string, content: string, timestamp: nat)

  /** A chat with its messages in display order. */
  datatype Chat = Chat(id: string, title: string, messages: seq<Message>, createdAt: nat, updatedAt: nat)

  /** The role of a message in the history posted to the model. */
  datatype Role = User | Assistant

  /** One entry of the history posted to `/api/chat`. */
  datatype ApiMessage = ApiMessage(id: string, role: Role, content: string)

  /** What `sendMessage` resolves to on success: the two new messages and the
      extracted code. */
  datatype SendResult = SendResult(messages: seq<Message>, generatedCode: Option<string>)

  /** The reply to `GET /api/chats`: the request or the JSON parse threw, or
      the body's `chats` field (absent or `null` as `None`). */
  datatype ListReply = ListThrows | ListBody(chats: Option<seq<Chat>>)

  /** The reply to a request answered with one chat (`POST /api/chats`,
      `GET`/`PUT /api/chats/:id`): it threw, or it came with a status and a chat. */
  datatype ChatReply = ChatThrows | ChatBody(ok: bool, chat: Chat)

  /** The reply to `DELETE /api/chats/:id`. */
  datatype DeleteReply = DeleteThrows | DeleteStatus(ok: bool)

  /** The reply to `POST /api/chat`: the request threw, or a status with a
      body (`hasBody`) streamed as already-decoded chunks, after which a
      further read may throw (`readFails`). */
  datatype StreamReply =
    | NetworkError
    | Response(ok: bool, hasBody: bool, chunks: seq<string>, readFails: bool)

  /** The fixed text of the error message appended when sending fails. */
  const Apology: string := "Sorry, I encountered an error. Please try again."

  // ---------------------------------------------------------------------
  // Pure projections and list updaters.
  // ---------------------------------------------------------------------

  /** The role a stored message plays in the model history. */
  function RoleOf(kind: string): (r: Role)
    ensures r == User <==> kind == "user"
  {
    if kind == "user" then User else Assistant
  }

  /** `msgs.map(msg => ({ id, role, content }))`. */
  function ToApi(msgs: seq<Message>): (r: seq<ApiMessage>)
    ensures |r| == |msgs|
    ensures forall k :: 0 <= k < |msgs| ==>
      r[k].id == msgs[k].id && r[k].content == msgs[k].content && (r[k].role == User <==> msgs[k].kind == "user")
    decreases |msgs|
  {
    if msgs == [] then []
    else [ApiMessage(msgs[0].id, RoleOf(msgs[0].kind), msgs[0].content)] + ToApi(msgs[1..])
  }

  /** The history posted to the model: the snapshot's messages (none when no
      chat is on screen) followed by the new user message. */
  function History(snapshot: Option<Chat>, user: Message): (h: seq<ApiMessage>)
    ensures |h| == (if snapshot.Some? then |snapshot.value.messages| else 0) + 1
    ensures h[|h| - 1] == ApiMessage(user.id, RoleOf(user.kind), user.content)
  {
    var previous := if snapshot.Some? then snapshot.value.messages else [];
    ToApi(previous + [user])
  }

  /** The updater of `updateChat`: every chat with the id becomes `c`. */
  function ReplaceById(chats: seq<Chat>, id: string, c: Chat): (r: seq<Chat>)
    ensures |r| == |chats|
    ensures forall k :: 0 <= k < |chats| ==> r[k] == if chats[k].id == id then c else chats[k]
    decreases |chats|
  {
    if chats == [] then []
    else [if chats[0].id == id then c else chats[0]] + ReplaceById(chats[1..], id, c)
  }

  /** The updater of `deleteChat`: the chats whose id differs. */
  function RemoveById(chats: seq<Chat>, id: string): (r: seq<Chat>)
    ensures |r| <= |chats|
    ensures forall x :: x in r <==> x in chats && x.id != id
    decreases |chats|
  {
    if chats == [] then []
    else (if chats[0].id == id then [] else [chats[0]]) + RemoveById(chats[1..], id)
  }

  /** Removing from a concatenation removes from each part: the kept chats
      stay in their original relative order. */
  lemma {:induction false} RemoveByIdAppend(a: seq<Chat>, b: seq<Chat>, id: string)
    ensures RemoveById(a + b, id) == RemoveById(a, id) + RemoveById(b, id)
    decreases |a|
  {
    if a == [] {
      assert a + b == b;
    } else {
      assert (a + b)[0] == a[0];
      assert (a + b)[1..] == a[1..] + b;
      RemoveByIdAppend(a[1..], b, id);
    }
  }

  /** Removing an id no chat has changes nothing. */
  lemma {:induction false} RemoveAbsentId(chats: seq<Chat>, id: string)
    requires forall k :: 0 <= k < |chats| ==> chats[k].id != id
    ensures RemoveById(chats, id) == chats
    decreases |chats|
  {
    if chats != [] {
      RemoveAbsentId(chats[1..], id);
    }
  }

  /** The updater of each streamed chunk: every message with the id gets the
      accumulated content. */
  function RewriteById(msgs: seq<Message>, id: string, content: string): (r: seq<Message>)
    ensures |r| == |msgs|
    ensures forall k :: 0 <= k < |msgs| ==>
      r[k] == if msgs[k].id == id then msgs[k].(content := content) else msgs[k]
    decreases |msgs|
  {
    if msgs == [] then []
    else [if msgs[0].id == id then msgs[0].(content := content) else msgs[0]] + RewriteById(msgs[1..], id, content)
  }

  /** A later rewrite of the same id overrides an earlier one. */
  lemma RewriteTwice(msgs: seq<Message>, id: string, a: string, b: string)
    ensures RewriteById(RewriteById(msgs, id, a), id, b) == RewriteById(msgs, id, b)
  {
    var once := RewriteById(msgs, id, a);
    var twice := RewriteById(once, id, b);
    assert forall k :: 0 <= k < |msgs| ==> twice[k] == RewriteById(msgs, id, b)[k];
  }

  /** Rewriting an id only the last message carries changes that message alone. */
  lemma RewriteFreshLast(msgs: seq<Message>, m: Message, content: string)
    requires forall k :: 0 <= k < |msgs| ==> msgs[k].id != m.id
    ensures RewriteById(msgs + [m], m.id, content) == msgs + [m.(content := content)]
  {
    var r := RewriteById(msgs + [m], m.id, content);
    assert forall k :: 0 <= k < |msgs| ==> r[k] == (msgs + [m])[k] == msgs[k];
  }

  /** The updater `prev => prev ? { ...prev, messages: [...prev.messages, m] } : null`. */
  function AppendTo(prev: Option<Chat>, m: Message): (r: Option<Chat>)
    ensures r.Some? <==> prev.Some?
    ensures r.Some? ==> r.value == prev.value.(messages := prev.value.messages + [m])
  {
    match prev
    case None => None
    case Some(c) => Some(c.(messages := c.messages + [m]))
  }

  /** The per-chunk updater applied to the chat on screen. */
  function RewriteIn(prev: Option<Chat>, id: string, content: string): Option<Chat> {
    match prev
    case None => None
    case Some(c) => Some(c.(messages := RewriteById(c.messages, id, content)))
  }

  // ---------------------------------------------------------------------
  // The send cycle as a function of the snapshot and the reply.
  // ---------------------------------------------------------------------

  /** The chunks joined in order (`assistantContent` after them). */
  function Concat(chunks: seq<string>): string
    decreases |chunks|
  {
    if chunks == [] then "" else Concat(chunks[..|chunks| - 1]) + chunks[|chunks| - 1]
  }

  /** The text received so far is a prefix of the text received in the end. */
  lemma {:induction false} ConcatPrefix(chunks: seq<string>, k: nat)
    requires k <= |chunks|
    ensures Concat(chunks[..k]) <= Concat(chunks)
    decreases |chunks| - k
  {
    if k < |chunks| {
      ConcatPrefix(chunks, k + 1);
      var n := chunks[..k + 1];
      assert n[..|n| - 1] == chunks[..k];
    } else {
      assert chunks[..k] == chunks;
    }
  }

  /** The user message, stamped with the clock reading `t1`. */
  function UserMessage(content: string, t1: nat): Message {
    Message(Text.Decimal(t1), "user", content, t1)
  }

  /** The empty assistant placeholder, id one past the clock reading `t2`. */
  function Placeholder(t2: nat): Message {
    Message(Text.Decimal(t2 + 1), "assistant", "", t2)
  }

  /** The apology, id two past the clock reading `t3`. */
  function ErrorMessage(t3: nat): Message {
    Message(Text.Decimal(t3 + 2), "assistant", Apology, t3)
  }

  /** The chat on screen is the chat being sent to. */
  predicate Guard(snapshot: Option<Chat>, chatId: string) {
    snapshot.Some? && snapshot.value.id == chatId
  }

  /** The messages on screen after the chunks `done` have been read: the
      placeholder's id rewritten with their concatenation once any arrived. */
  function Streamed(msgs: seq<Message>, pid: string, done: seq<string>): seq<Message> {
    if done == [] then msgs else RewriteById(msgs, pid, Concat(done))
  }

  /** The assistant text of a reply: the chunks of an ok reply with a body. */
  function Received(reply: StreamReply): string {
    if reply.Response? && reply.ok && reply.hasBody then Concat(reply.chunks) else ""
  }

  /** The send cycle completes without throwing. */
  predicate Succeeds(reply: StreamReply) {
    reply.Response? && reply.ok && !(reply.hasBody && reply.readFails)
  }

  /** The chat on screen once `sendMessage` has finished. */
  function SendState(snapshot: Option<Chat>, chatId: string, content: string, t1: nat, t2: nat, t3: nat,
                     reply: StreamReply): (r: Option<Chat>)
    ensures !Guard(snapshot, chatId) ==> r == snapshot
    ensures Guard(snapshot, chatId) ==>
      && r.Some? && r.value.(messages := snapshot.value.messages) == snapshot.value
      && |snapshot.value.messages| + 2 <= |r.value.messages| <= |snapshot.value.messages| + 3
      && (!Succeeds(reply) ==> r.value.messages[|r.value.messages| - 1] == ErrorMessage(t3))
  {
    if !Guard(snapshot, chatId) then snapshot
    else
      var c := snapshot.value;
      var withUser := c.messages + [UserMessage(content, t1)];
      if !(reply.Response? && reply.ok) then Some(c.(messages := withUser + [ErrorMessage(t3)]))
      else
        var p := Placeholder(t2);
        var shown := if reply.hasBody then Streamed(withUser + [p], p.id, reply.chunks) else withUser + [p];
        if Succeeds(reply) then Some(c.(messages := shown))
        else Some(c.(messages := shown + [ErrorMessage(t3)]))
  }

  /** What `sendMessage` resolves to: the pair of new messages and the code,
      or nothing (`undefined`) when it failed. */
  function SendReturn(content: string, t1: nat, t2: nat, reply: StreamReply): (r: Option<SendResult>)
    ensures r.Some? <==> Succeeds(reply)
    ensures r.Some? ==>
      && |r.value.messages| == 2
      && r.value.messages[0].kind == "user" && r.value.messages[0].content == content
      && r.value.messages[1].kind == "assistant" && r.value.messages[1].content == Received(reply)
      && r.value.messages[0].id == Text.Decimal(t1) && r.value.messages[1].id == Text.Decimal(t2 + 1)
  {
    if Succeeds(reply) then
      var text := Received(reply);
      Some(SendResult([UserMessage(content, t1), Placeholder(t2).(content := text)], FenceExtract.GeneratedCode(text)))
    else None
  }

  // ---------------------------------------------------------------------
  // What the send cycle promises.
  // ---------------------------------------------------------------------

  /** The history has one entry per message on screen plus the new one, ends
      with the new user message, keeps ids and contents, and gives the user
      role exactly to messages of type "user". */
  lemma HistoryShape(snapshot: Option<Chat>, chatId: string, content: string, t1: nat)
    ensures var h := History(snapshot, UserMessage(content, t1));
      var previous := if snapshot.Some? then snapshot.value.messages else [];
      && |h| == |previous| + 1
      && h[|h| - 1] == ApiMessage(Text.Decimal(t1), User, content)
      && forall k :: 0 <= k < |previous| ==>
        h[k].id == previous[k].id && h[k].content == previous[k].content
        && (h[k].role == User <==> previous[k].kind == "user")
  {
    var previous := if snapshot.Some? then snapshot.value.messages else [];
    var all := previous + [UserMessage(content, t1)];
    assert forall k :: 0 <= k < |previous| ==> all[k] == previous[k];
    assert all[|all| - 1] == UserMessage(content, t1);
  }

  /** While chunks arrive, with a placeholder id no earlier message carries,
      the placeholder shows the concatenation of the chunks read so far and
      every other message is unchanged. */
  lemma PlaceholderTracksChunks(msgs: seq<Message>, p: Message, chunks: seq<string>, k: nat)
    requires k <= |chunks| && p.content == ""
    requires forall j :: 0 <= j < |msgs| ==> msgs[j].id != p.id
    ensures Streamed(msgs + [p], p.id, chunks[..k]) == msgs + [p.(content := Concat(chunks[..k]))]
  {
    if chunks[..k] != [] {
      RewriteFreshLast(msgs, p, Concat(chunks[..k]));
    }
  }

  /** Ids rendered from different clock readings differ, so the placeholder
      never shares the user message's id when the clock does not go back. */
  lemma FreshIds(t1: nat, t2: nat)
    requires t1 <= t2
    ensures UserMessage("", t1).id != Placeholder(t2).id
  {
    Text.DecimalInjective(t1, t2 + 1);
  }

  /** A send to a chat other than the one on screen leaves the screen alone. */
  lemma OtherChatUntouched(snapshot: Option<Chat>, chatId: string, content: string, t1: nat, t2: nat, t3: nat,
                           reply: StreamReply)
    requires !Guard(snapshot, chatId)
    ensures SendState(snapshot, chatId, content, t1, t2, t3, reply) == snapshot
  {
  }

  /** A successful send to the chat on screen, whose messages do not carry the
      placeholder's id, appends the user message and the assistant message
      holding the whole received text: the same two messages it resolves to. */
  lemma SendAppendsPair(c: Chat, content: string, t1: nat, t2: nat, t3: nat, reply: StreamReply)
    requires Succeeds(reply) && t1 <= t2
    requires forall j :: 0 <= j < |c.messages| ==> c.messages[j].id != Placeholder(t2).id
    ensures SendReturn(content, t1, t2, reply).Some?
    ensures SendState(Some(c), c.id, content, t1, t2, t3, reply)
      == Some(c.(messages := c.messages + SendReturn(content, t1, t2, reply).value.messages))
  {
    var user := UserMessage(content, t1);
    var p := Placeholder(t2);
    var withUser := c.messages + [user];
    FreshIds(t1, t2);
    assert forall j :: 0 <= j < |withUser| ==> withUser[j].id != p.id;
    if reply.hasBody {
      PlaceholderTracksChunks(withUser, p, reply.chunks, |reply.chunks|);
      assert reply.chunks[..|reply.chunks|] == reply.chunks;
    } else {
      assert p.(content := Received(reply)) == p;
    }
    assert withUser + [p.(content := Received(reply))] == c.messages + [user, p.(content := Received(reply))];
  }

  /** A failed send to the chat on screen, whose messages do not carry the
      placeholder's id, appends the user message, the placeholder with what
      had arrived when the response was ok, and exactly one apology last. */
  lemma SendFailureAppendsApology(c: Chat, content: string, t1: nat, t2: nat, t3: nat, reply: StreamReply)
    requires !Succeeds(reply) && t1 <= t2
    requires forall j :: 0 <= j < |c.messages| ==> c.messages[j].id != Placeholder(t2).id
    ensures SendReturn(content, t1, t2, reply).None?
    ensures SendState(Some(c), c.id, content, t1, t2, t3, reply)
      == Some(c.(messages := c.messages + [UserMessage(content, t1)]
                 + (if reply.Response? && reply.ok then [Placeholder(t2).(content := Received(reply))] else [])
                 + [ErrorMessage(t3)]))
  {
    var user := UserMessage(content, t1);
    var p := Placeholder(t2);
    var withUser := c.messages + [user];
    if reply.Response? && reply.ok {
      FreshIds(t1, t2);
      assert forall j :: 0 <= j < |withUser| ==> withUser[j].id != p.id;
      PlaceholderTracksChunks(withUser, p, reply.chunks, |reply.chunks|);
      assert reply.chunks[..|reply.chunks|] == reply.chunks;
      var shown := withUser + [p.(content := Received(reply))];
      assert shown + [ErrorMessage(t3)] == c.messages + [user] + [p.(content := Received(reply))] + [ErrorMessage(t3)];
    } else {
      assert withUser + [ErrorMessage(t3)] == c.messages + [user] + [] + [ErrorMessage(t3)];
    }
  }

  /** The code a successful send resolves to is absent exactly when the
      received text holds no closed pair of triple backticks. */
  lemma SendCodeIffClosedPair(content: string, t1: nat, t2: nat, reply: StreamReply)
    requires Succeeds(reply)
    ensures SendReturn(content, t1, t2, reply).value.generatedCode.None?
      <==> FenceExtract.NoClosedPairFrom(Received(reply), 0)
  {
    FenceExtract.NoCodeIffNoClosedPair(Received(reply));
  }

  // ---------------------------------------------------------------------
  // The store.
  // ---------------------------------------------------------------------

  /** The hook's state: the chat list, the chat on screen and the loading flag. */
  class ChatStore {
    var chats: seq<Chat>
    var currentChat: Option<Chat>
    var isLoading: bool

    /** The initial state: no chats, nothing on screen, not loading. */
    constructor()
      ensures chats == [] && currentChat == None && !isLoading
    {
      chats := [];
      currentChat := None;
      isLoading := false;
    }

    /** `fetchChats`: the list becomes the body's `chats` or `[]`, whatever
        the status; a thrown request leaves everything as it was. */
    method FetchChats(reply: ListReply)
      modifies this
      ensures reply.ListBody? ==> chats == reply.chats.GetOr([])
      ensures reply.ListThrows? ==> chats == old(chats)
      ensures currentChat == old(currentChat) && isLoading == old(isLoading)
    {
      if reply.ListBody? {
        chats := reply.chats.GetOr([]);
      }
    }

    /** `createChat`: on an ok reply the new chat goes to the front of the
        list, the others keep their order, and it is put on screen. */
    method CreateChat(reply: ChatReply) returns (r: Option<Chat>)
      modifies this
      ensures reply.ChatBody? && reply.ok ==>
        chats == [reply.chat] + old(chats) && currentChat == Some(reply.chat) && r == Some(reply.chat)
      ensures !(reply.ChatBody? && reply.ok) ==>
        chats == old(chats) && currentChat == old(currentChat) && r == None
      ensures !isLoading
    {
      isLoading := true;
      r := None;
      if reply.ChatBody? && reply.ok {
        chats := [reply.chat] + chats;
        currentChat := Some(reply.chat);
        r := Some(reply.chat);
      }
      isLoading := false;
    }

    /** `loadChat`: on an ok reply the chat is put on screen; the list is not touched. */
    method LoadChat(reply: ChatReply) returns (r: Option<Chat>)
      modifies this
      ensures reply.ChatBody? && reply.ok ==> currentChat == Some(reply.chat) && r == Some(reply.chat)
      ensures !(reply.ChatBody? && reply.ok) ==> currentChat == old(currentChat) && r == None
      ensures chats == old(chats) && !isLoading
    {
      isLoading := true;
      r := None;
      if reply.ChatBody? && reply.ok {
        currentChat := Some(reply.chat);
        r := Some(reply.chat);
      }
      isLoading := false;
    }

    /** `updateChat`: on an ok reply every listed chat with the id is
        replaced by the reply's chat, positions kept, and the chat on screen
        is replaced only when it has that id. */
    method UpdateChat(chatId: string, reply: ChatReply)
      modifies this
      ensures reply.ChatBody? && reply.ok ==> chats == ReplaceById(old(chats), chatId, reply.chat)
      ensures reply.ChatBody? && reply.ok && Guard(old(currentChat), chatId) ==> currentChat == Some(reply.chat)
      ensures !(reply.ChatBody? && reply.ok && Guard(old(currentChat), chatId)) ==> currentChat == old(currentChat)
      ensures !(reply.ChatBody? && reply.ok) ==> chats == old(chats)
      ensures isLoading == old(isLoading)
    {
      if reply.ChatBody? && reply.ok {
        chats := ReplaceById(chats, chatId, reply.chat);
        if Guard(currentChat, chatId) {
          currentChat := Some(reply.chat);
        }
      }
    }

    /** `deleteChat`: on an ok status the chats with the id leave the list and
        the chat on screen is cleared exactly when it has that id. */
    method DeleteChat(chatId: string, reply: DeleteReply)
      modifies this
      ensures reply.DeleteStatus? && reply.ok ==> chats == RemoveById(old(chats), chatId)
      ensures reply.DeleteStatus? && reply.ok && Guard(old(currentChat), chatId) ==> currentChat == None
      ensures !(reply.DeleteStatus? && reply.ok && Guard(old(currentChat), chatId)) ==> currentChat == old(currentChat)
      ensures !(reply.DeleteStatus? && reply.ok) ==> chats == old(chats)
      ensures isLoading == old(isLoading)
    {
      if reply.DeleteStatus? && reply.ok {
        chats := RemoveById(chats, chatId);
        if Guard(currentChat, chatId) {
          currentChat := None;
        }
      }
    }

    /** The read loop of `sendMessage`: each chunk extends the text received
        so far and, when the chat on screen is the one sent to (`guard`),
        rewrites the placeholder `pid` with that text. */
    method ReadChunks(chunks: seq<string>, pid: string, guard: bool, ghost c: Chat, ghost base: seq<Message>)
      returns (acc: string)
      requires guard ==> currentChat == Some(c.(messages := base))
      modifies this
      ensures acc == Concat(chunks)
      ensures guard ==> currentChat == Some(c.(messages := Streamed(base, pid, chunks)))
      ensures !guard ==> currentChat == old(currentChat)
      ensures chats == old(chats) && isLoading == old(isLoading)
    {
      acc := "";
      var i := 0;
      assert chunks[..0] == [];
      while i < |chunks|
        invariant 0 <= i <= |chunks|
        invariant acc == Concat(chunks[..i])
        invariant guard ==> currentChat == Some(c.(messages := Streamed(base, pid, chunks[..i])))
        invariant !guard ==> currentChat == old(currentChat)
        invariant chats == old(chats) && isLoading == old(isLoading)
      {
        assert chunks[..i + 1][..i] == chunks[..i];
        acc := acc + chunks[i];
        if guard {
          if i > 0 {
            RewriteTwice(base, pid, Concat(chunks[..i]), acc);
          }
          currentChat := RewriteIn(currentChat, pid, acc);
        }
        i := i + 1;
      }
      assert chunks[..i] == chunks;
    }

    /** `sendMessage`: posts the history, streams the reply into the
        placeholder chunk by chunk, and on any failure appends the apology.
        The list of chats is never touched and loading ends false. */
    method SendMessage(chatId: string, content: string, t1: nat, t2: nat, t3: nat, reply: StreamReply)
      returns (sent: seq<ApiMessage>, r: Option<SendResult>)
      modifies this
      ensures sent == History(old(currentChat), UserMessage(content, t1))
      ensures currentChat == SendState(old(currentChat), chatId, content, t1, t2, t3, reply)
      ensures r == SendReturn(content, t1, t2, reply)
      ensures chats == old(chats) && !isLoading
    {
      isLoading := true;
      var snapshot := currentChat;
      var guard := Guard(snapshot, chatId);
      var user := UserMessage(content, t1);
      if guard {
        currentChat := AppendTo(currentChat, user);
      }
      sent := History(snapshot, user);
      r := None;
      var failed := true;
      if reply.Response? && reply.ok {
        var p := Placeholder(t2);
        if guard {
          currentChat := AppendTo(currentChat, p);
        }
        var acc := "";
        failed := false;
        if reply.hasBody {
          ghost var c := if guard then snapshot.value else Chat("", "", [], 0, 0);
          ghost var base := if guard then snapshot.value.messages + [user, p] else [];
          assert guard ==> snapshot.value.messages + [user] + [p] == base;
          acc := ReadChunks(reply.chunks, p.id, guard, c, base);
          failed := reply.readFails;
        }
        if !failed {
          r := Some(SendResult([user, p.(content := acc)], FenceExtract.GeneratedCode(acc)));
        }
      }
      if failed && guard {
        currentChat := AppendTo(currentChat, ErrorMessage(t3));
      }
      isLoading := false;
    }
  }
}
