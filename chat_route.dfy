/**
  The chat endpoint (`POST /api/chat`): it checks the posted history, hands
  it to the language model, streams the answer back and, once the answer
  is complete, stores the last user message and the answer.

  The request body is a parsed JSON value. The model and its streaming are
  not part of this model: whether the model call throws is a parameter,
  and the finished text is the input of `OnFinish`.
 */
module ChatRoute {
  import opened Wrappers
  import ChatStorage

  /** A parsed JSON value; an object keeps its members in source order. */
  datatype Value =
    | Null
    | Bool(b: bool)
    | Number(n: int)
    | Str(s: string)
    | Array(items: seq<Value>)
    | Object(members: seq<(string, Value)>)

  /** Why the handler threw (answered with status 500). */
  datatype Failure = BadJson | NullBody | NullMessage | NotIterable | ModelFailure

  /** The handler's answer. */
  datatype Outcome =
    | BadRequest(text: string)
    | ServerError(failure: Failure)
    | Streaming(chatId: Option<string>, items: seq<Value>)

  /** One `addMessage` call issued when the answer is complete. */
  datatype Write = Write(chatId: string, kind: string, content: string)

  /** The HTTP status of an answer. */
  function Status(out: Outcome): (code: nat)
    ensures code == 200 <==> out.Streaming?
  {
    match out
    case BadRequest(_) => 400
    case ServerError(_) => 500
    case Streaming(_, _) => 200
  }

  /** JavaScript truthiness of a value (`undefined` is `None`). */
  predicate Truthy(v: Option<Value>) {
    match v
    case None => false
    case Some(Null) => false
    case Some(Bool(b)) => b
    case Some(Number(n)) => n != 0
    case Some(Str(s)) => s != ""
    case Some(_) => true
  }

  /** The member `key` of an object's member list; the last one wins, as in
      `JSON.parse`. */
  function Lookup(members: seq<(string, Value)>, key: string): (r: Option<Value>)
    ensures r.Some? ==>
      exists k :: (0 <= k < |members| && members[k] == (key, r.value)
                   && forall j :: k < j < |members| ==> members[j].0 != key)
    ensures r.None? ==> forall k :: 0 <= k < |members| ==> members[k].0 != key
    decreases |members|
  {
    if members == [] then None
    else
      var last := members[|members| - 1];
      if last.0 == key then Some(last.1) else Lookup(members[..|members| - 1], key)
  }

  /** Property access `v.key` on a value that is not `null`: a member of an
      object, `undefined` on any other value. */
  function Field(v: Value, key: string): Option<Value> {
    if v.Object? then Lookup(v.members, key) else None
  }

  /** A history entry passes the check: truthy `role` and `content`. */
  predicate WellFormed(v: Value) {
    v != Null && Truthy(Field(v, "role")) && Truthy(Field(v, "content"))
  }

  /** The index of the first entry that fails the check, if any. */
  function FirstBad(items: seq<Value>): (r: Option<nat>)
    ensures r.None? <==> forall j :: 0 <= j < |items| ==> WellFormed(items[j])
    ensures r.Some? ==>
      r.value < |items| && !WellFormed(items[r.value]) && forall j :: 0 <= j < r.value ==> WellFormed(items[j])
    decreases |items|
  {
    if items == [] then None
    else if !WellFormed(items[0]) then Some(0)
    else
      match FirstBad(items[1..])
      case None => None
      case Some(k) => Some(k + 1)
  }

  /** The entries `for ... of` visits in a value, or `None` when it is not
      iterable: an array's elements, a string's characters. */
  function Entries(v: Value): Option<seq<Value>> {
    match v
    case Array(items) => Some(items)
    case Str(s) => Some(seq(|s|, i requires 0 <= i < |s| => Str([s[i]])))
    case _ => None
  }

  /** `messages.length === 0`. */
  predicate LengthIsZero(v: Value) {
    match v
    case Array(items) => items == []
    case Str(s) => s == ""
    case Object(members) => Lookup(members, "length") == Some(Number(0))
    case _ => false
  }

  /** The answer the handler gives, as a decision on the request: the body,
      the `messages` check, the check of each entry in order, the model.
      A 400 carries one of the two fixed texts, an unparsable body is the
      only cause of `BadJson`, and a failing model never streams. */
  function Decide(body: Option<Value>, modelFails: bool): (out: Outcome)
    ensures out.BadRequest? ==> out.text in {"No messages provided", "Invalid message format"}
    ensures out == ServerError(BadJson) <==> body.None?
    ensures out.Streaming? ==> !modelFails
  {
    if body.None? then ServerError(BadJson)
    else if body.value == Null then ServerError(NullBody)
    else
      var messages := Field(body.value, "messages");
      if !Truthy(messages) || LengthIsZero(messages.value) then BadRequest("No messages provided")
      else
        match Entries(messages.value)
        case None => ServerError(NotIterable)
        case Some(items) =>
          match FirstBad(items)
          case Some(k) => if items[k] == Null then ServerError(NullMessage) else BadRequest("Invalid message format")
          case None =>
            if modelFails then ServerError(ModelFailure)
            else
              var chatId := Field(body.value, "chatId");
              Streaming(if chatId.Some? && chatId.value.Str? then Some(chatId.value.s) else None, items)
  }

  /** The validation loop over the history: the index of the first entry
      that fails, an entry that is `null` making the check itself throw. */
  method CheckEntries(items: seq<Value>) returns (bad: Option<nat>, threw: bool)
    ensures bad == FirstBad(items)
    ensures threw <==> bad.Some? && items[bad.value] == Null
  {
    var i := 0;
    while i < |items|
      invariant 0 <= i <= |items|
      invariant forall j :: 0 <= j < i ==> WellFormed(items[j])
    {
      var msg := items[i];
      if msg == Null {
        FirstBadIs(items, i);
        return Some(i), true;
      }
      if !Truthy(Field(msg, "role")) || !Truthy(Field(msg, "content")) {
        FirstBadIs(items, i);
        return Some(i), false;
      }
      i := i + 1;
    }
    return None, false;
  }

  /** An entry that fails after entries that pass is the first to fail. */
  lemma FirstBadIs(items: seq<Value>, i: nat)
    requires i < |items| && !WellFormed(items[i])
    requires forall j :: 0 <= j < i ==> WellFormed(items[j])
    ensures FirstBad(items) == Some(i)
  {
  }

  /** `POST`: the checks in the order the handler makes them, then the model. */
  method Post(body: Option<Value>, modelFails: bool) returns (out: Outcome)
    ensures out == Decide(body, modelFails)
  {
    if body.None? {
      return ServerError(BadJson);
    }
    if body.value == Null {
      return ServerError(NullBody);
    }
    var messages := Field(body.value, "messages");
    if !Truthy(messages) || LengthIsZero(messages.value) {
      return BadRequest("No messages provided");
    }
    var entries := Entries(messages.value);
    if entries.None? {
      return ServerError(NotIterable);
    }
    var bad, threw := CheckEntries(entries.value);
    if threw {
      return ServerError(NullMessage);
    }
    if bad.Some? {
      return BadRequest("Invalid message format");
    }
    if modelFails {
      return ServerError(ModelFailure);
    }
    var chatId := Field(body.value, "chatId");
    out := Streaming(if chatId.Some? && chatId.value.Str? then Some(chatId.value.s) else None, entries.value);
  }

  // ---------------------------------------------------------------------
  // What the checks promise.
  // ---------------------------------------------------------------------

  /** A parsed object body is refused with "No messages provided" exactly
      when `messages` is missing, falsy or of length zero. */
  lemma NoMessagesIff(body: Value, modelFails: bool)
    requires body.Object?
    ensures Decide(Some(body), modelFails) == BadRequest("No messages provided")
      <==> !Truthy(Field(body, "messages")) || LengthIsZero(Field(body, "messages").value)
  {
  }

  /** The model is reached only with a non-empty history every entry of
      which has a truthy role and content; the stream then carries that
      history. */
  lemma StreamingNeedsValidHistory(body: Option<Value>, modelFails: bool)
    requires Decide(body, modelFails).Streaming?
    ensures !modelFails && body.Some? && body.value.Object?
    ensures var items := Decide(body, modelFails).items;
      items != [] && forall j :: 0 <= j < |items| ==> WellFormed(items[j])
  {
    var messages := Field(body.value, "messages");
    assert Truthy(messages) && !LengthIsZero(messages.value);
  }

  /** An array history with an entry whose role or content is falsy, such as
      the empty string, is refused with "Invalid message format" when no
      earlier entry fails and the entry is not `null`. */
  lemma InvalidEntryRefused(body: Value, items: seq<Value>, k: nat, modelFails: bool)
    requires body.Object? && Field(body, "messages") == Some(Array(items))
    requires k < |items| && items[k] != Null && !WellFormed(items[k])
    requires forall j :: 0 <= j < k ==> WellFormed(items[j])
    ensures Decide(Some(body), modelFails) == BadRequest("Invalid message format")
  {
    FirstBadIs(items, k);
  }

  /** The causes of a 500: a body that does not parse, a `null` body, a
      `messages` value `for ... of` cannot walk, a `null` entry, and the
      model failing on a request that would otherwise have streamed. */
  lemma FailuresAnswer500(body: Option<Value>, modelFails: bool)
    ensures body == Some(Null) ==> Decide(body, modelFails) == ServerError(NullBody)
    ensures Decide(body, modelFails) == ServerError(ModelFailure) <==> modelFails && Decide(body, false).Streaming?
    ensures var messages := if body.Some? then Field(body.value, "messages") else None;
      Decide(body, modelFails) == ServerError(NotIterable) ==> Truthy(messages) && Entries(messages.value).None?
    ensures var messages := if body.Some? then Field(body.value, "messages") else None;
      Decide(body, modelFails) == ServerError(NullMessage) ==>
        Truthy(messages) && Entries(messages.value).Some? && Null in Entries(messages.value).value
  {
  }

  // ---------------------------------------------------------------------
  // `onFinish`: what is stored once the answer is complete.
  // ---------------------------------------------------------------------

  /** The stored text of a message content: a string as it is, any other
      value through the JSON serializer. */
  function ContentText(content: Value, stringify: Value -> string): string {
    if content.Str? then content.s else stringify(content)
  }

  /** The writes `onFinish` issues, in order: nothing unless the chat id and
      the answer are both non-empty; then the last history entry as a user
      message when its content is truthy, then the answer. */
  function Persisted(chatId: Option<string>, items: seq<Value>, text: string, stringify: Value -> string)
    : (ws: seq<Write>)
    ensures |ws| <= 2
    ensures forall k :: 0 <= k < |ws| ==>
      chatId.Some? && ws[k].chatId == chatId.value && ws[k].kind == (if k == |ws| - 1 then "assistant" else "user")
  {
    if chatId.None? || chatId.value == "" || text == "" then []
    else
      var last := if items == [] then Null else items[|items| - 1];
      var content := if last == Null then None else Field(last, "content");
      var user := if Truthy(content) then [Write(chatId.value, "user", ContentText(content.value, stringify))] else [];
      user + [Write(chatId.value, "assistant", text)]
  }

  /** The answer is always stored, last and verbatim, when the chat id and
      the answer are non-empty; before it at most one user message, taken
      from the last history entry; and nothing is stored otherwise. */
  lemma PersistedShape(chatId: Option<string>, items: seq<Value>, text: string, stringify: Value -> string)
    ensures var ws := Persisted(chatId, items, text, stringify);
      && (ws == [] <==> chatId.None? || chatId.value == "" || text == "")
      && (ws != [] ==> 1 <= |ws| <= 2 && ws[|ws| - 1] == Write(chatId.value, "assistant", text))
      && (|ws| == 2 ==> (
        && items != [] && ws[0].kind == "user"
        && Truthy(Field(items[|items| - 1], "content"))
        && ws[0].content == ContentText(Field(items[|items| - 1], "content").value, stringify)))
      && (chatId.Some? && chatId.value != "" && text != "" && items != [] && items[|items| - 1] != Null
          && Truthy(Field(items[|items| - 1], "content")) ==>
        |ws| == 2 && ws[0] == Write(chatId.value, "user", ContentText(Field(items[|items| - 1], "content").value, stringify)))
  {
  }

  /** No stored message has the id. */
  predicate Unused(rows: seq<ChatStorage.MessageRow>, id: string) {
    forall k :: 0 <= k < |rows| ==> rows[k].id != id
  }

  /** An id stays unused when a row with another id is appended. */
  lemma UnusedAfterAppend(rows: seq<ChatStorage.MessageRow>, row: ChatStorage.MessageRow, id: string)
    requires Unused(rows, id) && row.id != id
    ensures Unused(rows + [row], id)
  {
    forall k | 0 <= k < |rows| + 1 ensures (rows + [row])[k].id != id {
      if k < |rows| {
        assert (rows + [row])[k] == rows[k];
      }
    }
  }

  /** `onFinish`: the writes go to the storage in order, each stamped with
      its own id and time; the handler does not look at their results. */
  method OnFinish(store: ChatStorage.Storage, chatId: Option<string>, items: seq<Value>, text: string,
                  stringify: Value -> string, userId: string, userTime: int, answerId: string, answerTime: int)
    requires store.Valid()
    modifies store
    ensures store.Valid()
    ensures Persisted(chatId, items, text, stringify) == [] ==>
      store.messages == old(store.messages) && store.chats == old(store.chats)
    ensures var ws := Persisted(chatId, items, text, stringify);
      Unused(old(store.messages), userId) && Unused(old(store.messages), answerId) && userId != answerId && ws != [] ==>
        && store.messages == old(store.messages)
          + (if |ws| == 2 then [ChatStorage.MessageRow(userId, ws[0].chatId, "user", ws[0].content, userTime)] else [])
          + [ChatStorage.MessageRow(answerId, ws[|ws| - 1].chatId, "assistant", text, answerTime)]
        && store.chats == ChatStorage.Touch(
          if |ws| == 2 then ChatStorage.Touch(old(store.chats), ws[0].chatId, userTime) else old(store.chats),
          ws[|ws| - 1].chatId, answerTime)
  {
    var ws := Persisted(chatId, items, text, stringify);
    if ws == [] {
      return;
    }
    PersistedShape(chatId, items, text, stringify);
    ghost var unused := Unused(store.messages, userId) && Unused(store.messages, answerId) && userId != answerId;
    ghost var before := store.messages;
    ghost var chatsBefore := store.chats;
    ghost var userRows: seq<ChatStorage.MessageRow> := [];
    ghost var touched := store.chats;
    if |ws| == 2 {
      var row := ChatStorage.MessageRow(userId, ws[0].chatId, "user", ws[0].content, userTime);
      var userStored := store.AddMessage(ws[0].chatId, "user", ws[0].content, userId, userTime, false, false);
      if unused {
        assert store.messages == before + [row];
        UnusedAfterAppend(before, row, answerId);
        userRows := [row];
        touched := ChatStorage.Touch(chatsBefore, ws[0].chatId, userTime);
      }
    }
    assert unused ==> store.messages == before + userRows && Unused(store.messages, answerId) && store.chats == touched;
    var answer := ChatStorage.MessageRow(answerId, ws[|ws| - 1].chatId, "assistant", text, answerTime);
    var answerStored := store.AddMessage(ws[|ws| - 1].chatId, "assistant", text, answerId, answerTime, false, false);
    assert unused ==>
      store.messages == before + userRows + [answer] && store.chats == ChatStorage.Touch(touched, ws[|ws| - 1].chatId, answerTime);
  }
}
