/**
  The chat panel (components/chat-panel.tsx): the text field, the title
  editor, the handlers that drive the conversation store, and the effect
  that picks or creates a chat when none is on screen.
 */
module ChatPanel {
  import opened Wrappers
  import Text
  import FenceExtract
  import UseChats

  /** What the selection effect asks the store to do. */
  datatype Action = LoadFirst(id: string) | CreateNew(title: string) | Idle

  /** The effect on `chats`, `currentChat` and `isLoading`: with chats listed
      and none on screen, load the first one; with no chats and nothing
      loading, create "New Chat"; otherwise nothing. */
  function AutoSelect(chats: seq<UseChats.Chat>, current: Option<UseChats.Chat>, isLoading: bool): (a: Action)
    ensures a.LoadFirst? <==> |chats| > 0 && current.None?
    ensures a.LoadFirst? ==> a.id == chats[0].id
    ensures a.CreateNew? <==> chats == [] && !isLoading
    ensures a.CreateNew? ==> a.title == "New Chat"
  {
    if |chats| > 0 && current.None? then LoadFirst(chats[0].id)
    else if |chats| == 0 && !isLoading then CreateNew("New Chat")
    else Idle
  }

  /** The send button is disabled while loading or while the trimmed input is empty. */
  predicate SendDisabled(isLoading: bool, input: string) {
    isLoading || Text.IsBlank(input)
  }

  /** The button is enabled exactly when nothing is loading and the input
      holds some character that is not white space. */
  lemma SendEnabledIff(isLoading: bool, input: string)
    ensures !SendDisabled(isLoading, input) <==>
      !isLoading && exists i :: 0 <= i < |input| && !Text.IsSpace(input[i])
  {
    Text.BlankIffAllSpace(input);
  }

  /** Enter without Shift is the keyboard shortcut for sending. */
  predicate TriggersSend(key: string, shift: bool) {
    key == "Enter" && !shift
  }

  /** The code handed to the editor after a send: the result's code, but
      only when it is truthy. */
  function CodeToForward(r: Option<UseChats.SendResult>): (code: Option<string>)
    ensures code.Some? ==> code.value != "" && r.Some? && r.value.generatedCode == code
  {
    if r.Some? && r.value.generatedCode.Some? && r.value.generatedCode.value != "" then r.value.generatedCode
    else None
  }

  /** The truthiness test never drops extracted code: whatever `sendMessage`
      extracted from a successful reply reaches the editor, and nothing
      reaches it from a failed one. */
  lemma ForwardedIsExtracted(content: string, t1: nat, t2: nat, reply: UseChats.StreamReply)
    ensures CodeToForward(UseChats.SendReturn(content, t1, t2, reply))
      == (if UseChats.Succeeds(reply) then FenceExtract.GeneratedCode(UseChats.Received(reply)) else None)
  {
    FenceExtract.GeneratedCodeNonEmpty(UseChats.Received(reply));
  }

  /** Code reaches the editor only when the reply text holds a closed pair of fences. */
  lemma ForwardedNeedsFences(content: string, t1: nat, t2: nat, reply: UseChats.StreamReply)
    ensures CodeToForward(UseChats.SendReturn(content, t1, t2, reply)).Some? ==>
      UseChats.Succeeds(reply) && !FenceExtract.NoClosedPairFrom(UseChats.Received(reply), 0)
  {
    ForwardedIsExtracted(content, t1, t2, reply);
    FenceExtract.NoCodeIffNoClosedPair(UseChats.Received(reply));
  }

  /** The panel's own state, over the conversation store it drives. */
  class Panel {
    var input: string
    var editingTitle: Option<string>
    var newTitle: string
    const store: UseChats.ChatStore

    /** A fresh panel: empty input, no title being edited. */
    constructor(store: UseChats.ChatStore)
      ensures this.store == store
      ensures input == "" && editingTitle == None && newTitle == ""
    {
      this.store := store;
      input := "";
      editingTitle := None;
      newTitle := "";
    }

    /** `handleSend`: with a blank input or no chat on screen nothing
        happens; otherwise the untrimmed input is sent to the chat on
        screen, the input is cleared, and the code of the result is handed
        on when it is truthy. */
    method HandleSend(t1: nat, t2: nat, t3: nat, reply: UseChats.StreamReply)
      returns (sentContent: Option<string>, forwarded: Option<string>)
      modifies this, store
      ensures Text.IsBlank(old(input)) || old(store.currentChat).None? ==>
        sentContent == None && forwarded == None && input == old(input)
        && store.currentChat == old(store.currentChat) && store.isLoading == old(store.isLoading)
      ensures !(Text.IsBlank(old(input)) || old(store.currentChat).None?) ==>
        sentContent == Some(old(input)) && input == ""
        && store.currentChat == UseChats.SendState(old(store.currentChat), old(store.currentChat).value.id,
                                                   old(input), t1, t2, t3, reply)
        && !store.isLoading
      ensures forwarded == CodeToForward(if sentContent.Some? then UseChats.SendReturn(old(input), t1, t2, reply) else None)
      ensures store.chats == old(store.chats)
      ensures editingTitle == old(editingTitle) && newTitle == old(newTitle)
    {
      if Text.IsBlank(input) || store.currentChat.None? {
        sentContent := None;
        forwarded := None;
      } else {
        var content := input;
        var snapshot := store.currentChat;
        var sent, r := store.SendMessage(snapshot.value.id, content, t1, t2, t3, reply);
        ghost var after := store.currentChat;
        assert after == UseChats.SendState(snapshot, snapshot.value.id, content, t1, t2, t3, reply);
        input := "";
        assert store.currentChat == after && snapshot == old(store.currentChat) && content == old(input);
        sentContent := Some(content);
        forwarded := CodeToForward(r);
      }
    }

    /** The send button: disabled while loading or with a blank input. */
    method ClickSend(t1: nat, t2: nat, t3: nat, reply: UseChats.StreamReply)
      returns (sentContent: Option<string>, forwarded: Option<string>)
      modifies this, store
      ensures SendDisabled(old(store.isLoading), old(input)) ==>
        sentContent == None && forwarded == None && input == old(input)
        && store.currentChat == old(store.currentChat) && store.isLoading == old(store.isLoading)
      ensures sentContent.Some? <==> !SendDisabled(old(store.isLoading), old(input)) && old(store.currentChat).Some?
      ensures sentContent.Some? ==>
        && sentContent.value == old(input) && input == "" && !store.isLoading
        && store.currentChat == UseChats.SendState(old(store.currentChat), old(store.currentChat).value.id,
                                                   old(input), t1, t2, t3, reply)
        && forwarded == CodeToForward(UseChats.SendReturn(old(input), t1, t2, reply))
      ensures sentContent.None? ==>
        forwarded == None && input == old(input)
        && store.currentChat == old(store.currentChat) && store.isLoading == old(store.isLoading)
      ensures store.chats == old(store.chats)
      ensures editingTitle == old(editingTitle) && newTitle == old(newTitle)
    {
      sentContent := None;
      forwarded := None;
      if !SendDisabled(store.isLoading, input) {
        sentContent, forwarded := HandleSend(t1, t2, t3, reply);
      }
    }

    /** A key in the text field, which is disabled while loading: Enter
        without Shift sends, anything else leaves everything as it was. */
    method KeyDown(key: string, shift: bool, t1: nat, t2: nat, t3: nat, reply: UseChats.StreamReply)
      returns (sentContent: Option<string>, forwarded: Option<string>)
      modifies this, store
      ensures old(store.isLoading) || !TriggersSend(key, shift) ==>
        sentContent == None && forwarded == None && input == old(input)
        && store.currentChat == old(store.currentChat) && store.isLoading == old(store.isLoading)
      ensures sentContent.Some? <==>
        !old(store.isLoading) && TriggersSend(key, shift) && !Text.IsBlank(old(input)) && old(store.currentChat).Some?
      ensures sentContent.Some? ==>
        && sentContent.value == old(input) && input == "" && !store.isLoading
        && store.currentChat == UseChats.SendState(old(store.currentChat), old(store.currentChat).value.id,
                                                   old(input), t1, t2, t3, reply)
        && forwarded == CodeToForward(UseChats.SendReturn(old(input), t1, t2, reply))
      ensures sentContent.None? ==>
        forwarded == None && input == old(input)
        && store.currentChat == old(store.currentChat) && store.isLoading == old(store.isLoading)
      ensures store.chats == old(store.chats)
      ensures editingTitle == old(editingTitle) && newTitle == old(newTitle)
    {
      sentContent := None;
      forwarded := None;
      if !store.isLoading && TriggersSend(key, shift) {
        sentContent, forwarded := HandleSend(t1, t2, t3, reply);
      }
    }

    /** `handleNewChat`: asks for a chat titled "Chat " and one more than
        the number of chats listed. */
    method HandleNewChat(reply: UseChats.ChatReply) returns (title: string)
      modifies store
      ensures title == "Chat " + Text.Decimal(|old(store.chats)| + 1)
      ensures reply.ChatBody? && reply.ok ==>
        store.chats == [reply.chat] + old(store.chats) && store.currentChat == Some(reply.chat)
      ensures !(reply.ChatBody? && reply.ok) ==>
        store.chats == old(store.chats) && store.currentChat == old(store.currentChat)
      ensures !store.isLoading
    {
      title := "Chat " + Text.Decimal(|store.chats| + 1);
      var created := store.CreateChat(reply);
    }

    /** `handleDeleteChat`: hands the id to the store's delete. */
    method HandleDeleteChat(chatId: string, reply: UseChats.DeleteReply)
      modifies store
      ensures reply.DeleteStatus? && reply.ok ==> store.chats == UseChats.RemoveById(old(store.chats), chatId)
      ensures !(reply.DeleteStatus? && reply.ok) ==> store.chats == old(store.chats)
      ensures store.currentChat ==
        if reply.DeleteStatus? && reply.ok && UseChats.Guard(old(store.currentChat), chatId) then None
        else old(store.currentChat)
      ensures store.isLoading == old(store.isLoading)
    {
      store.DeleteChat(chatId, reply);
    }

    /** `handleEditTitle`: enters edit mode for the chat, starting from its current title. */
    method HandleEditTitle(chatId: string, currentTitle: string)
      modifies this
      ensures editingTitle == Some(chatId) && newTitle == currentTitle
      ensures input == old(input)
    {
      editingTitle := Some(chatId);
      newTitle := currentTitle;
    }

    /** `handleSaveTitle`: a non-blank title is sent trimmed to the store's
        update; edit mode is left and the field cleared either way. */
    method HandleSaveTitle(chatId: string, reply: UseChats.ChatReply) returns (requested: Option<string>)
      modifies this, store
      ensures requested.Some? <==> !Text.IsBlank(old(newTitle))
      ensures requested.Some? ==> requested.value == Text.Trim(old(newTitle))
      ensures requested.Some? && reply.ChatBody? && reply.ok ==>
        store.chats == UseChats.ReplaceById(old(store.chats), chatId, reply.chat)
      ensures requested.None? || !(reply.ChatBody? && reply.ok) ==> store.chats == old(store.chats)
      ensures requested.Some? ==>
        store.currentChat == if reply.ChatBody? && reply.ok && UseChats.Guard(old(store.currentChat), chatId)
                             then Some(reply.chat) else old(store.currentChat)
      ensures requested.None? ==> store.currentChat == old(store.currentChat)
      ensures store.isLoading == old(store.isLoading)
      ensures editingTitle == None && newTitle == "" && input == old(input)
    {
      requested := None;
      if !Text.IsBlank(newTitle) {
        requested := Some(Text.Trim(newTitle));
        store.UpdateChat(chatId, reply);
      }
      editingTitle := None;
      newTitle := "";
    }

    /** The selection effect, run against the store's state: it loads the
        first chat or creates "New Chat" as `AutoSelect` decides. */
    method RunAutoSelect(reply: UseChats.ChatReply) returns (a: Action)
      modifies store
      ensures a == AutoSelect(old(store.chats), old(store.currentChat), old(store.isLoading))
      ensures a.Idle? ==> store.chats == old(store.chats) && store.currentChat == old(store.currentChat)
      ensures a.LoadFirst? ==> store.chats == old(store.chats)
      ensures !a.CreateNew? ==> store.chats == old(store.chats)
      ensures (a.LoadFirst? || a.CreateNew?) && reply.ChatBody? && reply.ok ==> store.currentChat == Some(reply.chat)
      ensures a.CreateNew? && reply.ChatBody? && reply.ok ==> store.chats == [reply.chat]
      ensures !(reply.ChatBody? && reply.ok) ==>
        store.chats == old(store.chats) && store.currentChat == old(store.currentChat)
      ensures a.Idle? ==> store.isLoading == old(store.isLoading)
      ensures !a.Idle? ==> !store.isLoading
    {
      a := AutoSelect(store.chats, store.currentChat, store.isLoading);
      match a {
        case LoadFirst(_) =>
          var loaded := store.LoadChat(reply);
        case CreateNew(_) =>
          var created := store.CreateChat(reply);
        case Idle =>
      }
    }
  }
}
