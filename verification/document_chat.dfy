/** The knowledge-base chat: sending questions, the upload notices in the
    message list, starting, deleting and opening conversations. Times
    (`Date.now()`) and backend replies are parameters. */
module DocumentChat {

  import opened Common
  import opened Text

  datatype Message = Message(id: int, role: string, text: string)

  datatype ChatState = ChatState(messages: seq<Message>, input: string, loading: bool,
                                 conversationId: Option<string>)

  const Greeting := "Hello! I am the AI-Base Knowledge Assistant. I can answer questions from your uploaded documents or help with general queries."
  const Apology := "Sorry, I encountered an error. Please try again."

  /** What `sendMessage` gives back: an answer (with the conversation id
      the server chose, if any), a response without success, or an error
      (with the server's message, if any). */
  datatype SendReply =
    | Answered(data: string, newConversationId: Option<string>)
    | Unsuccessful
    | SendThrew(serverMessage: Option<string>)

  /** `handleSend` run to completion: the question is stamped with the
      time `sent` it is sent, and the reply with the time `replied` read
      again once the server has answered, plus one. */
  function HandleSend(st: ChatState, sent: int, replied: int, reply: SendReply): (r: ChatState)
    ensures IsBlank(st.input) || st.loading ==> r == st
    ensures !(IsBlank(st.input) || st.loading) ==>
      && |r.messages| > |st.messages|
      && r.messages[..|st.messages| + 1] == st.messages + [Message(sent, "user", st.input)]
      && r.input == "" && !r.loading
    ensures !(IsBlank(st.input) || st.loading) && reply.Answered? ==>
      r.messages == st.messages + [Message(sent, "user", st.input), Message(replied + 1, "assistant", reply.data)]
    ensures !(IsBlank(st.input) || st.loading) && reply.Unsuccessful? ==>
      r.messages == st.messages + [Message(sent, "user", st.input)]
    ensures !(IsBlank(st.input) || st.loading) && reply.SendThrew? ==>
      r.messages == st.messages + [Message(sent, "user", st.input),
                                   Message(replied + 1, "assistant", OrElse(reply.serverMessage, Apology))]
  {
    if IsBlank(st.input) || st.loading then st
    else
      var asked := st.messages + [Message(sent, "user", st.input)];
      match reply
      case Answered(data, newId) =>
        var id := if !Truthy(st.conversationId) && Truthy(newId) then newId else st.conversationId;
        ChatState(asked + [Message(replied + 1, "assistant", data)], "", false, id)
      case Unsuccessful => ChatState(asked, "", false, st.conversationId)
      case SendThrew(msg) =>
        ChatState(asked + [Message(replied + 1, "assistant", OrElse(msg, Apology))], "", false, st.conversationId)
  }

  /** The conversation id is taken from an answer only while the chat has
      none; once set, sending never replaces it. */
  lemma ConversationIdAdoptedOnce(st: ChatState, sent: int, replied: int, reply: SendReply)
    ensures var r := HandleSend(st, sent, replied, reply);
      && (Truthy(st.conversationId) ==> r.conversationId == st.conversationId)
      && (r.conversationId != st.conversationId <==>
            && !IsBlank(st.input) && !st.loading && reply.Answered?
            && !Truthy(st.conversationId) && Truthy(reply.newConversationId)
            && reply.newConversationId != st.conversationId)
  {
  }

  /** Every question sent gets at most one reply, and the earlier messages
      are never touched. */
  lemma SendAppendsOnly(st: ChatState, sent: int, replied: int, reply: SendReply)
    ensures var r := HandleSend(st, sent, replied, reply);
      && |st.messages| <= |r.messages| <= |st.messages| + 2
      && r.messages[..|st.messages|] == st.messages
      && (|r.messages| == |st.messages| + 2 ==> r.messages[|r.messages| - 1].role == "assistant")
  {
    var r := HandleSend(st, sent, replied, reply);
    if !(IsBlank(st.input) || st.loading) {
      assert r.messages[..|st.messages|] == r.messages[..|st.messages| + 1][..|st.messages|];
    }
  }

  // ---------------------------------------------------------------------
  // Upload notices

  /** What `uploadDocument` gives back. */
  datatype UploadReply = Uploaded | NotUploaded | UploadThrew(serverMessage: Option<string>)

  function UploadingNotice(fileName: string): string
  {
    "📤 Uploading " + fileName + "..."
  }

  /** The text that replaces the upload notice, if any: a confirmation, or
      the failure with the server's message; an unsuccessful response
      leaves the notice. */
  function UploadResultText(fileName: string, reply: UploadReply): (r: Option<string>)
    ensures r.None? <==> reply.NotUploaded?
  {
    match reply
    case Uploaded =>
      Some("✅ File \"" + fileName + "\" uploaded and processed. I can now answer questions about it.")
    case NotUploaded => None
    case UploadThrew(msg) =>
      Some("❌ Failed to upload \"" + fileName + "\". " + OrElse(msg, "Please try again."))
  }

  /** The start of `handleFileUpload` at time `now`: a notice is appended
      for the picked file; without a file nothing happens. */
  function StartUpload(messages: seq<Message>, fileName: Option<string>, now: int): (r: seq<Message>)
    ensures fileName.None? ==> r == messages
    ensures fileName.Some? ==> r == messages + [Message(now, "assistant", UploadingNotice(fileName.value))]
  {
    match fileName
    case None => messages
    case Some(name) => messages + [Message(now, "assistant", UploadingNotice(name))]
  }

  /** The end of `handleFileUpload` as written: the text of whatever
      message is last at that moment is replaced. */
  function FinishUploadAsWritten(messages: seq<Message>, text: Option<string>): (r: seq<Message>)
    ensures |r| == |messages|
  {
    if text.None? || messages == [] then messages
    else messages[..|messages| - 1] + [messages[|messages| - 1].(text := text.value)]
  }

  /** The end of the upload as intended: the notice, found by its id, gets
      the new text; every other message stays as it is. */
  function FinishUpload(messages: seq<Message>, noticeId: int, text: Option<string>): (r: seq<Message>)
    ensures |r| == |messages|
    ensures forall i :: 0 <= i < |messages| && messages[i].id != noticeId ==> r[i] == messages[i]
    ensures text.Some? ==> forall i :: 0 <= i < |messages| && messages[i].id == noticeId ==>
      r[i] == messages[i].(text := text.value)
    ensures text.None? ==> r == messages
  {
    match text
    case None => messages
    case Some(t) =>
      seq(|messages|, i requires 0 <= i < |messages| =>
        if messages[i].id == noticeId then messages[i].(text := t) else messages[i])
  }

  /** `handleFileUpload` at time `now` with nothing happening meanwhile. */
  function HandleFileUpload(messages: seq<Message>, fileName: Option<string>, now: int, reply: UploadReply): (r: seq<Message>)
    ensures fileName.None? ==> r == messages
    ensures fileName.Some? ==>
      && |r| == |messages| + 1
      && r[|messages|] == Message(now, "assistant", UploadResultText(fileName.value, reply).GetOr(UploadingNotice(fileName.value)))
      && forall i :: 0 <= i < |messages| && messages[i].id != now ==> r[i] == messages[i]
  {
    match fileName
    case None => messages
    case Some(name) => FinishUpload(StartUpload(messages, fileName, now), now, UploadResultText(name, reply))
  }

  /** An upload adds exactly one message, the notice, whose text is then
      the outcome; the messages before it are untouched when their ids
      differ from the upload time. */
  lemma UploadAddsOneMessage(messages: seq<Message>, name: string, now: int, reply: UploadReply)
    requires forall i :: 0 <= i < |messages| ==> messages[i].id != now
    ensures var r := HandleFileUpload(messages, Some(name), now, reply);
      && |r| == |messages| + 1
      && r[..|messages|] == messages
      && r[|messages|] == Message(now, "assistant", UploadResultText(name, reply).GetOr(UploadingNotice(name)))
  {
  }

  /** When nothing happens during the upload, the code as written does the
      same thing. */
  lemma SequentialUploadAgrees(messages: seq<Message>, name: string, now: int, reply: UploadReply)
    requires forall i :: 0 <= i < |messages| ==> messages[i].id != now
    ensures HandleFileUpload(messages, Some(name), now, reply)
         == FinishUploadAsWritten(StartUpload(messages, Some(name), now), UploadResultText(name, reply))
  {
    var started := StartUpload(messages, Some(name), now);
    assert started[..|started| - 1] == messages;
  }

  /** A question sent while a document uploads: as written, the completed
      upload overwrites the assistant's answer and leaves the uploading
      notice in place (for instance, uploading "a.pdf" while "hi" is
      answered with "hello"). */
  lemma AnswerOverwrittenDuringUpload(name: string, question: string, answer: string, t0: int, t1: int, t2: int)
    requires !IsBlank(question)
    requires answer != UploadResultText(name, Uploaded).value
    ensures var started := StartUpload([], Some(name), t0);
      var during := HandleSend(ChatState(started, question, false, None), t1, t2, Answered(answer, None)).messages;
      var after := FinishUploadAsWritten(during, UploadResultText(name, Uploaded));
      && |during| == 3 && during[2].text == answer
      && |after| == 3
      && after[0].text == UploadingNotice(name)
      && after[2].text != answer
  {
    var started := StartUpload([], Some(name), t0);
    assert started == [Message(t0, "assistant", UploadingNotice(name))];
    var during := HandleSend(ChatState(started, question, false, None), t1, t2, Answered(answer, None)).messages;
    assert during == started + [Message(t1, "user", question), Message(t2 + 1, "assistant", answer)];
  }

  /** With the notice found by id, messages added during the upload keep
      their text and the notice gets the outcome. */
  lemma InterleavedUploadKeepsOthers(messages: seq<Message>, name: string, now: int,
                                     meanwhile: seq<Message>, reply: UploadReply)
    requires forall i :: 0 <= i < |messages| ==> messages[i].id != now
    requires forall i :: 0 <= i < |meanwhile| ==> meanwhile[i].id != now
    requires reply != NotUploaded
    ensures var started := StartUpload(messages, Some(name), now) + meanwhile;
      var r := FinishUpload(started, now, UploadResultText(name, reply));
      && r[..|messages|] == messages
      && r[|messages|] == Message(now, "assistant", UploadResultText(name, reply).value)
      && r[|messages| + 1..] == meanwhile
  {
    var notice := Message(now, "assistant", UploadingNotice(name));
    var text := UploadResultText(name, reply).value;
    FinishUploadAround(messages, notice, meanwhile, text);
    var r := messages + [notice.(text := text)] + meanwhile;
    assert r[..|messages|] == messages;
    assert r[|messages| + 1..] == meanwhile;
  }

  /** Rewriting a notice that sits between messages with other ids. */
  lemma FinishUploadAround(messages: seq<Message>, notice: Message, meanwhile: seq<Message>, text: string)
    requires forall i :: 0 <= i < |messages| ==> messages[i].id != notice.id
    requires forall i :: 0 <= i < |meanwhile| ==> meanwhile[i].id != notice.id
    ensures FinishUpload(messages + [notice] + meanwhile, notice.id, Some(text))
         == messages + [notice.(text := text)] + meanwhile
  {
    var s := messages + [notice] + meanwhile;
    var r := FinishUpload(s, notice.id, Some(text));
    var e := messages + [notice.(text := text)] + meanwhile;
    forall i | 0 <= i < |s| ensures r[i] == e[i] {
      if i < |messages| {
        assert s[i] == messages[i] == e[i];
      } else if i > |messages| {
        assert s[i] == meanwhile[i - |messages| - 1] == e[i];
      }
    }
  }

  // ---------------------------------------------------------------------
  // Conversations

  /** `startNewChat` at time `now`: only the greeting, and no conversation. */
  function StartNewChat(st: ChatState, now: int): (r: ChatState)
    ensures r.messages == [Message(now, "assistant", Greeting)] && r.conversationId.None?
    ensures r.input == st.input && r.loading == st.loading
  {
    st.(messages := [Message(now, "assistant", Greeting)], conversationId := None)
  }

  /** `handleDeleteChat(id)`: after a confirmed, successful delete, the chat
      is reset only if the deleted conversation is the open one. */
  function HandleDeleteChat(st: ChatState, id: string, confirmed: bool, call: ApiOutcome, now: int): (r: ChatState)
    ensures !confirmed || call == Failed ==> r == st
    ensures confirmed && call == Succeeded && st.conversationId == Some(id) ==> r == StartNewChat(st, now)
    ensures st.conversationId != Some(id) ==> r == st
  {
    if confirmed && call == Succeeded && st.conversationId == Some(id) then StartNewChat(st, now) else st
  }

  /** Deleting the open conversation leaves no conversation open. */
  lemma DeleteOpenConversationCloses(st: ChatState, id: string, now: int)
    requires st.conversationId == Some(id)
    ensures HandleDeleteChat(st, id, true, Succeeded, now).conversationId.None?
    ensures |HandleDeleteChat(st, id, true, Succeeded, now).messages| == 1
  {
  }

  /** A stored message of a conversation. */
  datatype StoredMessage = StoredMessage(role: string, text: string)

  datatype Conversation = Conversation(id: string, messages: seq<StoredMessage>)

  /** `loadConversation`: a conversation that loads replaces the list, each
      message numbered by its position; otherwise nothing changes. */
  function LoadConversation(st: ChatState, loaded: Option<Conversation>): (r: ChatState)
    ensures loaded.None? ==> r == st
    ensures loaded.Some? ==> r.conversationId == Some(loaded.value.id)
    ensures loaded.Some? ==>
      && |r.messages| == |loaded.value.messages|
      && forall i :: 0 <= i < |r.messages| ==>
           r.messages[i] == Message(i, loaded.value.messages[i].role, loaded.value.messages[i].text)
  {
    match loaded
    case None => st
    case Some(conv) =>
      st.(conversationId := Some(conv.id),
          messages := seq(|conv.messages|, i requires 0 <= i < |conv.messages| =>
            Message(i, conv.messages[i].role, conv.messages[i].text)))
  }

  /** Loaded messages have distinct ids, so an id identifies a message. */
  lemma LoadedIdsDistinct(st: ChatState, conv: Conversation)
    ensures var m := LoadConversation(st, Some(conv)).messages;
      forall i, j :: 0 <= i < j < |m| ==> m[i].id != m[j].id
  {
  }

  /** A fresh chat has no conversation, so the first answered question
      adopts the id the server chose for it. */
  lemma NewChatAdoptsNextId(st: ChatState, now: int, question: string, sent: int, replied: int,
                            data: string, id: string)
    requires !IsBlank(question) && !st.loading && id != ""
    ensures var newChat := StartNewChat(st, now).(input := question);
      var r := HandleSend(newChat, sent, replied, Answered(data, Some(id)));
      && r.conversationId == Some(id)
      && r.messages == [Message(now, "assistant", Greeting), Message(sent, "user", question),
                        Message(replied + 1, "assistant", data)]
  {
  }
}
