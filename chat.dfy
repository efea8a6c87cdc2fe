/** The question-and-answer panel (components/ChatSection.tsx): an
    append-only log of messages that opens with a welcome message, the
    input field, and the loading flag that keeps one question in flight at
    a time. A turn is sending a question, then receiving the outcome of the
    request, which the chat session answers. */
module Chat {
  import opened Types
  import opened Text
  import opened Gemini

  const WelcomeMessage: string := "회의 내용에 대해 궁금한 점이 있으신가요? 질문해 주세요."
  const ApologyMessage: string := "죄송합니다. 오류가 발생하여 답변할 수 없습니다."

  /** The text of the model message a settled request adds: the reply, or
      the fallback for an empty reply, or the apology when the request
      failed. */
  function AnswerText(reply: Reply): (t: string)
    ensures |t| > 0
    ensures reply.Replied? && reply.text.Some? && reply.text.value != "" ==> t == reply.text.value
    ensures reply.Replied? && (reply.text.None? || reply.text.value == "") ==> t == NoAnswerMessage
    ensures reply.Threw? ==> t == ApologyMessage
  {
    match SendChatMessage(reply)
    case Success(text) => text
    case Failure(_) => ApologyMessage
  }

  /** The message at position i of a well-formed log has this role: the
      welcome message and every answer are the model's, every question the
      user's. */
  function RoleAt(i: nat): Role {
    if i % 2 == 0 then Model else User
  }

  class ChatLog {
    const session: Option<ChatSession>
    var messages: seq<ChatMessage>
    var input: string
    var isLoading: bool

    /** The log opens with the welcome message; questions and answers
        alternate after it, every question holds more than whitespace, and
        a question is awaiting its answer exactly when loading. */
    predicate Valid()
      reads this
    {
      |messages| > 0 && messages[0] == ChatMessage(Model, WelcomeMessage) &&
      (forall i :: 0 <= i < |messages| ==> messages[i].role == RoleAt(i)) &&
      (forall i :: 0 <= i < |messages| && messages[i].role == User ==> Trim(messages[i].text) != "") &&
      (isLoading <==> |messages| % 2 == 0)
    }

    /** The guard of handleSend: something to send, a session to send it
        to, and no question in flight. */
    predicate CanSend()
      reads this
    {
      Trim(input) != "" && session.Some? && !isLoading
    }

    constructor(session: Option<ChatSession>)
      ensures this.session == session
      ensures messages == [ChatMessage(Model, WelcomeMessage)] && input == "" && !isLoading
      ensures Valid()
    {
      this.session := session;
      messages := [ChatMessage(Model, WelcomeMessage)];
      input := "";
      isLoading := false;
    }

    /** Typing into the input field, which is disabled while an answer
        is awaited. */
    method SetInput(text: string)
      requires !isLoading
      modifies this
      ensures input == text && messages == old(messages) && isLoading == old(isLoading)
      ensures old(Valid()) ==> Valid()
    {
      input := text;
    }

    /** The synchronous part of handleSend: when the guard holds, the
        untrimmed input is appended as the user's message and returned as
        the question to ask, the input is cleared and loading is set;
        otherwise nothing changes. */
    method HandleSend() returns (question: Option<string>)
      modifies this
      ensures old(CanSend()) ==>
        question == Some(old(input)) && messages == old(messages) + [ChatMessage(User, old(input))] &&
        input == "" && isLoading
      ensures !old(CanSend()) ==>
        question == None && messages == old(messages) && input == old(input) && isLoading == old(isLoading)
      ensures old(messages) <= messages
      ensures old(Valid()) ==> Valid()
    {
      if Trim(input) == "" || session.None? || isLoading {
        return None;
      }
      question := Some(input);
      messages := messages + [ChatMessage(User, input)];
      input := "";
      isLoading := true;
    }

    /** The continuation of handleSend once the request has settled with
        `reply`: one model message is appended, and, as in `finally`,
        loading is cleared whatever the outcome. */
    method ReceiveAnswer(reply: Reply)
      requires isLoading
      modifies this
      ensures messages == old(messages) + [ChatMessage(Model, AnswerText(reply))]
      ensures !isLoading && input == old(input)
      ensures old(Valid()) ==> Valid()
    {
      var answer := SendChatMessage(reply);
      match answer {
        case Success(text) =>
          messages := messages + [ChatMessage(Model, text)];
        case Failure(_) =>
          messages := messages + [ChatMessage(Model, ApologyMessage)];
      }
      isLoading := false;
    }

    /** handleKeyDown: Enter without Shift sends; any other key, and
        Shift+Enter, leave everything as it is. */
    method HandleKeyDown(key: string, shift: bool) returns (question: Option<string>)
      modifies this
      ensures key == "Enter" && !shift && old(CanSend()) ==>
        question == Some(old(input)) && messages == old(messages) + [ChatMessage(User, old(input))] &&
        input == "" && isLoading
      ensures (key != "Enter" || shift || !old(CanSend())) ==>
        question == None && messages == old(messages) && input == old(input) && isLoading == old(isLoading)
      ensures old(Valid()) ==> Valid()
    {
      question := None;
      if key == "Enter" && !shift {
        question := HandleSend();
      }
    }
  }
}
