/** The floating concierge chat: a send appends the visitor's message and
    then exactly one answer, and Persian text is shown right to left. The
    model's answer is an input; each send is one exchange, start to end. */
module ChatBotWidget {
  import opened Prelude

  /** Who wrote a message. */
  datatype Sender = Visitor | Ai

  datatype Message = Message(sender: Sender, text: string)

  datatype Chat = Chat(isOpen: bool, messages: seq<Message>, input: string, isTyping: bool)

  const InitialChat := Chat(false, [], "", false)

  /** A code point of the Arabic block, U+0600 to U+06FF. */
  predicate IsArabicBlock(c: char)
  {
    '؀' <= c <= 'ۿ'
  }

  /** isRTL: the text is set right to left when it holds any character of
      the Arabic block, which carries Persian. */
  function IsRTL(text: string): (r: bool)
    ensures r <==> exists i :: 0 <= i < |text| && IsArabicBlock(text[i])
    decreases |text|
  {
    if text == [] then false
    else if IsArabicBlock(text[0]) then true
    else
      var rest := IsRTL(text[1..]);
      assert forall i :: 1 <= i < |text| ==> text[i] == text[1..][i - 1];
      rest
  }

  /** RTL-ness of a concatenation is that of either part. */
  lemma IsRTLAppend(a: string, b: string)
    ensures IsRTL(a + b) <==> IsRTL(a) || IsRTL(b)
  {
    if IsRTL(a) {
      var i :| 0 <= i < |a| && IsArabicBlock(a[i]);
      assert (a + b)[i] == a[i];
    }
    if IsRTL(a + b) {
      var i :| 0 <= i < |a + b| && IsArabicBlock((a + b)[i]);
      if i >= |a| {
        assert b[i - |a|] == (a + b)[i];
      }
    }
    if IsRTL(b) {
      var i :| 0 <= i < |b| && IsArabicBlock(b[i]);
      assert (a + b)[|a| + i] == b[i];
    }
  }

  /** How the call to the model ends: with a response whose text may be
      missing, or with an error. */
  datatype Reply = Responded(text: Option<string>) | Dropped

  /** The answer shown for a reply: the response text, SYSTEM_LINK_FAILURE
      when it is missing or empty, NEURAL_LINK_DROPPED on an error. */
  function AnswerText(reply: Reply): (t: string)
    ensures t != ""
    ensures reply.Dropped? ==> t == "NEURAL_LINK_DROPPED"
    ensures reply.Responded? && reply.text.Some? && reply.text.value != "" ==> t == reply.text.value
    ensures reply.Responded? && (reply.text.None? || reply.text.value == "") ==> t == "SYSTEM_LINK_FAILURE"
  {
    match reply
    case Dropped => "NEURAL_LINK_DROPPED"
    case Responded(text) => if text.Some? && text.value != "" then text.value else "SYSTEM_LINK_FAILURE"
  }

  /** The start of handleSend: an input of white space only does nothing;
      any other is sent as typed, moved into the message list and cleared
      from the field, and the typing indicator comes on. Returns the text
      sent to the model. */
  function BeginSend(c: Chat): (r: (Chat, Option<string>))
    ensures r.1.None? <==> forall i :: 0 <= i < |c.input| ==> IsJsSpace(c.input[i])
    ensures r.1.None? ==> r.0 == c
    ensures r.1.Some? ==> (r.1.value == c.input && r.0.input == "" && r.0.isTyping
      && r.0.messages == c.messages + [Message(Visitor, c.input)] && r.0.isOpen == c.isOpen)
  {
    TrimEmptyIffBlank(c.input);
    if Trim(c.input) == "" then (c, None)
    else (c.(input := "", messages := c.messages + [Message(Visitor, c.input)], isTyping := true), Some(c.input))
  }

  /** The end of handleSend: one answer is appended and the indicator goes
      off, whatever the reply. */
  function EndSend(c: Chat, reply: Reply): (r: Chat)
    ensures r.messages == c.messages + [Message(Ai, AnswerText(reply))]
    ensures !r.isTyping
    ensures r.input == c.input && r.isOpen == c.isOpen
  {
    c.(messages := c.messages + [Message(Ai, AnswerText(reply))], isTyping := false)
  }

  /** One whole exchange: the visitor types `text`, presses send, and the
      model replies. */
  function Exchange(c: Chat, text: string, reply: Reply): (r: Chat)
  {
    var begun := BeginSend(c.(input := text));
    if begun.1.Some? then EndSend(begun.0, reply) else begun.0
  }

  /** The messages alternate: the visitor speaks at even positions and the
      concierge answers at odd ones, with a non-empty answer. */
  predicate Alternates(messages: seq<Message>)
  {
    |messages| % 2 == 0
    && (forall i :: 0 <= i < |messages| && i % 2 == 0 ==> messages[i].sender == Visitor)
    && (forall i :: 0 <= i < |messages| && i % 2 == 1 ==> messages[i].sender == Ai && messages[i].text != "")
  }

  /** A question and a non-empty answer appended to alternating messages
      keep them alternating. */
  lemma AppendPairAlternates(m: seq<Message>, question: string, answer: string)
    requires Alternates(m) && answer != ""
    ensures Alternates(m + [Message(Visitor, question), Message(Ai, answer)])
  {
    var r := m + [Message(Visitor, question), Message(Ai, answer)];
    assert forall i :: 0 <= i < |m| ==> r[i] == m[i];
    assert r[|m|].sender == Visitor && r[|m| + 1] == Message(Ai, answer);
  }

  /** An exchange with a non-blank text adds the visitor's message and then
      one answer, leaves the field empty and the indicator off; a blank one
      changes nothing but the field. Either way the messages keep
      alternating. */
  lemma ExchangeAppendsPair(c: Chat, text: string, reply: Reply)
    requires Alternates(c.messages)
    ensures var r := Exchange(c, text, reply);
      Alternates(r.messages)
      && ((forall i :: 0 <= i < |text| ==> IsJsSpace(text[i])) ==> r.messages == c.messages && r.input == text)
      && ((exists i :: 0 <= i < |text| && !IsJsSpace(text[i])) ==>
          r.messages == c.messages + [Message(Visitor, text), Message(Ai, AnswerText(reply))]
          && r.input == "" && !r.isTyping)
  {
    var begun := BeginSend(c.(input := text));
    if begun.1.Some? {
      assert c.messages + [Message(Visitor, text)] + [Message(Ai, AnswerText(reply))]
        == c.messages + [Message(Visitor, text), Message(Ai, AnswerText(reply))];
      AppendPairAlternates(c.messages, text, AnswerText(reply));
    }
  }

  /** A conversation: a series of exchanges from a chat. */
  function Conversation(c: Chat, turns: seq<(string, Reply)>): (r: Chat)
    decreases |turns|
  {
    if turns == [] then c else Conversation(Exchange(c, turns[0].0, turns[0].1), turns[1..])
  }

  /** However the model answers, a conversation from alternating messages
      keeps them alternating, every question answered, and ends with the
      indicator off. */
  lemma {:induction false} ConversationAlternates(c: Chat, turns: seq<(string, Reply)>)
    requires Alternates(c.messages) && !c.isTyping
    ensures Alternates(Conversation(c, turns).messages)
    ensures !Conversation(c, turns).isTyping
    ensures |c.messages| <= |Conversation(c, turns).messages| <= |c.messages| + 2 * |turns|
    decreases |turns|
  {
    if turns != [] {
      var next := Exchange(c, turns[0].0, turns[0].1);
      ExchangeAppendsPair(c, turns[0].0, turns[0].1);
      ConversationAlternates(next, turns[1..]);
    }
  }
}
