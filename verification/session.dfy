/** The state of the chat page and its transitions, each a pure function
    of the state. The page keeps three pieces of state (the message log,
    the text box contents and the typing flag); the replies scheduled with
    `setTimeout` are added here as an explicit queue. Every timer has the
    same delay, so they fire in the order they were scheduled. */
module ChatSession {
  import opened Messages
  import opened JsText

  /** A scheduled assistant reply. Its id was computed from the log as it
      stood when the user pressed send. */
  datatype PendingReply = PendingReply(id: int)

  /** The page's state plus the queue of timers not yet fired. */
  datatype Session = Session(
    messages: seq<Message>,
    input: string,
    isTyping: bool,
    pending: seq<PendingReply>)

  /** The state on first render: the greeting alone, an empty text box,
      no typing indicator and no timer. */
  function Init(): (s: Session)
    ensures |s.messages| == 1
    ensures s.messages[0].id == 1 && s.messages[0].sender == Ai
    ensures s.messages[0].text == GreetingText
    ensures s.input == [] && !s.isTyping && s.pending == []
  {
    Session([Greeting], "", false, [])
  }

  /** The text box's change handler: only the input changes. */
  function EditInput(s: Session, text: string): (r: Session)
    ensures r.input == text
    ensures r.messages == s.messages && r.isTyping == s.isTyping
    ensures r.pending == s.pending
  {
    s.(input := text)
  }

  /** The send guard: the input trims to the empty string. */
  predicate IsBlank(text: string) {
    Trim(text) == []
  }

  /** Pressing send (button or Enter). Blank input changes nothing.
      Otherwise the raw, untrimmed input is appended as a user message
      numbered one past the log's length, the box is cleared, the typing
      flag is raised whatever it was, and one reply is scheduled carrying
      the id two past the log's length. */
  function Send(s: Session): (r: Session)
    ensures IsBlank(s.input) ==> r == s
    ensures !IsBlank(s.input) ==>
      && |r.messages| == |s.messages| + 1
      && r.messages[..|s.messages|] == s.messages
      && r.messages[|s.messages|] == Message(|s.messages| + 1, s.input, User)
      && r.input == [] && r.isTyping
      && |r.pending| == |s.pending| + 1
      && r.pending[..|s.pending|] == s.pending
      && r.pending[|s.pending|].id == |s.messages| + 2
  {
    if IsBlank(s.input) then s
    else
      var n := |s.messages|;
      Session(s.messages + [Message(n + 1, s.input, User)], "", true,
              s.pending + [PendingReply(n + 2)])
  }

  /** The oldest timer fires: one assistant message with the canned text
      and the id captured at send time is appended to the current log, and
      the typing flag is lowered even when more timers are queued. */
  function DeliverReply(s: Session): (r: Session)
    requires s.pending != []
    ensures |r.messages| == |s.messages| + 1
    ensures r.messages[..|s.messages|] == s.messages
    ensures r.messages[|s.messages|] == Message(s.pending[0].id, ReplyText, Ai)
    ensures !r.isTyping && r.input == s.input
    ensures r.pending == s.pending[1..]
  {
    Session(s.messages + [Message(s.pending[0].id, ReplyText, Ai)], s.input,
            false, s.pending[1..])
  }

  /** The same delivery with the reply numbered from the log it is appended
      to rather than the log captured at send time. */
  function DeliverReplyRenumbered(s: Session): (r: Session)
    requires s.pending != []
    ensures |r.messages| == |s.messages| + 1
    ensures r.messages[..|s.messages|] == s.messages
    ensures r.messages[|s.messages|] == Message(|s.messages| + 1, ReplyText, Ai)
    ensures !r.isTyping && r.input == s.input
    ensures r.pending == s.pending[1..]
  {
    Session(s.messages + [Message(|s.messages| + 1, ReplyText, Ai)], s.input,
            false, s.pending[1..])
  }

  /** Send rejects exactly the inputs made only of white space and line
      terminators: the log grows precisely when some other character is
      present. */
  lemma SendRejectsExactlyWhitespace(s: Session)
    ensures Send(s) == s <==> AllTrimmable(s.input)
    ensures |Send(s).messages| == |s.messages| + (if AllTrimmable(s.input) then 0 else 1)
  {
    if !AllTrimmable(s.input) {
      assert |Send(s).messages| != |s.messages|;
    }
  }

  /** Send never looks at the typing flag: from states that differ only in
      that flag it appends the same message and schedules the same reply,
      and an accepted send ends typing whichever flag it started from. */
  lemma SendIgnoresTyping(s: Session, typing: bool)
    ensures Send(s.(isTyping := typing)).messages == Send(s).messages
    ensures Send(s.(isTyping := typing)).pending == Send(s).pending
    ensures Send(s.(isTyping := typing)).input == Send(s).input
    ensures !AllTrimmable(s.input) ==>
      Send(s.(isTyping := typing)) == Send(s) && Send(s).isTyping
  {
  }

  /** The stored text is the raw input, surrounding blanks included. */
  lemma SendKeepsUntrimmedText()
    ensures Send(EditInput(Init(), " hi ")).messages[1].text == " hi "
    ensures Trim(" hi ") == "hi"
  {
    var s := EditInput(Init(), " hi ");
    assert !IsTrimmable('h') && !IsTrimmable('i') && IsTrimmable(' ');
    assert " hi "[1..] == "hi ";
    assert TrimStart("hi ") == "hi ";
    assert TrimStart(" hi ") == "hi ";
    assert "hi "[..2] == "hi";
    assert TrimEnd("hi") == "hi";
    assert TrimEnd("hi ") == "hi";
    assert !IsBlank(s.input);
  }
}
