/** The `Message` record of the chat page and the two fixed texts the
    assistant ever says. The display timestamp is not modelled. */
module Messages {

  /** Who wrote a message: the person at the keyboard or the canned assistant. */
  datatype Sender = User | Ai

  /** One entry of the chat log. The page's `Message` interface types `id` as `number`;
      ids stay far below 2^53, where that type is exact, so `int` is used. */
  datatype Message = Message(id: int, text: string, sender: Sender)

  /** The greeting the log is seeded with. */
  const GreetingText: string :=
    "Hello! I'm your AI financial advisor. How can I help you today?"

  /** The single reply the simulated assistant gives to every question. */
  const ReplyText: string :=
    "Based on your spending patterns, I recommend reducing dining expenses by \U{20B9}2,000/month. You can also invest \U{20B9}4,000 this month in mutual funds for better returns."

  /** The greeting message exactly as the page is first rendered. */
  const Greeting: Message := Message(1, GreetingText, Ai)

  /** The number of messages in `log` written by `who`. */
  function CountFrom(log: seq<Message>, who: Sender): (n: nat)
    ensures n <= |log|
    ensures n == 0 <==> forall i :: 0 <= i < |log| ==> log[i].sender != who
  {
    if log == [] then 0
    else CountFrom(log[..|log| - 1], who) + (if log[|log| - 1].sender == who then 1 else 0)
  }

  /** Appending one message adds one to its sender's count and nothing to
      the other sender's. */
  lemma CountFromAppend(log: seq<Message>, m: Message, who: Sender)
    ensures CountFrom(log + [m], who)
         == CountFrom(log, who) + (if m.sender == who then 1 else 0)
  {
    assert (log + [m])[..|log|] == log;
  }

  /** Every id in `log` differs from every other. */
  predicate DistinctIds(log: seq<Message>) {
    forall i, j :: 0 <= i < j < |log| ==> log[i].id != log[j].id
  }

  /** Each message's id is its 1-based position in `log`. */
  predicate PositionalIds(log: seq<Message>) {
    forall i :: 0 <= i < |log| ==> log[i].id == i + 1
  }

  /** Position-numbered logs never repeat an id, so the list keys the page
      renders with are unique. */
  lemma PositionalIdsAreDistinct(log: seq<Message>)
    requires PositionalIds(log)
    ensures DistinctIds(log)
  {
  }
}
