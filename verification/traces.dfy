/** Runs of the chat page: sequences of user and timer events applied to
    the session one at a time, as the single-threaded event loop does, and
    the invariants every reachable state keeps. */
module Traces {
  import opened Messages
  import opened JsText
  import opened ChatSession

  datatype Option<T> = None | Some(value: T)

  /** How a fired reply is numbered: with the id captured when its question
      was sent (the page as written) or from the log it joins. */
  datatype ReplyIds = CapturedAtSend | NumberedOnArrival

  /** What can happen on the page: the text box changes, send is pressed
      (button or Enter), or the oldest scheduled reply fires. */
  datatype Event = Typed(text: string) | SendPressed | ReplyFired

  /** One event. A timer can fire only when one is scheduled; otherwise the
      event cannot occur and the step yields `None`. */
  function Step(s: Session, e: Event, ids: ReplyIds): (r: Option<Session>)
    ensures r.None? <==> e.ReplyFired? && s.pending == []
    ensures r.Some? ==> IsPrefix(s.messages, r.value.messages)
  {
    match e
    case Typed(text) => Some(EditInput(s, text))
    case SendPressed => Some(Send(s))
    case ReplyFired =>
      if s.pending == [] then None
      else if ids == CapturedAtSend then Some(DeliverReply(s))
      else Some(DeliverReplyRenumbered(s))
  }

  /** `a` is an initial segment of `b`. */
  predicate IsPrefix(a: seq<Message>, b: seq<Message>) {
    |a| <= |b| && b[..|a|] == a
  }

  /** The events of `tr` applied in order, or `None` when one of them
      cannot occur. */
  function Run(s: Session, tr: seq<Event>, ids: ReplyIds): (r: Option<Session>)
    ensures r.Some? ==> IsPrefix(s.messages, r.value.messages)
    decreases |tr|
  {
    if tr == [] then Some(s)
    else
      match Step(s, tr[0], ids)
      case None => None
      case Some(s') => Run(s', tr[1..], ids)
  }

  /** What the log may hold after the greeting: the user's non-blank
      questions and the canned reply. */
  predicate LaterEntry(m: Message) {
    && (m.sender == User ==> !AllTrimmable(m.text))
    && (m.sender == Ai ==> m.text == ReplyText)
  }

  /** The invariant of every reachable state:
      the log starts with the greeting; the typing indicator is never shown
      with no reply scheduled; the answers in the log plus the replies in
      the queue are as many as the accepted questions; queued ids never run ahead
      of the next free position and increase along the queue. */
  predicate Inv(s: Session) {
    && |s.messages| >= 1 && s.messages[0] == Greeting
    && (forall i :: 1 <= i < |s.messages| ==> LaterEntry(s.messages[i]))
    && (s.isTyping ==> s.pending != [])
    && CountFrom(s.messages, User) + 1 == CountFrom(s.messages, Ai) + |s.pending|
    && (forall i :: 0 <= i < |s.pending| ==> s.pending[i].id <= |s.messages| + 1)
    && (forall i, j :: 0 <= i < j < |s.pending| ==> s.pending[i].id < s.pending[j].id)
  }

  /** Appending one message keeps the per-entry part of the invariant
      and adds one to its sender's count. */
  lemma AppendKeepsEntries(log: seq<Message>, m: Message)
    requires |log| >= 1 && forall i :: 1 <= i < |log| ==> LaterEntry(log[i])
    requires LaterEntry(m)
    ensures forall i :: 1 <= i < |log + [m]| ==> LaterEntry((log + [m])[i])
    ensures CountFrom(log + [m], User) == CountFrom(log, User) + (if m.sender == User then 1 else 0)
    ensures CountFrom(log + [m], Ai) == CountFrom(log, Ai) + (if m.sender == Ai then 1 else 0)
  {
    CountFromAppend(log, m, User);
    CountFromAppend(log, m, Ai);
  }

  /** An accepted send keeps the invariant. */
  lemma SendPreservesInv(s: Session)
    requires Inv(s)
    ensures Inv(Send(s))
  {
    if !IsBlank(s.input) {
      var r := Send(s);
      var m := r.messages[|s.messages|];
      assert r.messages == s.messages + [m];
      AppendKeepsEntries(s.messages, m);
    }
  }

  /** A fired reply keeps the invariant, under either numbering. */
  lemma DeliverPreservesInv(s: Session, ids: ReplyIds)
    requires Inv(s) && s.pending != []
    ensures Inv(Step(s, ReplyFired, ids).value)
  {
    var r := Step(s, ReplyFired, ids).value;
    var m := r.messages[|s.messages|];
    assert r.messages == s.messages + [m];
    AppendKeepsEntries(s.messages, m);
    assert r.pending == s.pending[1..];
  }

  /** Each event keeps the invariant, under either numbering. */
  lemma StepPreservesInv(s: Session, e: Event, ids: ReplyIds)
    requires Inv(s)
    ensures Step(s, e, ids).Some? ==> Inv(Step(s, e, ids).value)
  {
    match e
    case Typed(_) =>
    case SendPressed => SendPreservesInv(s);
    case ReplyFired =>
      if s.pending != [] {
        DeliverPreservesInv(s, ids);
      }
  }

  /** Every run keeps the invariant. */
  lemma {:induction false} RunPreservesInv(s: Session, tr: seq<Event>, ids: ReplyIds)
    requires Inv(s)
    ensures Run(s, tr, ids).Some? ==> Inv(Run(s, tr, ids).value)
    decreases |tr|
  {
    if tr != [] {
      StepPreservesInv(s, tr[0], ids);
      match Step(s, tr[0], ids)
      case None =>
      case Some(s') => RunPreservesInv(s', tr[1..], ids);
    }
  }

  /** Every state the page can reach from its first render satisfies the
      invariant; in particular, once no reply is queued, the log holds as
      many answers as accepted questions and typing is off. */
  lemma ReachableStatesKeepInv(tr: seq<Event>, ids: ReplyIds)
    ensures Run(Init(), tr, ids).Some? ==> Inv(Run(Init(), tr, ids).value)
    ensures Run(Init(), tr, ids).Some? && Run(Init(), tr, ids).value.pending == [] ==>
      var t := Run(Init(), tr, ids).value;
      !t.isTyping && CountFrom(t.messages, Ai) == CountFrom(t.messages, User) + 1
  {
    assert Inv(Init());
    RunPreservesInv(Init(), tr, ids);
  }

  /** Strict alternation from `s`: every accepted send happens while no
      reply is queued. */
  predicate Alternating(s: Session, tr: seq<Event>, ids: ReplyIds)
    decreases |tr|
  {
    tr == [] ||
    (&& (tr[0].SendPressed? && !IsBlank(s.input) ==> s.pending == [])
     && match Step(s, tr[0], ids)
        case None => true
        case Some(s') => Alternating(s', tr[1..], ids))
  }

  /** The state between turns of a strictly alternating run: ids are
      positions and at most the one reply for the last question is queued,
      numbered with the next position. */
  predicate InTurn(s: Session) {
    && PositionalIds(s.messages)
    && (s.pending == [] || s.pending == [PendingReply(|s.messages| + 1)])
  }

  /** One alternating step keeps ids positional. */
  lemma StepKeepsTurn(s: Session, e: Event)
    requires InTurn(s)
    requires e.SendPressed? && !IsBlank(s.input) ==> s.pending == []
    ensures Step(s, e, CapturedAtSend).Some? ==> InTurn(Step(s, e, CapturedAtSend).value)
  {
    if Step(s, e, CapturedAtSend).Some? {
      var r := Step(s, e, CapturedAtSend).value;
      if r.messages != s.messages {
        forall i | 0 <= i < |r.messages|
          ensures r.messages[i].id == i + 1
        {
          if i < |s.messages| {
            assert r.messages[i] == s.messages[i];
          }
        }
      }
    }
  }

  /** With strict alternation, the page as written numbers every message
      with its 1-based position, so no two messages share an id. */
  lemma {:induction false} AlternationKeepsIdsPositional(s: Session, tr: seq<Event>)
    requires InTurn(s) && Alternating(s, tr, CapturedAtSend)
    ensures Run(s, tr, CapturedAtSend).Some? ==>
      PositionalIds(Run(s, tr, CapturedAtSend).value.messages)
      && DistinctIds(Run(s, tr, CapturedAtSend).value.messages)
    decreases |tr|
  {
    if tr == [] {
      PositionalIdsAreDistinct(s.messages);
    } else {
      StepKeepsTurn(s, tr[0]);
      match Step(s, tr[0], CapturedAtSend)
      case None =>
      case Some(s') => AlternationKeepsIdsPositional(s', tr[1..]);
    }
  }

  /** From the first render, alternating runs keep ids equal to positions. */
  lemma AlternatingRunsFromInitNumberByPosition(tr: seq<Event>)
    requires Alternating(Init(), tr, CapturedAtSend)
    ensures Run(Init(), tr, CapturedAtSend).Some? ==>
      PositionalIds(Run(Init(), tr, CapturedAtSend).value.messages)
  {
    AlternationKeepsIdsPositional(Init(), tr);
  }

  /** Numbering replies on arrival keeps ids equal to positions on every
      run, overlapping sends included. */
  lemma {:induction false} RenumberedRunsNumberByPosition(s: Session, tr: seq<Event>)
    requires PositionalIds(s.messages)
    ensures Run(s, tr, NumberedOnArrival).Some? ==>
      PositionalIds(Run(s, tr, NumberedOnArrival).value.messages)
      && DistinctIds(Run(s, tr, NumberedOnArrival).value.messages)
    decreases |tr|
  {
    if tr == [] {
      PositionalIdsAreDistinct(s.messages);
    } else {
      match Step(s, tr[0], NumberedOnArrival)
      case None =>
      case Some(s') =>
        forall i | 0 <= i < |s'.messages|
          ensures s'.messages[i].id == i + 1
        {
          if i < |s.messages| {
            assert s'.messages[i] == s.messages[i];
          }
        }
        RenumberedRunsNumberByPosition(s', tr[1..]);
    }
  }

  /** Two questions sent before the first answer arrives. */
  const Overlapping: seq<Event> :=
    [Typed("a"), SendPressed, Typed("b"), SendPressed, ReplyFired, ReplyFired]

  /** The page as written gives the second question and the first answer
      the same id 3, so the rendered list keys collide. After the first
      answer alone, the typing indicator is already off although the second
      answer is still queued. */
  lemma OverlappingSendsDuplicateIds()
    ensures var t := Run(Init(), Overlapping[..5], CapturedAtSend);
      t.Some? && !t.value.isTyping && |t.value.pending| == 1
    ensures var t := Run(Init(), Overlapping, CapturedAtSend);
      && t.Some? && |t.value.messages| == 5
      && t.value.messages[2] == Message(3, "b", User)
      && t.value.messages[3] == Message(3, ReplyText, Ai)
      && !DistinctIds(t.value.messages)
  {
    assert !IsTrimmable('a') && !IsTrimmable('b');
    assert "a"[0] == 'a' && "b"[0] == 'b';
    var s0 := Init();
    var s1 := EditInput(s0, "a");
    var s2 := Send(s1);
    var s3 := EditInput(s2, "b");
    var s4 := Send(s3);
    var s5 := DeliverReply(s4);
    var s6 := DeliverReply(s5);
    assert s4.pending == [PendingReply(3), PendingReply(4)];
    assert Run(s6, Overlapping[6..], CapturedAtSend) == Some(s6);
    assert Run(s5, Overlapping[5..], CapturedAtSend) == Some(s6);
    assert Run(s5, Overlapping[..5][5..], CapturedAtSend) == Some(s5);
    assert Run(s4, Overlapping[..5][4..], CapturedAtSend) == Some(s5);
    assert Run(s4, Overlapping[4..], CapturedAtSend) == Some(s6);
    assert Overlapping[..5][3..] == Overlapping[3..5];
    assert Run(s3, Overlapping[3..], CapturedAtSend) == Some(s6);
    assert Run(s3, Overlapping[..5][3..], CapturedAtSend) == Some(s5);
    assert Run(s2, Overlapping[2..], CapturedAtSend) == Some(s6);
    assert Run(s2, Overlapping[..5][2..], CapturedAtSend) == Some(s5);
    assert Run(s1, Overlapping[1..], CapturedAtSend) == Some(s6);
    assert Run(s1, Overlapping[..5][1..], CapturedAtSend) == Some(s5);
    assert s6.messages[2].id == s6.messages[3].id;
  }
}
