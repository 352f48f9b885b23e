/** The chat view as a whole: ChatInterface.tsx renders ChatInput with
    `disabled={isTyping}` and `onSendMessage={handleSendMessage}`. Each user
    action and each resolution of the outstanding request is one atomic step. */
module ChatView {
  import opened Maybe
  import opened Text
  import ChatInput
  import opened ChatInterface

  datatype View = View(chat: State, draft: string)

  /** A freshly mounted view: no messages, nothing pending, an empty box. */
  const Mounted := View(Initial, "")

  datatype Event =
    | Typed(text: string)
    | Pressed(key: ChatInput.KeyPress, id: string, now: int)
    | Submitted(id: string, now: int)
    | Resolved(outcome: Outcome, id: string, now: int)

  /** Hands the result of the input box's guard to `handleSendMessage`. */
  function Deliver(v: View, s: ChatInput.Submission, id: string, now: int): (r: View)
    ensures r.draft == s.draft
    ensures s.sent.None? ==> r.chat == v.chat
    ensures s.sent.Some? ==> r.chat == Submit(v.chat, s.sent.value, id, now)
  {
    match s.sent
    case Some(text) => View(Submit(v.chat, text, id, now), s.draft)
    case None => View(v.chat, s.draft)
  }

  /** One step. Typing goes nowhere while the input is disabled; a resolution
      only exists while a request is outstanding. */
  function Step(v: View, e: Event): (r: View)
    ensures IsPrefix(v.chat.messages, r.chat.messages)
    ensures |r.chat.messages| <= |v.chat.messages| + 1
    ensures |r.chat.messages| == |v.chat.messages| ==> r.chat.isTyping == v.chat.isTyping
    ensures |r.chat.messages| == |v.chat.messages| + 1 ==>
              && r.chat.isTyping == !v.chat.isTyping
              && r.chat.messages[|v.chat.messages|].sender == (if v.chat.isTyping then FromBot else FromUser)
    ensures e.Resolved? && v.chat.isTyping ==>
              |r.chat.messages| == |v.chat.messages| + 1
              && r.chat.messages[|v.chat.messages|].content == BotContent(e.outcome)
  {
    match e
    case Typed(text) => if v.chat.isTyping then v else View(v.chat, text)
    case Pressed(k, id, now) => Deliver(v, ChatInput.KeyEffect(v.draft, v.chat.isTyping, k), id, now)
    case Submitted(id, now) => Deliver(v, ChatInput.Submit(v.draft, v.chat.isTyping), id, now)
    case Resolved(o, id, now) =>
      if v.chat.isTyping then View(Complete(v.chat, o, id, now), v.draft) else v
  }

  /** The events applied in order. The log only grows by appending, at most
      one message per event. */
  function Run(v: View, events: seq<Event>): (r: View)
    ensures IsPrefix(v.chat.messages, r.chat.messages)
    ensures |r.chat.messages| <= |v.chat.messages| + |events|
    decreases |events|
  {
    if |events| == 0 then v
    else
      var w := Step(v, events[0]);
      var r := Run(w, events[1..]);
      assert r.chat.messages[..|v.chat.messages|] == r.chat.messages[..|w.chat.messages|][..|v.chat.messages|];
      r
  }

  predicate IsPrefix(a: seq<Message>, b: seq<Message>)
  {
    |a| <= |b| && b[..|a|] == a
  }

  /** The log alternates user, bot, user, bot, ...; a request is outstanding
      exactly when the last message is a user message still waiting for its reply. */
  predicate Alternates(v: View)
  {
    && (forall i :: 0 <= i < |v.chat.messages| ==>
          v.chat.messages[i].sender == (if i % 2 == 0 then FromUser else FromBot))
    && (v.chat.isTyping <==> |v.chat.messages| % 2 == 1)
  }

  /** While a reply is pending no event other than the reply touches the log or
      the flag: a second send cannot start. */
  lemma PendingBlocksSecondSend(v: View, e: Event)
    requires v.chat.isTyping && !e.Resolved?
    ensures Step(v, e).chat == v.chat
  {
  }

  /** Every step keeps the alternation and only ever appends to the log. */
  lemma StepPreserves(v: View, e: Event)
    requires Alternates(v)
    ensures Alternates(Step(v, e))
    ensures IsPrefix(v.chat.messages, Step(v, e).chat.messages)
    ensures |Step(v, e).chat.messages| <= |v.chat.messages| + 1
  {
    var w := Step(v, e).chat.messages;
    var n := |v.chat.messages|;
    forall i | 0 <= i < |w|
      ensures w[i].sender == (if i % 2 == 0 then FromUser else FromBot)
    {
      if i < n {
        assert w[i] == w[..n][i];
      }
    }
  }

  /** Over any run the log only grows by appending, and the alternation holds throughout. */
  lemma {:induction false} RunPreserves(v: View, events: seq<Event>)
    requires Alternates(v)
    ensures Alternates(Run(v, events))
    ensures IsPrefix(v.chat.messages, Run(v, events).chat.messages)
    decreases |events|
  {
    if |events| > 0 {
      var w := Step(v, events[0]);
      StepPreserves(v, events[0]);
      RunPreserves(w, events[1..]);
    }
  }

  /** From a fresh mount, after any sequence of events, user and bot messages
      pair up in order and nothing is ever removed. */
  lemma MountedRunAlternates(events: seq<Event>)
    ensures Alternates(Run(Mounted, events))
  {
    RunPreserves(Mounted, events);
  }

  /** Typing a trimmed, non-empty text into a fresh view, submitting it, and
      the request resolving with any outcome leaves exactly the user message
      and the reply for that outcome, nothing pending and an empty box. */
  lemma SendOnce(text: string, o: Outcome, userId: string, sentAt: int,
                 botId: string, repliedAt: int)
    requires text != [] && Trimmed(text)
    ensures Run(Mounted, [Typed(text), Submitted(userId, sentAt), Resolved(o, botId, repliedAt)])
            == View(State([Message(userId, Some(text), FromUser, sentAt),
                           Message(botId, BotContent(o), FromBot, repliedAt)], false), "")
  {
    TypeAndSubmit(text, userId, sentAt);
    ReplyArrives(Message(userId, Some(text), FromUser, sentAt), o, botId, repliedAt);
    RunThree(Mounted, Typed(text), Submitted(userId, sentAt), Resolved(o, botId, repliedAt));
  }

  /** Typing a trimmed, non-empty text into a fresh view and submitting it
      leaves one user message, a pending request and an empty box. */
  lemma TypeAndSubmit(text: string, userId: string, sentAt: int)
    requires text != [] && Trimmed(text)
    ensures Step(Step(Mounted, Typed(text)), Submitted(userId, sentAt))
            == View(State([Message(userId, Some(text), FromUser, sentAt)], true), "")
  {
    TrimPadded([], text, []);
    assert [] + text + [] == text;
    var v1 := View(Initial, text);
    assert Step(Mounted, Typed(text)) == v1;
    var sub := ChatInput.Submit(text, false);
    assert sub == ChatInput.Submission([], Some(text));
    assert Step(v1, Submitted(userId, sentAt)) == Deliver(v1, sub, userId, sentAt);
  }

  /** The reply to a pending single message completes the pair. */
  lemma ReplyArrives(m: Message, o: Outcome, botId: string, repliedAt: int)
    ensures Step(View(State([m], true), ""), Resolved(o, botId, repliedAt))
            == View(State([m, Message(botId, BotContent(o), FromBot, repliedAt)], false), "")
  {
    assert [m] + [Message(botId, BotContent(o), FromBot, repliedAt)]
           == [m, Message(botId, BotContent(o), FromBot, repliedAt)];
  }

  /** Three events are three steps. */
  lemma RunThree(v: View, e0: Event, e1: Event, e2: Event)
    ensures Run(v, [e0, e1, e2]) == Step(Step(Step(v, e0), e1), e2)
  {
    var v1 := Step(v, e0);
    var v2 := Step(v1, e1);
    var v3 := Step(v2, e2);
    assert [e2][1..] == [];
    assert Run(v2, [e2]) == v3;
    assert [e1, e2][1..] == [e2];
    assert Run(v1, [e1, e2]) == v3;
    assert [e0, e1, e2][1..] == [e1, e2];
  }

  /** Type "hello", submit, and the backend answers `{response: "hi there"}`. */
  lemma HelloScenario()
    ensures var v := Run(Mounted, [
        Typed("hello"),
        Submitted("1", 0),
        Resolved(Responded(200, Parsed(None, Some("hi there"))), "2", 1)]);
      && v.chat.messages == [Message("1", Some("hello"), FromUser, 0),
                             Message("2", Some("hi there"), FromBot, 1)]
      && !v.chat.isTyping
      && v.draft == ""
  {
    var answer := Responded(200, Parsed(None, Some("hi there")));
    SendOnce("hello", answer, "1", 0, "2", 1);
    assert BotContent(answer) == Some("hi there");
  }

  /** Submit "x" while the backend answers HTTP 500: the reply names the status. */
  lemma ServerErrorScenario()
    ensures var v := Run(Mounted, [
        Typed("x"),
        Submitted("1", 0),
        Resolved(Responded(500, Parsed(Some("boom"), None)), "2", 1)]);
      && |v.chat.messages| == 2
      && v.chat.messages[1].content == Some(ErrorPrefix + (HttpErrorPrefix + "500"))
      && !v.chat.isTyping
  {
    var o := Responded(500, Parsed(Some("boom"), None));
    SendOnce("x", o, "1", 0, "2", 1);
    ServerErrorMessage(Parsed(Some("boom"), None));
  }
}
