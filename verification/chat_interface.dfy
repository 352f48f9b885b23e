/** The chat exchange (client-side/src/components/Chat/ChatInterface.tsx): an
    append-only message log and the `isTyping` flag, driven by a submit step and
    a completion step. The single `fetch` to the chat endpoint is not modelled;
    its result is the abstract `Outcome` passed to the completion step. Message
    ids (`Date.now()`) and timestamps (`new Date()`) are parameters. */
module ChatInterface {
  import opened Maybe
  import opened Text

  datatype Sender = FromUser | FromBot

  /** A chat entry (`Message` of ChatMessage.tsx). The content of a bot reply is
      `data.response`, which is `undefined` when the body lacks that field. */
  datatype Message = Message(id: string, content: Option<string>, sender: Sender, timestamp: int)

  datatype State = State(messages: seq<Message>, isTyping: bool)

  /** The state the view mounts with. */
  const Initial := State([], false)

  /** A value thrown inside the `try`: an `Error` with its message, or anything else. */
  datatype Thrown = ErrorObject(message: string) | NonError

  /** The body of a response, once `response.json()` has run. */
  datatype Body =
    | Parsed(error: Option<string>, response: Option<string>)
    | Unparsable(thrown: Thrown)

  /** How the request ended: `fetch` rejected, or a response with a status arrived. */
  datatype Outcome =
    | Rejected(thrown: Thrown)
    | Responded(status: nat, body: Body)

  /** What the `try` block concludes: a reply text (possibly absent) or a thrown value. */
  datatype Completion = Reply(content: Option<string>) | Failure(thrown: Thrown)

  /** `response.ok`: the status is in the 2xx range. */
  predicate IsOk(status: nat)
    ensures IsOk(status) <==> 200 <= status <= 299
  {
    200 <= status <= 299
  }

  /** JavaScript truthiness of the `error` field, modelled as a string: the
      falsy values are an absent field and the empty string. */
  predicate Truthy(field: Option<string>)
    ensures !Truthy(field) <==> field == None || field == Some("")
  {
    field.Some? && field.value != []
  }

  const HttpErrorPrefix := "HTTP error! status: "
  const ErrorPrefix := "Sorry, I encountered an error: "
  const UnknownError := "Unknown error"

  /** The `try` block of `sendMessageToAPI`, from the outcome of `fetch`. */
  function Settle(o: Outcome): (c: Completion)
    ensures c.Reply? <==> o.Responded? && IsOk(o.status) && o.body.Parsed? && !Truthy(o.body.error)
    ensures c.Reply? ==> c.content == o.body.response
    ensures o.Responded? && !IsOk(o.status) ==> c == Failure(ErrorObject(HttpErrorPrefix + NatToString(o.status)))
    ensures o.Responded? && IsOk(o.status) && o.body.Parsed? && Truthy(o.body.error) ==> c == Failure(ErrorObject(o.body.error.value))
    ensures o.Responded? && IsOk(o.status) && o.body.Unparsable? ==> c == Failure(o.body.thrown)
    ensures o.Rejected? ==> c == Failure(o.thrown)
  {
    match o
    case Rejected(t) => Failure(t)
    case Responded(status, body) =>
      if !IsOk(status) then Failure(ErrorObject(HttpErrorPrefix + NatToString(status)))
      else match body
        case Unparsable(t) => Failure(t)
        case Parsed(error, response) =>
          if Truthy(error) then Failure(ErrorObject(error.value)) else Reply(response)
  }

  /** The reason shown for a thrown value. */
  function Reason(t: Thrown): (s: string)
    ensures t.NonError? ==> s == UnknownError
    ensures t.ErrorObject? ==> s == t.message
  {
    match t
    case ErrorObject(m) => m
    case NonError => UnknownError
  }

  /** Content of the single bot message a completion appends. */
  function BotContent(o: Outcome): (content: Option<string>)
    ensures Settle(o).Reply? ==> content == Settle(o).content
    ensures Settle(o).Failure? ==> content == Some(ErrorPrefix + Reason(Settle(o).thrown))
  {
    match Settle(o)
    case Reply(c) => c
    case Failure(t) => Some(ErrorPrefix + Reason(t))
  }

  /** `handleSendMessage` up to its `await`: the user's message is appended and
      `isTyping` is set before the request is issued. */
  function Submit(s: State, content: string, id: string, now: int): (r: State)
    ensures r.isTyping
    ensures |r.messages| == |s.messages| + 1
    ensures r.messages[..|s.messages|] == s.messages
    ensures r.messages[|s.messages|] == Message(id, Some(content), FromUser, now)
  {
    State(s.messages + [Message(id, Some(content), FromUser, now)], true)
  }

  /** The rest of `sendMessageToAPI`: whatever the outcome, one bot message is
      appended (by the `try` or by the `catch`) and `finally` clears `isTyping`. */
  function Complete(s: State, o: Outcome, id: string, now: int): (r: State)
    ensures !r.isTyping
    ensures |r.messages| == |s.messages| + 1
    ensures r.messages[..|s.messages|] == s.messages
    ensures r.messages[|s.messages|].sender == FromBot
    ensures r.messages[|s.messages|].content == BotContent(o)
  {
    State(s.messages + [Message(id, BotContent(o), FromBot, now)], false)
  }

  /** A whole send cycle: submit, then the request resolves with `o`. */
  function Exchange(s: State, content: string, o: Outcome, userId: string, sentAt: int,
                    botId: string, repliedAt: int): (r: State)
    ensures !r.isTyping
    ensures |r.messages| == |s.messages| + 2
    ensures r.messages[..|s.messages|] == s.messages
    ensures r.messages[|s.messages|].sender == FromUser && r.messages[|s.messages|].content == Some(content)
    ensures r.messages[|s.messages| + 1].sender == FromBot && r.messages[|s.messages| + 1].content == BotContent(o)
  {
    Complete(Submit(s, content, userId, sentAt), o, botId, repliedAt)
  }

  /** One cycle grows the log by exactly two, user message first, leaves earlier
      messages as they were and ends with `isTyping` cleared. */
  lemma ExchangeAppendsUserThenBot(s: State, content: string, o: Outcome, userId: string,
                                   sentAt: int, botId: string, repliedAt: int)
    ensures var r := Exchange(s, content, o, userId, sentAt, botId, repliedAt);
      && |r.messages| == |s.messages| + 2
      && r.messages[..|s.messages|] == s.messages
      && r.messages[|s.messages|] == Message(userId, Some(content), FromUser, sentAt)
      && r.messages[|s.messages| + 1] == Message(botId, BotContent(o), FromBot, repliedAt)
      && !r.isTyping
  {
  }

  /** Every failure shows one diagnostic beginning with the apology prefix;
      a success shows `data.response` unchanged, even when it is absent. */
  lemma FailureShowsDiagnostic(o: Outcome)
    ensures Settle(o).Failure? ==>
              && BotContent(o).Some?
              && |ErrorPrefix| <= |BotContent(o).value|
              && BotContent(o).value[..|ErrorPrefix|] == ErrorPrefix
    ensures o.Responded? && IsOk(o.status) && o.body == Parsed(None, None) ==> BotContent(o) == None
  {
  }

  /** The diagnostic for a non-OK status names that status: the status can be
      read back from the bot message. */
  lemma HttpStatusReadBack(o: Outcome)
    requires o.Responded? && !IsOk(o.status)
    ensures var v := BotContent(o).value;
      var k := |ErrorPrefix| + |HttpErrorPrefix|;
      && k <= |v|
      && v[..k] == ErrorPrefix + HttpErrorPrefix
      && AllDigits(v[k..])
      && DecimalValue(v[k..]) == o.status
  {
    var d := NatToString(o.status);
    var p := ErrorPrefix + HttpErrorPrefix;
    assert Settle(o) == Failure(ErrorObject(HttpErrorPrefix + d));
    var v := ErrorPrefix + (HttpErrorPrefix + d);
    assert BotContent(o) == Some(v);
    assert v == p + d;
    assert v[|p|..] == d;
    assert v[..|p|] == p;
    NatToStringRoundTrip(o.status);
  }

  /** The message shown for an internal server error, whatever its body says. */
  lemma ServerErrorMessage(b: Body)
    ensures BotContent(Responded(500, b)) == Some(ErrorPrefix + (HttpErrorPrefix + "500"))
  {
    assert NatToString(500) == "500" by {
      assert NatToString(5) == "5";
      assert NatToString(50) == "50";
    }
  }

  /** Two different non-OK statuses never produce the same bot message. */
  lemma HttpStatusesDistinguished(s1: nat, s2: nat, b1: Body, b2: Body)
    requires !IsOk(s1) && !IsOk(s2) && s1 != s2
    ensures BotContent(Responded(s1, b1)) != BotContent(Responded(s2, b2))
  {
    HttpStatusReadBack(Responded(s1, b1));
    HttpStatusReadBack(Responded(s2, b2));
  }
}
