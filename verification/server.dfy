/** The chat backend (server.py): a global conversation history kept as a
    window of at most ten lines before each upstream call, a prompt built from
    it, and the reset endpoint. The HTTP call to the language model is not
    modelled; its result is the `Upstream` value passed in. */
module Server {
  import opened Maybe
  import opened Text

  const MaxHistory: nat := 10

  /** The JSON body of `POST /chat`, or the exception raised while reading it. */
  datatype Request = Readable(prompt: Option<string>) | Unreadable(message: string)

  /** What `requests.post` to the model produced. */
  datatype Upstream =
    | Answer(statusCode: nat, body: UpstreamBody)
    | PostFailed(message: string)

  /** The body of a status-200 answer once `response.json()` has run. */
  datatype UpstreamBody = Fields(response: Option<string>) | NotJson(message: string)

  datatype ReplyBody =
    | ErrorField(error: string)
    | Answered(response: string, history: seq<string>)
    | Cleared(status: string)

  datatype Reply = Reply(status: nat, body: ReplyBody)

  /** The history after the request, the prompt posted upstream (if the
      handler got that far), and the reply. */
  datatype Handled = Handled(history: seq<string>, posted: Option<string>, reply: Reply)

  /** The two instruction lines that open every prompt. */
  const Instruction := "You are a helpful assistant " + "who replies briefly and concisely."
  const Reminder := "Remember all previous conversation."
  const Header := Instruction + "\n" + Reminder + "\n"
  const UserTag := "User: "
  const AiTag := "AI: "
  const Cue := "\nAI:"

  /** `history[-n:]` for positive `n`: the last `n` entries, or all of them. */
  function LastN(history: seq<string>, n: nat): (w: seq<string>)
    requires n > 0
    ensures |w| == if |history| < n then |history| else n
    ensures w == history[|history| - |w|..]
  {
    if |history| <= n then history else history[|history| - n..]
  }

  /** The text sent to the model: the fixed header, the history one line per
      entry, then the cue for the model's turn. */
  function FullPrompt(history: seq<string>): (p: string)
    ensures |Header| + |Cue| <= |p|
    ensures p[..|Header|] == Header && p[|p| - |Cue|..] == Cue
    ensures |history| >= 1 ==>
              var newest := history[|history| - 1];
              && |Header| + |newest| + |Cue| <= |p|
              && p[|p| - |Cue| - |newest|..|p| - |Cue|] == newest
  {
    JoinEnds(history, "\n");
    Header + Join(history, "\n") + Cue
  }

  /** The part of `chat()` after the prompt is built: post it, and on a
      status-200 answer append the model's line to the window. */
  function Forward(window: seq<string>, up: Upstream): (h: Handled)
    ensures h.posted == Some(FullPrompt(window))
    ensures |window| <= |h.history| && h.history[..|window|] == window
    ensures h.reply.status == 200 <==> |h.history| == |window| + 1
    ensures h.reply.status == 200 ==>
              && up.Answer? && up.statusCode == 200 && up.body.Fields?
              && h.history == window + [AiTag + GetOr(up.body.response, "")]
              && h.reply.body == Answered(GetOr(up.body.response, ""), h.history)
    ensures up.Answer? && up.statusCode != 200 ==>
              h.reply == Reply(500, ErrorField("Ollama returned status " + NatToString(up.statusCode)))
    ensures up.PostFailed? ==> h.reply == Reply(500, ErrorField(up.message))
    ensures up.Answer? && up.statusCode == 200 && up.body.NotJson? ==>
              h.reply == Reply(500, ErrorField(up.body.message))
    ensures h.reply.status != 200 ==> h.history == window
    ensures h.reply.status in {200, 500}
  {
    var full := FullPrompt(window);
    match up
    case PostFailed(message) => Handled(window, Some(full), Reply(500, ErrorField(message)))
    case Answer(code, body) =>
      if code != 200 then
        Handled(window, Some(full),
                Reply(500, ErrorField("Ollama returned status " + NatToString(code))))
      else match body
        case NotJson(message) => Handled(window, Some(full), Reply(500, ErrorField(message)))
        case Fields(response) =>
          var ai := GetOr(response, "");
          var updated := window + [AiTag + ai];
          assert updated[..|window|] == window;
          Handled(updated, Some(full), Reply(200, Answered(ai, updated)))
  }

  /** `chat()`. */
  function Chat(history: seq<string>, req: Request, up: Upstream): (h: Handled)
    ensures req.Unreadable? ==> h == Handled(history, None, Reply(500, ErrorField(req.message)))
    ensures req.Readable? && GetOr(req.prompt, "") == [] ==>
              h == Handled(history, None, Reply(400, ErrorField("Missing prompt")))
    ensures h.posted.Some? <==> req.Readable? && GetOr(req.prompt, "") != []
    ensures h.posted.Some? ==>
              h == Forward(LastN(history + [UserTag + req.prompt.value], MaxHistory), up)
    ensures h.reply.status in {200, 400, 500}
  {
    match req
    case Unreadable(message) => Handled(history, None, Reply(500, ErrorField(message)))
    case Readable(prompt) =>
      var input := GetOr(prompt, "");
      if input == [] then Handled(history, None, Reply(400, ErrorField("Missing prompt")))
      else Forward(LastN(history + [UserTag + input], MaxHistory), up)
  }

  /** `reset()`. */
  function Reset(history: seq<string>): (h: Handled)
    ensures h.history == [] && h.posted.None?
    ensures h.reply.status == 200
  {
    Handled([], None, Reply(200, Cleared("conversation history cleared")))
  }

  /** The window the prompt is built from ends with the new user line, holds at
      most ten entries, and is exactly the tail of the old history plus that line. */
  lemma WindowEndsWithUserLine(history: seq<string>, input: string)
    ensures var w := LastN(history + [UserTag + input], MaxHistory);
      && 1 <= |w| <= MaxHistory
      && w[|w| - 1] == UserTag + input
      && w == LastN(history, MaxHistory - 1) + [UserTag + input]
  {
  }

  /** Between requests the history never holds more than eleven lines. */
  lemma ChatKeepsBound(history: seq<string>, req: Request, up: Upstream)
    requires |history| <= MaxHistory + 1
    ensures |Chat(history, req, up).history| <= MaxHistory + 1
  {
  }

  /** A failed upstream call still leaves the user's line in the history, last. */
  lemma FailureKeepsUserLine(history: seq<string>, input: string, up: Upstream)
    requires input != []
    requires !(up.Answer? && up.statusCode == 200 && up.body.Fields?)
    ensures var h := Chat(history, Readable(Some(input)), up);
      && h.reply.status == 500
      && |h.history| >= 1
      && h.history[|h.history| - 1] == UserTag + input
  {
  }

  /** The prompt is the join, by line breaks, of the header lines, the history
      and the cue. */
  lemma {:induction false} PromptIsJoin(window: seq<string>)
    requires |window| >= 1
    ensures FullPrompt(window) == Join([Instruction, Reminder] + window + ["AI:"], "\n")
  {
    var head := [Instruction, Reminder];
    var body := Join(window, "\n");
    JoinAppend(window, ["AI:"], "\n");
    var tail := body + "\n" + "AI:";
    assert Join(window + ["AI:"], "\n") == tail;
    JoinAppend(head, window + ["AI:"], "\n");
    assert Join(head, "\n") == Instruction + "\n" + Reminder;
    assert head + (window + ["AI:"]) == head + window + ["AI:"];
    assert Join(head + window + ["AI:"], "\n") == Instruction + "\n" + Reminder + "\n" + tail;
    assert tail == body + Cue;
    assert FullPrompt(window) == Header + tail;
    assert Instruction + "\n" + Reminder + "\n" + tail == Header + tail;
  }

  lemma InstructionUnbroken()
    ensures '\n' !in Instruction
  {
    assert '\n' !in "You are a helpful assistant ";
    assert '\n' !in "who replies briefly and concisely.";
  }

  lemma ReminderUnbroken()
    ensures '\n' !in Reminder
  {
  }

  /** The prompt's lines are free of line breaks when the history's are. */
  lemma {:induction false} PromptLinesUnbroken(window: seq<string>)
    requires forall k :: 0 <= k < |window| ==> '\n' !in window[k]
    ensures var lines := [Instruction, Reminder] + window + ["AI:"];
      forall k :: 0 <= k < |lines| ==> '\n' !in lines[k]
  {
    InstructionUnbroken();
    ReminderUnbroken();
    var lines := [Instruction, Reminder] + window + ["AI:"];
    forall k | 0 <= k < |lines|
      ensures '\n' !in lines[k]
    {
      if k == 0 {
        assert lines[k] == Instruction;
      } else if k == 1 {
        assert lines[k] == Reminder;
      } else if k < 2 + |window| {
        assert lines[k] == window[k - 2];
      } else {
        assert lines[k] == "AI:";
      }
    }
  }

  /** When no history line contains a line break, the model sees the two
      header lines, then each history entry as one line, then the cue. */
  lemma {:induction false} PromptLines(window: seq<string>)
    requires |window| >= 1
    requires forall k :: 0 <= k < |window| ==> '\n' !in window[k]
    ensures Split(FullPrompt(window), '\n')
            == [Instruction, Reminder] + window + ["AI:"]
  {
    PromptIsJoin(window);
    PromptLinesUnbroken(window);
    SplitJoin([Instruction, Reminder] + window + ["AI:"], '\n');
  }

  datatype Call = ChatCall(req: Request, up: Upstream) | ResetCall

  /** The global history across a sequence of requests, each handled to
      completion before the next. */
  function Serve(history: seq<string>, calls: seq<Call>): (h: seq<string>)
    ensures |calls| == 0 ==> h == history
    ensures |calls| >= 1 && calls[|calls| - 1].ResetCall? ==> h == []
    decreases |calls|
  {
    if |calls| == 0 then history
    else
      var next := match calls[0]
        case ChatCall(req, up) => Chat(history, req, up).history
        case ResetCall => Reset(history).history;
      Serve(next, calls[1..])
  }

  /** From server start, whatever the requests and upstream answers, the
      history never exceeds eleven lines. */
  lemma {:induction false} ServeKeepsBound(history: seq<string>, calls: seq<Call>)
    requires |history| <= MaxHistory + 1
    ensures |Serve(history, calls)| <= MaxHistory + 1
    decreases |calls|
  {
    if |calls| > 0 {
      match calls[0]
      case ChatCall(req, up) =>
        ChatKeepsBound(history, req, up);
        ServeKeepsBound(Chat(history, req, up).history, calls[1..]);
      case ResetCall =>
        ServeKeepsBound([], calls[1..]);
    }
  }
}
