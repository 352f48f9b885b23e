/** The client and the server together: the client posts `{prompt: text}` to
    `/chat` (ChatInterface.tsx) and reads the server's JSON reply (server.py).
    The transport itself is not modelled; a reply reaches the client intact. */
module Wire {
  import opened Maybe
  import opened Text
  import ChatInput
  import ChatInterface
  import Server

  /** The client's view of a server reply: its status and the two fields it reads. */
  function Received(r: Server.Reply): (o: ChatInterface.Outcome)
    ensures o.Responded? && o.status == r.status && o.body.Parsed?
    ensures r.body.ErrorField? ==> o.body.error == Some(r.body.error) && o.body.response.None?
    ensures r.body.Answered? ==> o.body.error.None? && o.body.response == Some(r.body.response)
  {
    match r.body
    case ErrorField(e) => ChatInterface.Responded(r.status, ChatInterface.Parsed(Some(e), None))
    case Answered(text, _) => ChatInterface.Responded(r.status, ChatInterface.Parsed(None, Some(text)))
    case Cleared(_) => ChatInterface.Responded(r.status, ChatInterface.Parsed(None, None))
  }

  /** What the bot bubble shows for one message sent through the input box. */
  function Shown(history: seq<string>, text: string, up: Server.Upstream): Option<string>
  {
    ChatInterface.BotContent(Received(Server.Chat(history, Server.Readable(Some(text)), up).reply))
  }

  /** Text that passed the input box's guard is never a missing prompt. */
  lemma GuardedTextIsNeverMissing(draft: string, history: seq<string>, up: Server.Upstream)
    requires ChatInput.Submit(draft, false).sent.Some?
    ensures Server.Chat(history, Server.Readable(ChatInput.Submit(draft, false).sent), up).reply.status != 400
    ensures Server.Chat(history, Server.Readable(ChatInput.Submit(draft, false).sent), up).posted.Some?
  {
  }

  /** When the model answers, the user sees its answer; a missing `response`
      field upstream arrives as the empty string, never as absent content. */
  lemma ModelAnswerIsShown(history: seq<string>, text: string, response: Option<string>)
    requires text != []
    ensures Shown(history, text, Server.Answer(200, Server.Fields(response))) == Some(GetOr(response, ""))
  {
  }

  /** Every other upstream result reaches the user only as "HTTP error! status:
      500": the server's own error text is never shown, because the client
      checks `response.ok` before it reads the body. */
  lemma ServerFailureShowsOnlyStatus(history: seq<string>, text: string, up: Server.Upstream)
    requires text != []
    requires !(up.Answer? && up.statusCode == 200 && up.body.Fields?)
    ensures Shown(history, text, up)
            == Some(ChatInterface.ErrorPrefix + (ChatInterface.HttpErrorPrefix + "500"))
  {
    var reply := Server.Chat(history, Server.Readable(Some(text)), up).reply;
    assert reply.status == 500;
    ChatInterface.ServerErrorMessage(Received(reply).body);
  }
}
