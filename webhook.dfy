/**
  The webhook handler for "message created" events of the support platform.
  A payload is first normalised (conversation id with its display-id
  fallback, missing or null objects read as empty, content defaulting to
  ""), then exactly one outcome is chosen: ignore the event, refuse with a
  configuration error, or send the fixed welcome text and answer with the
  created message id or with the send's error.

  The send itself is a parameter: a function from the request to what the
  messaging client returned or raised. The handler's answer records every
  send it made, so "no send happens" is a statement about that list.
*/
module Webhook {
  import opened Wrappers
  import opened JsonValue
  import opened PyStr

  const StartCommand: string := "/start"
  const WelcomeText: string := "欢迎来到客服！请问有什么可以帮助您？"
  const MissingConfigMessage: string := "Missing CHATWOOT_API_TOKEN or conversation/account id in payload"

  /** What the handler reads from a payload; a missing key reads as null, a missing content as "". */
  datatype Event = Event(event: Json, messageType: Json, content: Json, accountId: Json, conversationId: Json)

  /** One call of the messaging client: post `content` into a conversation of an account. */
  datatype Send = Send(accountId: Json, conversationId: Json, content: string)

  /** What the client call produced: the decoded JSON response, or the text of the exception it raised. */
  datatype SendResult = Response(body: Json) | Raised(message: string)

  /** The handler's answers. */
  datatype Outcome =
    | Ignored
    | MissingConfig(hasToken: bool, accountId: Json, conversationId: Json)
    | Delivered(sentMessageId: Json)
    | DeliveryFailed(message: string)

  /** The outcome together with the sends made on the way. */
  datatype Handled = Handled(outcome: Outcome, sent: seq<Send>)

  /** What the decision step asks for: answer at once, or send the welcome text first. */
  datatype Action = Respond(outcome: Outcome) | SendWelcome(request: Send)

  /** A value `ObjectOrEmpty` accepts. */
  predicate ObjectLike(v: Json) {
    !Truthy(v) || v.JObject?
  }

  /**
    `payload.get(key) or {}`, ready for `.get`: a falsy value reads as the
    empty object, an object as itself, and any other value raises
    AttributeError at the first `.get`.
  */
  function ObjectOrEmpty(v: Json): (r: Result<map<string, Json>, string>)
    ensures r.Success? <==> ObjectLike(v)
    ensures r.Success? ==> (Truthy(JObject(r.value)) <==> Truthy(v))
    ensures r.Success? && v.JObject? ==> r.value == v.fields
    ensures r.Failure? ==> r.error == AttributeError(v, "get")
  {
    if !Truthy(v) then Success(map[])
    else if v.JObject? then Success(v.fields)
    else Failure(AttributeError(v, "get"))
  }

  /**
    Normalises a payload. It fails, with the AttributeError text, when the
    conversation or (after it) the account entry is truthy but not an object.
    The conversation id is the conversation's `id` when that is truthy and
    its `display_id` otherwise.
  */
  function Normalise(payload: map<string, Json>): (r: Result<Event, string>)
    ensures var conversation := Get(payload, "conversation", JNull);
      var account := Get(payload, "account", JNull);
      && (r.Success? <==> ObjectLike(conversation) && ObjectLike(account))
      && (!ObjectLike(conversation) ==> r == Failure(AttributeError(conversation, "get")))
      && (ObjectLike(conversation) && !ObjectLike(account) ==> r == Failure(AttributeError(account, "get")))
    ensures r.Success? ==>
      var conv := if Truthy(Get(payload, "conversation", JNull)) then Get(payload, "conversation", JNull).fields else map[];
      var id := Get(conv, "id", JNull);
      && (Truthy(id) ==> r.value.conversationId == id)
      && (!Truthy(id) ==> r.value.conversationId == Get(conv, "display_id", JNull))
      && (Truthy(r.value.conversationId) <==> Truthy(id) || Truthy(Get(conv, "display_id", JNull)))
    ensures r.Success? ==>
      var account := Get(payload, "account", JNull);
      && r.value.event == Get(payload, "event", JNull)
      && r.value.messageType == Get(payload, "message_type", JNull)
      && r.value.content == Get(payload, "content", JStr(""))
      && r.value.accountId == (if Truthy(account) then Get(account.fields, "id", JNull) else JNull)
  {
    match ObjectOrEmpty(Get(payload, "conversation", JNull))
    case Failure(e) => Failure(e)
    case Success(conversation) =>
      match ObjectOrEmpty(Get(payload, "account", JNull))
      case Failure(e) => Failure(e)
      case Success(account) =>
        Success(Event(
          event := Get(payload, "event", JNull),
          messageType := Get(payload, "message_type", JNull),
          content := Get(payload, "content", JStr("")),
          accountId := Get(account, "id", JNull),
          conversationId := Or(Get(conversation, "id", JNull), Get(conversation, "display_id", JNull))))
  }

  /** The event gate: only incoming messages of a "message_created" event are acted on. */
  predicate IsIncomingMessage(ev: Event) {
    ev.event == JStr("message_created") && ev.messageType == JStr("incoming")
  }

  /** The token and both ids are present (truthy). */
  predicate HasConfiguration(ev: Event, token: string) {
    token != "" && Truthy(ev.accountId) && Truthy(ev.conversationId)
  }

  /**
    `(content or "").strip()`: a falsy content is the empty command, a string
    is stripped of surrounding whitespace, anything else raises AttributeError.
  */
  function CommandText(content: Json): (r: Result<string, string>)
    ensures !Truthy(content) ==> r == Success("")
    ensures r.Success? ==> r.value == [] || (!IsSpace(r.value[0]) && !IsSpace(r.value[|r.value| - 1]))
    ensures r.Failure? <==> Truthy(content) && !content.JStr?
  {
    if !Truthy(content) then Success("")
    else if content.JStr? then Success(Strip(content.s))
    else Failure(AttributeError(content, "strip"))
  }

  /**
    The decision: ignore anything but an incoming message whose stripped text
    is exactly `/start`; for that, refuse with the debug record when the token
    or an id is missing, and otherwise ask for one send of the welcome text to
    the event's account and conversation. The content is only looked at past
    the event gate, and the configuration only for `/start`.
  */
  function Decide(ev: Event, token: string): (r: Result<Action, string>)
    ensures !IsIncomingMessage(ev) ==> r == Success(Respond(Ignored))
    ensures r.Failure? <==> IsIncomingMessage(ev) && CommandText(ev.content).Failure?
    ensures IsIncomingMessage(ev) && CommandText(ev.content).Success? && CommandText(ev.content).value != StartCommand
      ==> r == Success(Respond(Ignored))
    ensures (r.Success? && r.value.SendWelcome?)
      <==> IsIncomingMessage(ev) && CommandText(ev.content) == Success(StartCommand) && HasConfiguration(ev, token)
    ensures r.Success? && r.value.SendWelcome? ==> r.value.request == Send(ev.accountId, ev.conversationId, WelcomeText)
    ensures (r.Success? && r.value.Respond? && r.value.outcome.MissingConfig?)
      <==> IsIncomingMessage(ev) && CommandText(ev.content) == Success(StartCommand) && !HasConfiguration(ev, token)
    ensures r.Success? && r.value.Respond? ==>
      r.value.outcome.Ignored? || r.value.outcome == MissingConfig(token != "", ev.accountId, ev.conversationId)
  {
    if !IsIncomingMessage(ev) then
      Success(Respond(Ignored))
    else
      match CommandText(ev.content)
      case Failure(e) => Failure(e)
      case Success(text) =>
        if text != StartCommand then
          Success(Respond(Ignored))
        else if !HasConfiguration(ev, token) then
          Success(Respond(MissingConfig(token != "", ev.accountId, ev.conversationId)))
        else
          Success(SendWelcome(Send(ev.accountId, ev.conversationId, WelcomeText)))
  }

  /**
    The answer after a send: the response's `id` when the client returned an
    object; the exception text when it raised, or when the response was not an
    object (then `.get` raised inside the same `try`).
  */
  function Complete(res: SendResult): (o: Outcome)
    ensures o.Delivered? || o.DeliveryFailed?
    ensures res.Raised? ==> o == DeliveryFailed(res.message)
    ensures o.Delivered? <==> res.Response? && res.body.JObject?
    ensures o.Delivered? ==> o.sentMessageId == Get(res.body.fields, "id", JNull)
    ensures res.Response? && !res.body.JObject? ==> o == DeliveryFailed(AttributeError(res.body, "get"))
  {
    match res
    case Raised(message) => DeliveryFailed(message)
    case Response(body) =>
      if body.JObject? then Delivered(Get(body.fields, "id", JNull))
      else DeliveryFailed(AttributeError(body, "get"))
  }

  /**
    The whole handler. A Failure is an exception that escapes it (the
    framework turns it into an internal server error). At most one send
    happens, always of the welcome text, and exactly when the outcome is a
    delivery or a delivery failure, which then is what that send produced.
  */
  function HandleWebhook(payload: map<string, Json>, token: string, send: Send -> SendResult): (r: Result<Handled, string>)
    ensures r.Success? ==> |r.value.sent| <= 1
    ensures r.Success? ==> (r.value.sent != [] <==> r.value.outcome.Delivered? || r.value.outcome.DeliveryFailed?)
    ensures r.Success? && r.value.sent != [] ==>
      r.value.sent[0].content == WelcomeText && r.value.outcome == Complete(send(r.value.sent[0]))
    ensures r.Failure? ==> Normalise(payload).Failure? || CommandText(Get(payload, "content", JStr(""))).Failure?
  {
    match Normalise(payload)
    case Failure(e) => Failure(e)
    case Success(ev) =>
      match Decide(ev, token)
      case Failure(e) => Failure(e)
      case Success(Respond(outcome)) => Success(Handled(outcome, []))
      case Success(SendWelcome(request)) => Success(Handled(Complete(send(request)), [request]))
  }

  /** The HTTP status code of an answer. */
  function StatusCode(o: Outcome): (code: int)
    ensures code == 200 <==> o.Ignored? || o.Delivered?
    ensures code == 400 <==> o.MissingConfig?
    ensures code == 500 <==> o.DeliveryFailed?
  {
    match o
    case Ignored => 200
    case Delivered(_) => 200
    case MissingConfig(_, _, _) => 400
    case DeliveryFailed(_) => 500
  }

  /** The JSON content of an answer. */
  function Content(o: Outcome): (j: Json)
    ensures j.JObject? && "status" in j.fields
    ensures j.fields["status"] == JStr("ignored") <==> o.Ignored?
    ensures j.fields["status"] == JStr("ok") <==> o.Delivered?
    ensures j.fields["status"] == JStr("error") <==> StatusCode(o) != 200
  {
    match o
    case Ignored => JObject(map["status" := JStr("ignored")])
    case Delivered(id) => JObject(map["status" := JStr("ok"), "sent_message_id" := id])
    case MissingConfig(hasToken, accountId, conversationId) =>
      JObject(map[
        "status" := JStr("error"),
        "message" := JStr(MissingConfigMessage),
        "debug" := JObject(map[
          "has_token" := JBool(hasToken),
          "account_id" := accountId,
          "conversation_id" := conversationId])])
    case DeliveryFailed(message) => JObject(map["status" := JStr("error"), "message" := JStr(message)])
  }
}
