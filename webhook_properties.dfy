/**
  Properties of the webhook handler as a whole, from raw payload to answer.
*/
module WebhookProperties {
  import opened Wrappers
  import opened JsonValue
  import opened PyStr
  import opened Webhook
  import Client

  /** Anything but an incoming "message_created" message is ignored and nothing is sent. */
  lemma OtherEventsIgnored(payload: map<string, Json>, token: string, send: Send -> SendResult)
    requires Normalise(payload).Success? && !IsIncomingMessage(Normalise(payload).value)
    ensures HandleWebhook(payload, token, send) == Success(Handled(Ignored, []))
    ensures StatusCode(Ignored) == 200 && Content(Ignored) == JObject(map["status" := JStr("ignored")])
  {
  }

  /**
    A conversation entry that is truthy but not an object makes the handler
    raise before the event is looked at, whatever the event is.
  */
  lemma MalformedConversationRaises(payload: map<string, Json>, token: string, send: Send -> SendResult)
    requires "conversation" in payload && Truthy(payload["conversation"]) && !payload["conversation"].JObject?
    ensures HandleWebhook(payload, token, send) == Failure(AttributeError(payload["conversation"], "get"))
  {
  }

  /** A missing, null or otherwise falsy conversation or account entry reads as the empty object. */
  lemma FalsyObjectReadsAsEmpty(payload: map<string, Json>, key: string)
    requires key == "conversation" || key == "account"
    requires key !in payload || !Truthy(payload[key])
    ensures Normalise(payload) == Normalise(payload[key := JObject(map[])])
    ensures Normalise(payload) == Normalise(payload - {key})
  {
    var empty := JObject(map[]);
    GetAfterUpdate(payload, key, empty, key, JNull);
    forall k | k != key
      ensures Get(payload - {key}, k, JNull) == Get(payload, k, JNull)
      ensures Get(payload[key := empty], k, JNull) == Get(payload, k, JNull)
    {
      GetAfterUpdate(payload, key, empty, k, JNull);
    }
    GetAfterUpdate(payload, key, empty, "content", JStr(""));
  }

  /** Replacing the content of a payload changes only the content of its event. */
  lemma NormaliseReplacesContent(payload: map<string, Json>, c1: Json, c2: Json)
    ensures Normalise(payload["content" := c1]).Success? == Normalise(payload["content" := c2]).Success?
    ensures Normalise(payload["content" := c1]).Success? ==>
      Normalise(payload["content" := c1]).value == Normalise(payload["content" := c2]).value.(content := c1)
  {
    var p1, p2 := payload["content" := c1], payload["content" := c2];
    forall k | k != "content" ensures Get(p1, k, JNull) == Get(p2, k, JNull) {
      GetAfterUpdate(payload, "content", c1, k, JNull);
      GetAfterUpdate(payload, "content", c2, k, JNull);
    }
    GetAfterUpdate(payload, "content", c1, "content", JStr(""));
  }

  /** The decision sees the content only through the stripped command text. */
  lemma DecideSeesOnlyCommandText(ev: Event, content: Json, token: string)
    requires CommandText(content) == CommandText(ev.content)
    ensures Decide(ev.(content := content), token) == Decide(ev, token)
  {
  }

  /** Whitespace around a string content does not change its command text. */
  lemma CommandTextIgnoresPadding(w1: string, text: string, w2: string)
    requires AllSpace(w1) && AllSpace(w2)
    ensures CommandText(JStr(w1 + text + w2)) == CommandText(JStr(text))
  {
    StripIgnoresPadding(w1, text, w2);
    CommandTextOfString(text);
    CommandTextOfString(w1 + text + w2);
  }

  /** A string content is always its stripped text; the empty string strips to itself. */
  lemma CommandTextOfString(s: string)
    ensures CommandText(JStr(s)) == Success(Strip(s))
  {
    if s == [] {
      assert |Strip(s)| <= 0;
    }
  }

  /** Whitespace around the message text never changes the handler's answer or its sends. */
  lemma ContentPaddingIrrelevant(
    payload: map<string, Json>, w1: string, text: string, w2: string, token: string, send: Send -> SendResult)
    requires AllSpace(w1) && AllSpace(w2)
    ensures HandleWebhook(payload["content" := JStr(w1 + text + w2)], token, send)
         == HandleWebhook(payload["content" := JStr(text)], token, send)
  {
    var c1, c2 := JStr(w1 + text + w2), JStr(text);
    CommandTextIgnoresPadding(w1, text, w2);
    NormaliseReplacesContent(payload, c1, c2);
    if Normalise(payload["content" := c2]).Success? {
      DecideSeesOnlyCommandText(Normalise(payload["content" := c2]).value, c1, token);
    }
  }

  /**
    The text triggers the welcome branch exactly when it is `/start` with
    nothing but whitespace around it: `"  /start \n"` does, `"/START"`,
    `"/start x"` and `""` do not.
  */
  lemma StartCommandMatch(s: string)
    ensures CommandText(JStr(s)) == Success(StartCommand)
      <==> exists i :: PaddedAt(s, StartCommand, i)
  {
    var command := StartCommand;
    PrintableNotSpace(command[0]);
    PrintableNotSpace(command[5]);
    if s == [] {
      assert CommandText(JStr(s)) == Success("");
    }
    StripIsExactlyPaddedText(s, StartCommand);
  }

  /** An incoming message event with the given content and ids. */
  function IncomingMessage(content: string, accountId: Json, conversationId: Json): Event {
    Event(JStr("message_created"), JStr("incoming"), JStr(content), accountId, conversationId)
  }

  /**
    A message text with spaces and a line feed around `/start` takes the
    `/start` branch. The text is a parameter pinned by `requires`: stated over
    a literal argument, `Strip` is unfolded eagerly and the proof runs out of
    resource.
  */
  lemma PaddedStartAccepted(text: string, accountId: Json, conversationId: Json, token: string)
    requires text == "  /start \n"
    requires token != "" && Truthy(accountId) && Truthy(conversationId)
    ensures Decide(IncomingMessage(text, accountId, conversationId), token)
         == Success(SendWelcome(Send(accountId, conversationId, WelcomeText)))
  {
    PaddedStartStrips(text);
  }

  // Literal pinned by `requires`, as in `PaddedStartAccepted`.
  lemma PaddedStartStrips(text: string)
    requires text == "  /start \n"
    ensures Strip(text) == StartCommand
  {
    PaddedStartSplits(text);
    var w1, w2 :| AllSpace(w1) && AllSpace(w2) && text == w1 + StartCommand + w2;
    PaddingAroundStart(w1, w2);
  }

  // Literal pinned by `requires`, as in `PaddedStartAccepted`.
  lemma PaddedStartSplits(text: string)
    requires text == "  /start \n"
    ensures exists w1, w2 :: AllSpace(w1) && AllSpace(w2) && text == w1 + StartCommand + w2
  {
    SpacesAndNewline("  ", " \n");
    assert text == "  " + StartCommand + " \n";
  }

  // Literals pinned by `requires`, as in `PaddedStartAccepted`.
  lemma SpacesAndNewline(w1: string, w2: string)
    requires w1 == "  " && w2 == " \n"
    ensures AllSpace(w1) && AllSpace(w2)
  {
    SpaceAndNewlineAreSpace();
    assert |w1| == 2 && w1[0] == ' ' && w1[1] == ' ';
    assert |w2| == 2 && w2[0] == ' ' && w2[1] == '\n';
    forall k | 0 <= k < 2 ensures IsSpace(w1[k]) && IsSpace(w2[k]) {
      assert k == 0 || k == 1;
    }
  }

  lemma PaddingAroundStart(w1: string, w2: string)
    requires AllSpace(w1) && AllSpace(w2)
    ensures Strip(w1 + StartCommand + w2) == StartCommand
  {
    StripIgnoresPadding(w1, StartCommand, w2);
    StripPrintableEnds(StartCommand);
  }

  /**
    Near misses of the command are ignored whatever the ids and the token:
    `/START` (matching is case-sensitive), `/start x` (the match is exact,
    not a prefix test) and the empty text. The texts are pinned by
    `requires`, as in `PaddedStartAccepted`.
  */
  lemma NearMissesIgnored(text: string, accountId: Json, conversationId: Json, token: string)
    requires text == "/START" || text == "/start x" || text == ""
    ensures Decide(IncomingMessage(text, accountId, conversationId), token) == Success(Respond(Ignored))
  {
    if text != "" {
      StripPrintableEnds(text);
    }
  }

  /** A missing or null content is the empty text, which is ignored. */
  lemma NullContentIgnored(accountId: Json, conversationId: Json, token: string)
    ensures Decide(IncomingMessage("", accountId, conversationId).(content := JNull), token) == Success(Respond(Ignored))
  {
  }

  /**
    Without the exact `/start` text the answer is "ignored" and nothing is
    sent, whatever the token and the ids: the configuration is only checked
    for `/start`.
  */
  lemma ConfigurationOnlyCheckedForStart(payload: map<string, Json>, token: string, send: Send -> SendResult)
    requires Normalise(payload).Success?
    requires CommandText(Normalise(payload).value.content).Success?
    requires CommandText(Normalise(payload).value.content).value != StartCommand
    ensures HandleWebhook(payload, token, send) == Success(Handled(Ignored, []))
  {
  }

  /**
    `/start` with an empty token or a falsy id: status 400 with the debug
    record of what was present, and nothing is sent.
  */
  lemma MissingConfigurationRefused(payload: map<string, Json>, token: string, send: Send -> SendResult)
    requires Normalise(payload).Success?
    requires IsIncomingMessage(Normalise(payload).value)
    requires CommandText(Normalise(payload).value.content) == Success(StartCommand)
    requires !HasConfiguration(Normalise(payload).value, token)
    ensures var ev := Normalise(payload).value;
      var o := MissingConfig(token != "", ev.accountId, ev.conversationId);
      && HandleWebhook(payload, token, send) == Success(Handled(o, []))
      && StatusCode(o) == 400
      && Content(o) == JObject(map[
           "status" := JStr("error"),
           "message" := JStr(MissingConfigMessage),
           "debug" := JObject(map[
             "has_token" := JBool(token != ""),
             "account_id" := ev.accountId,
             "conversation_id" := ev.conversationId])])
  {
  }

  /**
    `/start` with the configuration present: exactly one send, of the welcome
    text to the event's account and conversation, and the answer is what that
    send produced.
  */
  lemma WelcomeSentOnce(payload: map<string, Json>, token: string, send: Send -> SendResult)
    requires Normalise(payload).Success?
    requires IsIncomingMessage(Normalise(payload).value)
    requires CommandText(Normalise(payload).value.content) == Success(StartCommand)
    requires HasConfiguration(Normalise(payload).value, token)
    ensures var ev := Normalise(payload).value;
      var request := Send(ev.accountId, ev.conversationId, WelcomeText);
      HandleWebhook(payload, token, send) == Success(Handled(Complete(send(request)), [request]))
  {
  }

  /**
    A send that raised is answered with status 500 and the exception text,
    never with "ok"; a send that returned an object is answered with status
    200 and the created message's id.
  */
  lemma SendResultDecidesAnswer(payload: map<string, Json>, token: string, send: Send -> SendResult)
    requires HandleWebhook(payload, token, send).Success?
    requires HandleWebhook(payload, token, send).value.sent != []
    ensures var h := HandleWebhook(payload, token, send).value;
      var res := send(h.sent[0]);
      && (res.Raised? ==>
            && StatusCode(h.outcome) == 500
            && Content(h.outcome) == JObject(map["status" := JStr("error"), "message" := JStr(res.message)]))
      && (res.Response? && res.body.JObject? ==>
            && StatusCode(h.outcome) == 200
            && Content(h.outcome) == JObject(map[
                 "status" := JStr("ok"),
                 "sent_message_id" := Get(res.body.fields, "id", JNull)]))
  {
  }

  /**
    The welcome send, with integer ids, becomes the client call of the
    handler (no `private` argument): a post to the messages URL of the
    event's conversation, with the client's headers and an outgoing, public,
    plain-text body carrying the welcome text. The client is built from the
    same token the handler checks, so the post carries that checked,
    non-empty token.
  */
  lemma WelcomeRequest(payload: map<string, Json>, token: string, send: Send -> SendResult, client: Client.ChatwootClient)
    requires client.Valid() && client.apiToken == token
    requires HandleWebhook(payload, token, send).Success?
    requires HandleWebhook(payload, token, send).value.sent != []
    requires HandleWebhook(payload, token, send).value.sent[0].accountId.JInt?
    requires HandleWebhook(payload, token, send).value.sent[0].conversationId.JInt?
    ensures var ev := Normalise(payload).value;
      var request := HandleWebhook(payload, token, send).value.sent[0];
      var accountId, conversationId := request.accountId.i, request.conversationId.i;
      var post := client.OutgoingRequest(accountId, conversationId, request.content);
      && Normalise(payload).Success?
      && ev.accountId == JInt(accountId) && ev.conversationId == JInt(conversationId)
      && post.url == Client.MessageUrl(client.baseUrl, accountId, conversationId)
      && post.headers == Client.AuthHeaders(client.apiToken)
      && token != "" && "api_access_token" in post.headers && post.headers["api_access_token"] == token
      && post.body == Client.MessagePayload(WelcomeText, "outgoing", false, "text", map[])
  {
  }
}
