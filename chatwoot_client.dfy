/**
  The outbound messaging client: a client object that keeps the base URL
  (with every trailing `/` removed), the API token and the request headers,
  and the construction of the request that posts a message into one
  conversation of one account. Sending the request is network I/O and is not
  part of this module; `OutgoingRequest` is what would be posted.
*/
module Client {
  import opened Wrappers
  import opened JsonValue
  import opened PyStr

  /** The JSON body of a "create message" request, field by field. */
  datatype MessagePayload = MessagePayload(
    content: string,
    messageType: string,
    private: bool,
    contentType: string,
    contentAttributes: map<string, Json>)

  /** An HTTP POST with a JSON body. */
  datatype HttpPost = HttpPost(url: string, headers: map<string, string>, body: MessagePayload)

  /** The headers every request of a client carries. */
  function AuthHeaders(apiToken: string): (h: map<string, string>)
    ensures h.Keys == {"Content-Type", "api_access_token"}
    ensures h["Content-Type"] == "application/json" && h["api_access_token"] == apiToken
  {
    map["Content-Type" := "application/json", "api_access_token" := apiToken]
  }

  /** The path of the messages collection of a conversation, below the base URL. */
  function MessagePath(accountId: int, conversationId: int): string {
    "/api/v1/accounts/" + (IntToString(accountId) + ("/conversations/" + (IntToString(conversationId) + "/messages")))
  }

  /** The full URL a message is posted to, from the base URL as the client stores it. */
  function MessageUrl(storedBase: string, accountId: int, conversationId: int): string {
    storedBase + MessagePath(accountId, conversationId)
  }

  /** The body of an outgoing plain-text message. */
  function OutgoingPayload(content: string, private: bool): (p: MessagePayload)
    ensures p.messageType == "outgoing" && p.contentType == "text" && p.contentAttributes == map[]
    ensures p.content == content && p.private == private
  {
    MessagePayload(content, "outgoing", private, "text", map[])
  }

  /** The body as the JSON object that goes on the wire. */
  function PayloadToJson(p: MessagePayload): Json {
    JObject(map[
      "content" := JStr(p.content),
      "message_type" := JStr(p.messageType),
      "private" := JBool(p.private),
      "content_type" := JStr(p.contentType),
      "content_attributes" := JObject(p.contentAttributes)])
  }

  /** Reads a request body back from its JSON object; None when it has other keys or types. */
  function PayloadFromJson(j: Json): Option<MessagePayload> {
    if j.JObject?
      && j.fields.Keys == {"content", "message_type", "private", "content_type", "content_attributes"}
      && j.fields["content"].JStr?
      && j.fields["message_type"].JStr?
      && j.fields["private"].JBool?
      && j.fields["content_type"].JStr?
      && j.fields["content_attributes"].JObject?
    then
      Some(MessagePayload(
        j.fields["content"].s,
        j.fields["message_type"].s,
        j.fields["private"].b,
        j.fields["content_type"].s,
        j.fields["content_attributes"].fields))
    else
      None
  }

  /** The five fields of a body survive the trip to JSON and back. */
  lemma PayloadJsonRoundTrip(p: MessagePayload)
    ensures PayloadFromJson(PayloadToJson(p)) == Some(p)
  {
  }

  /** A JSON object that reads back as a body is exactly that body's encoding. */
  lemma PayloadFromJsonExact(j: Json)
    ensures PayloadFromJson(j).Some? ==> PayloadToJson(PayloadFromJson(j).value) == j
  {
    if PayloadFromJson(j).Some? {
      var m := PayloadToJson(PayloadFromJson(j).value).fields;
      assert m.Keys == j.fields.Keys;
      assert forall k :: k in m ==> m[k] == j.fields[k];
    }
  }

  lemma NoSlashInInt(n: int)
    ensures '/' !in IntToString(n)
  {
    var s := IntToString(n);
    forall k | 0 <= k < |s| ensures s[k] != '/' {
      assert IsDigit(s[k]) || s[k] == '-';
    }
  }

  /** Distinct (account, conversation) pairs have distinct message paths. */
  lemma MessagePathInjective(a1: int, c1: int, a2: int, c2: int)
    requires MessagePath(a1, c1) == MessagePath(a2, c2)
    ensures a1 == a2 && c1 == c2
  {
    var p, q, m := "/api/v1/accounts/", "/conversations/", "/messages";
    var s1, t1 := IntToString(a1), IntToString(c1);
    var s2, t2 := IntToString(a2), IntToString(c2);
    DropPrefix(p, s1 + (q + (t1 + m)), s2 + (q + (t2 + m)));
    NoSlashInInt(a1);
    NoSlashInInt(a2);
    SplitAt('/', s1, q + (t1 + m), s2, q + (t2 + m));
    IntToStringInjective(a1, a2);
    DropPrefix(q, t1 + m, t2 + m);
    assert t1 == (t1 + m)[..|t1|] && t2 == (t2 + m)[..|t2|];
    IntToStringInjective(c1, c2);
  }

  /**
    The stored base never ends in `/`, so the join with the path is a single
    `/`; and however many `/` the configured base ends with, the URL is the same.
  */
  lemma MessageUrlJoin(configuredBase: string, slashes: nat, accountId: int, conversationId: int)
    ensures var b := RStrip(configuredBase, '/');
      && MessageUrl(b, accountId, conversationId)[..|b|] == b
      && MessageUrl(b, accountId, conversationId)[|b|] == '/'
      && (|b| == 0 || MessageUrl(b, accountId, conversationId)[|b| - 1] != '/')
    ensures MessageUrl(RStrip(configuredBase + Repeat('/', slashes), '/'), accountId, conversationId)
         == MessageUrl(RStrip(configuredBase, '/'), accountId, conversationId)
  {
    RStripIgnoresMoreTrailing(configuredBase, '/', slashes);
  }

  /** A client with its fields fixed at construction. */
  class ChatwootClient {
    const baseUrl: string
    const apiToken: string
    const headers: map<string, string>

    /** The stored base URL has no trailing `/`, and the headers carry the token. */
    ghost predicate Valid() {
      && (baseUrl == [] || baseUrl[|baseUrl| - 1] != '/')
      && headers == AuthHeaders(apiToken)
    }

    constructor (baseUrl: string, apiToken: string)
      ensures Valid()
      ensures this.baseUrl == RStrip(baseUrl, '/')
      ensures TrailingRun(baseUrl, this.baseUrl, '/')
      ensures this.apiToken == apiToken
      ensures headers["api_access_token"] == apiToken && headers["Content-Type"] == "application/json"
    {
      this.baseUrl := RStrip(baseUrl, '/');
      this.apiToken := apiToken;
      this.headers := AuthHeaders(apiToken);
    }

    /**
      The request `create_outgoing_message` posts: to the conversation's
      messages URL below the stored base, with the client's headers, and an
      outgoing plain-text body carrying `content` and `private` unchanged.
    */
    function OutgoingRequest(accountId: int, conversationId: int, content: string, private: bool := false): (req: HttpPost)
      requires Valid()
      ensures req.url == baseUrl + ("/api/v1/accounts/" + (IntToString(accountId) + ("/conversations/" + (IntToString(conversationId) + "/messages"))))
      ensures "api_access_token" in req.headers && req.headers["api_access_token"] == apiToken
      ensures "Content-Type" in req.headers && req.headers["Content-Type"] == "application/json"
      ensures req.body.messageType == "outgoing" && req.body.contentType == "text" && req.body.contentAttributes == map[]
      ensures req.body.content == content && req.body.private == private
    {
      HttpPost(MessageUrl(baseUrl, accountId, conversationId), headers, OutgoingPayload(content, private))
    }
  }
}
