# Chatwoot `/start` webhook, modelled in Dafny

This project models the webhook receiver of a support-chat bridge. The chat
platform posts a "message created" event. The handler normalises the loosely
shaped payload:

- the conversation id is the conversation's `id`, falling back to its `display_id`;
- a missing or null `conversation` or `account` reads as an empty object;
- a missing or null `content` reads as `""`, and the text is then stripped of whitespace.

The handler then picks exactly one answer:

- `ignored`, for anything but an incoming message whose text is exactly `/start`;
- status 400 with a debug record, when the API token or either id is missing or falsy;
- one send of the fixed welcome text through the messaging client, answered
  with `ok` and the created message id, or with status 500 and the exception text.

The messaging client (`ChatwootClient`) keeps its base URL with every trailing
`/` removed, and keeps the API token and the request headers. It builds the
request that posts a message into a conversation: the URL below the base, the
headers, and a fixed outgoing plain-text body.

Modules:

- `Wrappers`: `Option` and `Result`.
- `JsonValue`: decoded JSON values and the Python behaviour the handler relies
  on. That is truthiness, `dict.get`, `a or b`, and the text of an
  `AttributeError`.
- `PyStr`: `str.strip()` (with Python's `isspace` character set),
  `str.rstrip(ch)`, and `str(n)` for integers, each with a uniqueness lemma
  that characterises it.
- `Client`: the client class and the request it builds (`chatwoot_client.py`).
- `Webhook`: normalisation, the decision, the completion after a send, and the
  whole handler with its status code and JSON content (`main.py`).
- `WebhookProperties`: end-to-end properties of the handler.

The send is a parameter of the handler: a function from the request to what
the client returned (`Response`) or raised (`Raised`). The handler returns the
list of sends it made, so "no message is sent" is a statement about that list.
An exception that escapes the handler is a `Failure`. This happens in two cases:

- a truthy `conversation` or `account` that is not an object raises at `.get`,
  before the event is looked at;
- a truthy non-string `content` raises at `.strip`, but only past the event gate.

The handler answers `/start` only, matched exactly and case-sensitively.

## Model

| member | source | states |
|---|---|---|
| JsonValue.FalsyValues | app/main.py:26-40 | the falsy values (for `or` and `not`) are exactly None, False, 0, `""`, `[]` and `{}` |
| JsonValue.GetAfterUpdate | app/main.py:21-32 | `dict.get` reads a stored key as its value, a deleted key as the default, and any other key as before |
| JsonValue.Or | app/main.py:26-31 | `a or b` is `a` when `a` is truthy and `b` otherwise; it is truthy exactly when either operand is |
| JsonValue.TypeName | app/main.py:28-36 | a type name is non-empty and contains no quote character |
| JsonValue.AttributeErrorNamesType | app/main.py:28-36 | two AttributeError messages for the same attribute are equal exactly when the values have the same type name |
| PyStr.PrintableNotSpace | app/main.py:36 | no printable ASCII character other than the space is whitespace for `strip()` |
| PyStr.SpaceAndNewlineAreSpace | app/main.py:36 | the space and the line feed are whitespace for `strip()` |
| PyStr.LeadingSpaces | app/main.py:36 | the count covers only whitespace, and the character after it (if any) is not whitespace |
| PyStr.TrailingSpaces | app/main.py:36 | the count covers only whitespace, and the character before it (if any) is not whitespace |
| PyStr.Strip | app/main.py:36 | the result neither starts nor ends with whitespace, and the input is the result with only whitespace before and after it |
| PyStr.StripUnique | app/main.py:36 | any unpadded text that the input surrounds with whitespace only is the stripped result |
| PyStr.StripUnpadded | app/main.py:36 | a text without surrounding whitespace strips to itself |
| PyStr.StripIgnoresPadding | app/main.py:36 | adding whitespace on either side never changes the stripped text |
| PyStr.StripIdempotent | app/main.py:36 | stripping twice is stripping once |
| PyStr.StripIsExactlyPaddedText | app/main.py:36 | a string strips to an unpadded text exactly when it is that text with whitespace around it (both directions) |
| PyStr.StripPrintableEnds | app/main.py:36 | a text that starts and ends with printable non-space ASCII strips to itself |
| PyStr.RStrip | app/chatwoot_client.py:6 | the input is the result followed only by copies of the character, and the result does not end in that character |
| PyStr.RStripUnique | app/chatwoot_client.py:6 | a prefix not ending in the character, followed only by that character, is the stripped result |
| PyStr.RStripRepeat | app/chatwoot_client.py:6 | a string not ending in the character, followed by any number of copies of it, strips back to itself |
| PyStr.RStripIgnoresMoreTrailing | app/chatwoot_client.py:6 | every trailing copy is removed, not just one: appending more copies does not change the result |
| PyStr.RStripIdempotent | app/chatwoot_client.py:6 | rstrip is idempotent, and a base that does not end in `/` is unchanged |
| PyStr.NatToString | app/chatwoot_client.py:17 | the decimal rendering of a natural number is non-empty and all digits, and starts with `0` exactly for 0, which renders as `0` |
| PyStr.IntToString | app/chatwoot_client.py:17 | the rendering of an integer is a canonical numeral (digits after an optional `-`, no leading zero, no `-0`), and the `-` is there exactly for negative numbers |
| PyStr.ParseNatCanonical | app/chatwoot_client.py:17 | a digit string without a leading zero is the rendering of its value |
| PyStr.IntToStringUnique | app/chatwoot_client.py:17 | every canonical numeral is the rendering of the integer it denotes |
| PyStr.ParseNatToString | app/chatwoot_client.py:17 | reading the digits of a natural number back gives the number |
| PyStr.ParseIntToString | app/chatwoot_client.py:17 | the value of the decimal rendering of an integer is that integer, for every integer |
| PyStr.IntToStringInjective | app/chatwoot_client.py:17 | distinct integers render as distinct strings |
| Client.AuthHeaders | app/chatwoot_client.py:8-12 | the headers are exactly `Content-Type: application/json` and `api_access_token` with the token |
| Client.OutgoingPayload | app/chatwoot_client.py:18-24 | the body is outgoing, plain text, with empty attributes, and carries the content and the private flag unchanged |
| Client.PayloadJsonRoundTrip | app/chatwoot_client.py:18-24 | the five body fields survive encoding as a JSON object and reading it back |
| Client.PayloadFromJsonExact | app/chatwoot_client.py:18-24 | a JSON object that reads back as a body is exactly that body's encoding |
| Client.NoSlashInInt | app/chatwoot_client.py:17 | an id rendered into the URL never contains `/` |
| Client.MessagePathInjective | app/chatwoot_client.py:17 | distinct (account, conversation) pairs give distinct message paths |
| Client.MessageUrlJoin | app/chatwoot_client.py:6-17 | the stored base never ends in `/`, so the base/path join is a single `/`; the URL is the same however many `/` the configured base ends with |
| Client.ChatwootClient.constructor | app/chatwoot_client.py:5-12 | the stored base is the given one with every trailing `/` removed; the token and the two headers are stored |
| Client.ChatwootClient.OutgoingRequest | app/chatwoot_client.py:14-24 | the URL is the stored base, then `/api/v1/accounts/{account}/conversations/{conversation}/messages`; the client's headers; the outgoing text body with the given content and private flag (default false) |
| Webhook.ObjectOrEmpty | app/main.py:26-31 | `x or {}` ready for `.get`: succeeds exactly for a falsy value or an object, keeps an object's fields and its truthiness, and otherwise fails with the AttributeError text of `.get` |
| Webhook.Normalise | app/main.py:21-32 | fails with the AttributeError text exactly when the conversation, or else the account, is truthy but not an object; otherwise the event, message type and content (default `""`) are the payload's entries, the account id is the account's `id` (null without an account), and the conversation id is `id` when truthy, else `display_id` |
| Webhook.CommandText | app/main.py:36 | falsy content is the empty text; a string gives a text with no surrounding whitespace; it raises exactly for truthy non-string content |
| Webhook.Decide | app/main.py:35-61 | non-incoming events are ignored; the welcome send happens exactly for the `/start` text with token and both ids, to that account and conversation; the 400 answer exactly for `/start` without them, with the debug record |
| Webhook.Complete | app/main.py:56-64 | a raised send gives the exception text; the answer is the created id exactly when the response is an object; any other response fails with the AttributeError text of `resp.get` |
| Webhook.HandleWebhook | app/main.py:17-67 | at most one send, always of the welcome text, made exactly when the outcome is a delivery or a delivery failure; an escaping exception comes only from normalisation or the command text |
| Webhook.StatusCode | app/main.py:42-67 | 200 exactly for ignored and ok, 400 exactly for missing configuration, 500 exactly for a failed send |
| Webhook.Content | app/main.py:42-67 | the status field is `ignored`, `ok` or `error` exactly as the answer is ignored, delivered or an error |
| WebhookProperties.OtherEventsIgnored | app/main.py:35-67 | any event but an incoming `message_created` message is answered `ignored` with status 200, and nothing is sent |
| WebhookProperties.MalformedConversationRaises | app/main.py:26-28 | a truthy non-object conversation raises AttributeError whatever the event |
| WebhookProperties.FalsyObjectReadsAsEmpty | app/main.py:26-32 | a missing or falsy conversation or account entry behaves exactly like `{}` |
| WebhookProperties.NormaliseReplacesContent | app/main.py:21-32 | changing a payload's content changes only the content of its normalised event |
| WebhookProperties.DecideSeesOnlyCommandText | app/main.py:36-38 | two contents with the same command text lead to the same decision |
| WebhookProperties.CommandTextIgnoresPadding | app/main.py:36 | whitespace around a string content does not change the command text |
| WebhookProperties.CommandTextOfString | app/main.py:36 | a string content's command text is its stripped text, including the empty string |
| WebhookProperties.ContentPaddingIrrelevant | app/main.py:22-38 | whitespace around the message text never changes the handler's answer or its sends |
| WebhookProperties.StartCommandMatch | app/main.py:36-38 | the welcome branch's text test holds exactly when the text is `/start` with only whitespace around it |
| WebhookProperties.PaddedStartAccepted | app/main.py:36-40 | `"  /start \n"` with token and ids leads to the welcome send |
| WebhookProperties.PaddedStartStrips | app/main.py:36 | `"  /start \n"` strips to `/start` |
| WebhookProperties.PaddingAroundStart | app/main.py:36 | `/start` with any whitespace around it strips to `/start` |
| WebhookProperties.NearMissesIgnored | app/main.py:35-67 | `/START`, `/start x` and `""` are ignored whatever the token and ids |
| WebhookProperties.NullContentIgnored | app/main.py:22-38 | a null content is the empty text and is ignored |
| WebhookProperties.ConfigurationOnlyCheckedForStart | app/main.py:35-67 | any text but `/start` is ignored with nothing sent, even without token or ids |
| WebhookProperties.MissingConfigurationRefused | app/main.py:40-53 | `/start` without the token or an id: status 400, and the body is exactly the `error` status, the fixed missing-configuration message and the debug record of token presence and both ids; nothing is sent |
| WebhookProperties.WelcomeSentOnce | app/main.py:55-62 | `/start` with token and ids: exactly one send, of the welcome text to the event's account and conversation, and the answer is what that send produced |
| WebhookProperties.WelcomeRequest | app/main.py:12-61 | with the client built from the token the handler checks, the welcome send with integer ids becomes a post to the event's conversation URL, with the client's headers carrying that checked, non-empty token, and an outgoing, non-private, plain-text body carrying the welcome text |
| WebhookProperties.SendResultDecidesAnswer | app/main.py:56-64 | a raised send is answered 500 with the exception text and never `ok`; an object response is answered 200 with its `id` |

## Left out

- The web framework: the app, routing, `await request.json()`, the `JSONResponse` wrapper and the health endpoint. The answer is modelled as data (`StatusCode`, `Content`), and the payload is a JSON object; a request body that is not a JSON object is not modelled.
- The conversion of an exception that escapes the handler into an internal server error. Such an exception is a `Failure` carrying its message.
- Environment loading (`load_dotenv`, `os.getenv`): the API token is a parameter of the handler, and the base URL a parameter of the client constructor.
- The HTTP call of `create_outgoing_message`: `httpx.AsyncClient`, the 10-second timeout, `post`, `raise_for_status` and `r.json()`. The handler sees it as the abstract send; the client model stops at the request it would post (`OutgoingRequest`).
- async/await: each request is handled on its own with no shared state, so there is nothing concurrent to model.
- Floating-point JSON numbers: `Json` has integers only.
- Client.ChatwootClient.OutgoingRequest: ids are integers, as the method's type hints declare. The handler may pass ids of other JSON types, whose `str()` rendering in the URL is not modelled.
- Commands other than `/start` are not part of this model: the handler's code has no other command.
