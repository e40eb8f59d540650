# Categorisation relay: the per-frame handler

This project models the message handler of `server.js`: a WebSocket tool server answers each
inbound frame with exactly one JSON reply. The handler runs these steps:

1. decode the frame with `JSON.parse`;
2. reject any tool other than `categorize_whatsapp` with `unknown_tool`;
3. take the first 200 of the request's `items`;
4. render a prompt with one `[i] text` line per sampled item;
5. ask a chat-completion service;
6. when the service's answer has no `assignments` array, replace it with a single "General"
   category covering every item;
7. send `{id, ok: true, ...result}`.

Anything that throws on the way is answered `{ok: false, error}`.

The model is pure, as the handler is: it is a chain of expressions with no mutable state of
its own. Two steps are foreign to it, and the model takes both as inputs:

- the decoded frame (`Frame`): the value `JSON.parse` produced, or the message it threw;
- the completion call's outcome (`Completion`): the message of a rejected call, or the first
  choice's content as `JSON.parse` sees it.

`Relay.Handle` maps the two to the reply. `Relay.Sent` is the object `JSON.stringify`
serialises.

The JavaScript semantics the handler relies on are modelled explicitly in module `JsValues`:

- property reads on decoded values, and the V8 `TypeError` message for a read on `null`;
- the string conversion of a template-literal substitution (`undefined`, `null`, booleans,
  numbers by their display text, arrays joined with `,`, objects as `[object Object]`). An
  object that carries its own `toString` property throws instead;
- `trim` over the ECMAScript white-space set;
- `join("\n")`;
- object spread, where a property keeps its position and the later value wins;
- `JSON.stringify` dropping properties whose value is `undefined`.

Files:

- `wrappers.dfy`: `Option` and `Result`.
- `js_values.dfy`: module `JsValues`, the JavaScript value semantics.
- `relay.dfy`: module `Relay`, the handler and its properties.

An empty or missing item list proceeds to the call with the bare
header (`Relay.EmptyItemsProceed`). An undecodable frame fails with the parser's own message
(`Relay.UndecodableFails`). Every failed call is answered `{ok: false, error}`
(`Relay.CallFailureFails`).

## Model

| member | source | states |
|---|---|---|
| Relay.Sample | server.js:24 | the sample is the first 200 items in order, or all of them when there are fewer |
| Relay.RenderOkExactly | server.js:34 | rendering from index `from` succeeds if and only if every remaining item text converts |
| Relay.RenderedLines | server.js:34 | a successful rendering has one line per remaining item; line `j` is `[from + j] text` for that item's text |
| Relay.RenderFirstError | server.js:34 | a failed rendering throws the message of the first item whose conversion fails; every earlier item converts |
| Relay.RenderMatchesMap | server.js:34 | the in-order rendering succeeds exactly when every sampled item converts, and then equals the reference `[i] text` list |
| Relay.PromptLayout | server.js:25-35 | after `.trim()`, the prompt is the header alone when there are no lines; otherwise it is the header, a line break, and the joined lines without trailing white space |
| Relay.AskedPrompt | server.js:23-35 | a request reaches the completion call only when it is a decoded non-null `categorize_whatsapp` request whose sampled items all convert; it keeps the request's `id` and whole item list, and its prompt is the header followed by the `[i] text` lines |
| Relay.PromptListsEachItem | server.js:34-35 | when no item text holds a line break and the last ends in a non-white character, `.trim()` leaves the lines whole, and splitting them at line breaks gives back one line per sampled item |
| Relay.PrepareRenders | server.js:23-34 | a `categorize_whatsapp` request proceeds with its `id`, all its items and the rendered lines when every sampled item converts; otherwise it throws the first failing item's message |
| Relay.RejectedExactly | server.js:18-20 | the reply is `unknown_tool` if and only if the frame decodes to a non-null value whose `tool` is not `categorize_whatsapp`; that reply echoes `id` and does not depend on any completion call |
| Relay.EmptyItemsProceed | server.js:23-52 | absent, non-array or empty `items` is no error: the call is made with the bare header, and every unusable answer (absent, not JSON, or non-null without an `assignments` array) gives a fallback with no assignments |
| Relay.FallbackContents | server.js:46-50 | the fallback has exactly `categories`, `assignments` and `coverage`: one "General" category, one "General" assignment per item of the whole list, and coverage 1 |
| Relay.FallbackWhenUnusable | server.js:43-51 | an unusable answer is replaced by the fallback built from the whole item list, and the reply succeeds |
| Relay.AnswerKept | server.js:44-52 | an answer with an `assignments` array becomes the result unchanged |
| Relay.AnswerPassedThrough | server.js:44-52 | every property of a kept answer reaches the sent reply with its own value, whatever its length compared with the items |
| Relay.SentProperty | server.js:52 | in a sent success, a property of the result overrides `id` and `ok`; otherwise `ok` is `true`, `id` is the request's (left out when it had none), and there is nothing else |
| Relay.SuccessReplyFields | server.js:52 | a success reply starts with `id` then `ok`, and every property has the value `SentProperty` gives |
| Relay.FailedExactly | server.js:16-54 | the reply is `{ok: false, error}` if and only if one of these holds: the frame does not decode; it decodes to `null`; or it is a `categorize_whatsapp` request where a sampled item cannot convert, the call fails, or the answer parses to `null` |
| Relay.AnswerOutcome | server.js:43-54 | once the call answers, the reply fails exactly when the answer parses to `null` |
| Relay.UndecodableFails | server.js:17 | an undecodable frame is answered with the parser's message |
| Relay.NullFrameFails | server.js:18 | a `null` frame is answered with the V8 message for reading `tool` of `null` |
| Relay.UnprintableItemFails | server.js:34 | a sampled item that cannot convert fails the request with the message of the first such item, before any call |
| Relay.CallFailureFails | server.js:37-41 | a rejected completion call is answered with its message |
| Relay.NullAnswerFails | server.js:45 | an answer parsing to `null` fails reading `assignments` |
| Relay.ErrorText | server.js:54 | the error text is the caught message when that message is non-empty, and `server_error` otherwise |
| Relay.RejectionSent | server.js:19 | the sent rejection is `{id, ok: false, error}`, with `id` written only when the request had one |
| Relay.FailureSent | server.js:54 | a sent failure holds `ok` and `error` only, never an `id` |
| JsValues.Lookup | server.js:18 | a property read finds a value exactly when the name is among the object's names, and the value found is one stored under it |
| JsValues.ToText | server.js:34 | template conversion throws exactly for an unconvertible value, always with the V8 conversion message; a string converts to itself |
| JsValues.ArrayText | server.js:34 | an array converts unless one of its elements cannot, and then throws the conversion message |
| JsValues.Decimal | server.js:34 | an index label is a nonempty run of decimal digits with no leading zero |
| JsValues.DecimalRoundTrip | server.js:34 | reading an index label back gives the index, so distinct items get distinct labels |
| JsValues.TrimStartRemovesSpace | server.js:35 | `trim` removes only leading white space from the front |
| JsValues.TrimEndRemovesSpace | server.js:35 | `trim` removes only trailing white space, and the result is a prefix |
| JsValues.SplitJoinLines | server.js:34 | joining lines that hold no line break with `\n` and splitting again gives the lines back |
| JsValues.Assign | server.js:52 | after an assignment, reading the assigned name gives the new value |
| JsValues.AssignKeeps | server.js:52 | an assignment keeps every existing name at its position |
| JsValues.AssignOther | server.js:52 | an assignment leaves every other name's value unchanged |
| JsValues.AssignDistinct | server.js:52 | an assignment never creates a second property of the same name |
| JsValues.Spread | server.js:52 | a spread keeps the target's names first and in place, and keeps names distinct |
| JsValues.SpreadLookup | server.js:52 | after a spread, a property of the source wins; any other name keeps the target's value |
| JsValues.Visible | server.js:52 | every written property is a defined property of the object |
| JsValues.VisibleLookup | server.js:52 | in an object with distinct names, a property is written exactly when its value is defined |

## Left out

- The WebSocket server: its port, the environment variables, the connection events, and
  `ws.send`. The model ends at the object handed to `JSON.stringify`.
- The completion service call: the model `gpt-4o-mini`, temperature 0.2, the API key, and the
  request envelope. Its outcome is an input, so the model does not capture which prompt leads
  to which answer.
- The inside of `JSON.parse` and `JSON.stringify`:
  - the decoded value or the thrown message is an input;
  - the serialised text is not produced;
  - JavaScript's rule that integer-like property names are ordered first is not modelled;
  - objects are assumed to have distinct property names, as `JSON.parse` builds them, wherever
    a property is read back.
- Number formatting: a decoded number carries its display text and is never computed with.
- Concurrency: several frames handled at once do not share state in the handler, so one
  frame's reply is modelled on its own.
- Error message wording: the `TypeError` texts follow V8. Another engine words them
  differently.
- Strings are sequences of characters, not UTF-16 code units, so `trim` and `join` are modelled
  over characters.
- Relay.ErrorText: models `e?.message || "server_error"` for thrown `Error` objects only. A
  thrown non-`Error` value has no such message, but nothing in the handler throws one.
- Relay.Texts: converts every sampled item and takes the first failure, where `map` stops at
  the first failure. Conversion has no side effects, so the outcome is the same.
