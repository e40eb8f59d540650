/**
 * The categorisation relay's per-frame handler: decode a request, check its tool, take the
 * first 200 items, render the prompt, consult the completion service, fall back to a single
 * "General" category when the service's answer is unusable, and shape exactly one reply.
 *
 * The two foreign steps are inputs: the decoded frame (or the message `JSON.parse` threw) and
 * the completion call's outcome (its rejection message, or the text of the first choice as
 * `JSON.parse` sees it).
 */
module Relay {
  import opened Wrappers
  import opened JsValues

  /** The one tool the relay serves. */
  const ToolName := "categorize_whatsapp"

  /** At most this many items are shown to the completion service. */
  const SampleLimit := 200

  /** The fixed instruction text of the prompt, up to and including `Messages:`. */
  const PromptHeader :=
    "You are a data categorizer. " + "Given WhatsApp messages, "
    + "propose 3-5 concise categories " + "that together cover "
    + "at least 95% of items. \n"
    + "Return STRICT JSON:\n"
    + "{\n"
    + "  \"categories\":[{\"name\":\"...\"}],\n"
    + "  \"assignments\":[\"CategoryName\", \"...\"],"
    + "  // one per message (same order)\n"
    + "  \"coverage\": 0.0-1.0\n"
    + "}\n"
    + "Messages:"

  /** An inbound frame: the value it decodes to, or the message of the SyntaxError thrown. */
  datatype Frame = Decoded(msg: Json) | Undecodable(message: string)

  /**
   * The first choice's content as the handler reads it. `NoText`: absent or the empty
   * string, so `"{}"` is parsed instead. `Text(None)`: a text `JSON.parse` rejects.
   */
  datatype ReplyText = NoText | Text(parsed: Option<Json>)

  /** The completion call: it rejects with a message, or it answers. */
  datatype Completion = CallFailed(message: string) | Answered(content: ReplyText)

  /**
   * The object handed to `ws.send`:
   * `Rejected`  is `{id, ok: false, error}`,
   * `Failed`    is `{ok: false, error}` (no `id` property at all),
   * `Succeeded` is `{id, ok: true, ...result}`.
   * `id` is `None` when the request had no `id` property.
   */
  datatype Reply =
    | Rejected(id: Option<Json>, error: string)
    | Failed(error: string)
    | Succeeded(id: Option<Json>, result: seq<(string, Json)>)

  /**
   * How far the handler gets before the completion call: a reply already, or a call to make
   * with the rendered message lines (the prompt sent is `Prompt(lines)`).
   */
  datatype Step =
    | Done(reply: Reply)
    | Ask(id: Option<Json>, items: seq<Json>, lines: seq<string>)

  // ---------------------------------------------------------------------------
  // Request side
  // ---------------------------------------------------------------------------

  /** `Array.isArray(msg.items) ? msg.items : []`. */
  function ItemsOf(msg: Json): seq<Json>
    requires !msg.JNull?
  {
    match Get(msg, "items")
    case Some(JArr(elems)) => elems
    case _ => []
  }

  /** `items.slice(0, 200)`. */
  function Sample(items: seq<Json>): (sample: seq<Json>)
    ensures |sample| == if |items| < SampleLimit then |items| else SampleLimit
    ensures sample == items[..|sample|]
  {
    if |items| <= SampleLimit then items else items[..SampleLimit]
  }

  /** `${r.text}` for one item, or the message of what that throws. */
  function ItemText(item: Json): Result<string, string> {
    if item.JNull? then Err(NullRead("text"))
    else match Get(item, "text")
      case None => Ok("undefined")
      case Some(t) => ToText(t)
  }

  /** The line an item at index `i` with text `text` becomes: `[i] text`. */
  function Line(i: nat, text: string): string {
    "[" + Decimal(i) + "] " + text
  }

  /** A line ends where its text ends. */
  lemma LineEnds(i: nat, text: string)
    requires text != []
    ensures var line := Line(i, text); line != [] && line[|line| - 1] == text[|text| - 1]
  {
    var prefix := "[" + Decimal(i) + "] ";
    assert Line(i, text) == prefix + text;
  }

  /** True when every item in `sample` converts to text without throwing. */
  predicate Printable(sample: seq<Json>) {
    forall i :: 0 <= i < |sample| ==> ItemText(sample[i]).Ok?
  }

  /** The reference meaning of `sample.map((r, i) => `[${i}] ${r.text}`)`. */
  function MessageLines(sample: seq<Json>): (lines: seq<string>)
    requires Printable(sample)
  {
    seq(|sample|, i requires 0 <= i < |sample| => Line(i, ItemText(sample[i]).value))
  }

  /**
   * What converting each sampled item gives. Conversion has no side effects, so converting
   * every item and stopping at the first failure below is the same as the `map`'s in-order
   * evaluation, which throws at the first item that cannot be converted.
   */
  function Texts(sample: seq<Json>): seq<Result<string, string>> {
    seq(|sample|, i requires 0 <= i < |sample| => ItemText(sample[i]))
  }

  /**
   * The `map` callback applied in order from index `from`: the lines, or the message of the
   * first conversion that throws.
   */
  function RenderLines(texts: seq<Result<string, string>>, from: nat): Result<seq<string>, string>
    requires from <= |texts|
    decreases |texts| - from
  {
    if from == |texts| then Ok([])
    else if texts[from].Err? then Err(texts[from].error)
    else
      var rest := RenderLines(texts, from + 1);
      if rest.Err? then Err(rest.error)
      else Ok([Line(from, texts[from].value)] + rest.value)
  }

  /**
   * The template literal before `.trim()`: a line break, the header, a line break, the body
   * and a final line break.
   */
  function Template(header: string, body: string): string {
    "\n" + (header + ("\n" + (body + "\n")))
  }

  /** The prompt sent to the completion service for the rendered lines. */
  function Prompt(lines: seq<string>): string {
    Trim(Template(PromptHeader, JoinLines(lines)))
  }

  /** Frame decoding, the tool check and prompt rendering (everything before the call). */
  function Prepare(frame: Frame): Result<Step, string> {
    match frame
    case Undecodable(m) => Err(m)
    case Decoded(msg) =>
      if msg.JNull? then Err(NullRead("tool"))
      else if Get(msg, "tool") != Some(JStr(ToolName)) then Ok(Done(Rejected(Get(msg, "id"), "unknown_tool")))
      else
        var items := ItemsOf(msg);
        match RenderLines(Texts(Sample(items)), 0)
        case Err(m) => Err(m)
        case Ok(lines) => Ok(Ask(Get(msg, "id"), items, lines))
  }

  // ---------------------------------------------------------------------------
  // Answer side
  // ---------------------------------------------------------------------------

  /** The deterministic result used when the answer is unusable. */
  function Fallback(items: seq<Json>): seq<(string, Json)> {
    [("categories", JArr([JObj([("name", JStr("General"))])])),
     ("assignments", JArr(seq(|items|, _ => JStr("General")))),
     ("coverage", JNum("1"))]
  }

  /** True when a parsed answer carries an array under `assignments`. */
  predicate HasAssignments(v: Json) {
    Get(v, "assignments").Some? && Get(v, "assignments").value.JArr?
  }

  /** The object the reply is built from (`json` after the fallback test), or what throws. */
  function Chosen(content: ReplyText, items: seq<Json>): Result<seq<(string, Json)>, string> {
    var json := match content
      case NoText => JObj([])
      case Text(None) => JObj([])
      case Text(Some(v)) => v;
    if json.JNull? then Err(NullRead("assignments"))
    else if HasAssignments(json) then Ok(json.fields)
    else Ok(Fallback(items))
  }

  /** From the completion call to the reply (or what throws). */
  function Finish(id: Option<Json>, items: seq<Json>, outcome: Completion): Result<Reply, string> {
    match outcome
    case CallFailed(m) => Err(m)
    case Answered(content) =>
      match Chosen(content, items)
      case Err(m) => Err(m)
      case Ok(result) => Ok(Succeeded(id, result))
  }

  /** The body of the `try` block. */
  function Try(frame: Frame, outcome: Completion): Result<Reply, string> {
    match Prepare(frame)
    case Err(m) => Err(m)
    case Ok(Done(reply)) => Ok(reply)
    case Ok(Ask(id, items, _)) => Finish(id, items, outcome)
  }

  /** `e?.message || "server_error"`. */
  function ErrorText(message: string): (text: string)
    ensures text != ""
    ensures message != "" ==> text == message
    ensures message == "" ==> text == "server_error"
  {
    if message == "" then "server_error" else message
  }

  /** The handler: exactly one reply for every frame. */
  function Handle(frame: Frame, outcome: Completion): Reply {
    match Try(frame, outcome)
    case Ok(reply) => reply
    case Err(m) => Failed(ErrorText(m))
  }

  /** The reply object's properties in order, `undefined` ones included. */
  function Fields(reply: Reply): seq<(string, Option<Json>)> {
    match reply
    case Rejected(id, e) => [("id", id), ("ok", Some(JBool(false))), ("error", Some(JStr(e)))]
    case Failed(e) => [("ok", Some(JBool(false))), ("error", Some(JStr(e)))]
    case Succeeded(id, result) => Spread([("id", id), ("ok", Some(JBool(true)))], result)
  }

  /** The object `JSON.stringify` serialises for a reply. */
  function Sent(reply: Reply): Json {
    JObj(Visible(Fields(reply)))
  }

  // ---------------------------------------------------------------------------
  // Properties
  // ---------------------------------------------------------------------------

  /** Rendering from index `from` succeeds exactly when every remaining conversion does. */
  lemma {:induction false} RenderOkExactly(texts: seq<Result<string, string>>, from: nat)
    requires from <= |texts|
    decreases |texts| - from
    ensures RenderLines(texts, from).Ok? <==> forall j :: from <= j < |texts| ==> texts[j].Ok?
  {
    if from < |texts| && texts[from].Ok? {
      RenderOkExactly(texts, from + 1);
    }
  }

  /** A successful rendering has one `[j] text` line per item, in order. */
  lemma {:induction false} RenderedLines(texts: seq<Result<string, string>>, from: nat)
    requires from <= |texts| && RenderLines(texts, from).Ok?
    decreases |texts| - from
    ensures forall j :: from <= j < |texts| ==> texts[j].Ok?
    ensures var lines := RenderLines(texts, from).value;
      |lines| == |texts| - from &&
      forall j :: 0 <= j < |lines| ==> lines[j] == Line(from + j, texts[from + j].value)
  {
    if from < |texts| {
      RenderedLines(texts, from + 1);
      var rest := RenderLines(texts, from + 1).value;
      var lines := RenderLines(texts, from).value;
      assert texts[from].Ok? && lines == [Line(from, texts[from].value)] + rest;
      forall j | 1 <= j < |lines|
        ensures lines[j] == Line(from + j, texts[from + j].value)
      {
        assert lines[j] == rest[j - 1];
      }
    }
  }

  /** A failed rendering reports the message of the first conversion that throws. */
  lemma {:induction false} RenderFirstError(texts: seq<Result<string, string>>, from: nat)
    requires from <= |texts| && RenderLines(texts, from).Err?
    decreases |texts| - from
    ensures exists j :: from <= j < |texts| && texts[j] == Err(RenderLines(texts, from).error)
                        && forall k :: from <= k < j ==> texts[k].Ok?
  {
    if texts[from].Ok? {
      RenderFirstError(texts, from + 1);
      var j :| from + 1 <= j < |texts| && texts[j] == Err(RenderLines(texts, from + 1).error)
               && forall k :: from + 1 <= k < j ==> texts[k].Ok?;
      assert forall k :: from <= k < j ==> texts[k].Ok?;
    }
  }

  /** The in-order evaluation of the `map` agrees with its reference meaning. */
  lemma RenderMatchesMap(sample: seq<Json>)
    ensures RenderLines(Texts(sample), 0).Ok? <==> Printable(sample)
    ensures Printable(sample) ==> RenderLines(Texts(sample), 0) == Ok(MessageLines(sample))
  {
    var texts := Texts(sample);
    assert forall i :: 0 <= i < |sample| ==> texts[i] == ItemText(sample[i]);
    RenderOkExactly(texts, 0);
    if Printable(sample) {
      RenderedLines(texts, 0);
      assert RenderLines(texts, 0).value == MessageLines(sample);
    }
  }

  lemma {:induction false} JoinLinesStartsWithFirst(lines: seq<string>)
    requires lines != []
    ensures lines[0] <= JoinLines(lines)
  {
  }

  lemma HeaderEnds()
    ensures PromptHeader != [] && PromptHeader[0] == 'Y' && PromptHeader[|PromptHeader| - 1] == ':'
  {
  }

  /** `.trim()` of the template when there are no lines: the header alone. */
  lemma TrimTemplateEmpty(header: string)
    requires header != [] && !IsSpace(header[0]) && !IsSpace(header[|header| - 1])
    ensures Trim(Template(header, "")) == header
  {
    var rest := header + ("\n" + ("" + "\n"));
    TrimStartOne('\n', rest);
    var breaks := "\n" + ("" + "\n");
    assert IsSpace(breaks[0]) && IsSpace(breaks[1]) && |breaks| == 2;
    TrimEndDropsSpace(header, breaks);
  }

  /** `.trim()` of the template around a body that starts with a non-white character. */
  lemma TrimTemplateLines(header: string, body: string)
    requires header != [] && !IsSpace(header[0])
    requires body != [] && !IsSpace(body[0])
    ensures Trim(Template(header, body)) == header + ("\n" + TrimEnd(body))
  {
    var tail := body + "\n";
    var rest := "\n" + tail;
    assert Trim(Template(header, body)) == TrimEnd(header + rest) by {
      TrimStartOne('\n', header + rest);
    }
    assert TrimEnd(header + rest) == header + TrimEnd(rest) by {
      assert !IsSpace(rest[1]);
      TrimEndKeepsPrefix(header, rest);
    }
    assert TrimEnd(rest) == "\n" + TrimEnd(tail) by {
      assert !IsSpace(tail[0]);
      TrimEndKeepsPrefix("\n", tail);
    }
    assert TrimEnd(tail) == TrimEnd(body) by {
      TrimEndDropsSpace(body, "\n");
    }
  }

  /**
   * The prompt is the header alone when there are no lines, and otherwise the header, a line
   * break and the joined lines with trailing white space removed (the `.trim()`).
   */
  lemma PromptLayout(lines: seq<string>)
    requires lines == [] || (lines[0] != [] && lines[0][0] == '[')
    ensures Prompt(lines) == if lines == [] then PromptHeader else PromptHeader + ("\n" + TrimEnd(JoinLines(lines)))
  {
    HeaderEnds();
    if lines == [] {
      TrimTemplateEmpty(PromptHeader);
    } else {
      JoinLinesStartsWithFirst(lines);
      TrimTemplateLines(PromptHeader, JoinLines(lines));
    }
  }

  /** Joined lines whose last one ends in a non-white character have no trailing white space. */
  lemma JoinedLinesTrimmed(lines: seq<string>)
    requires lines != []
    requires var last := lines[|lines| - 1]; last != [] && !IsSpace(last[|last| - 1])
    ensures TrimEnd(JoinLines(lines)) == JoinLines(lines)
  {
    JoinLinesEndsWithLast(lines);
    TrimEndKeepsTrimmed(JoinLines(lines));
  }

  lemma {:induction false} JoinLinesEndsWithLast(lines: seq<string>)
    requires lines != [] && lines[|lines| - 1] != []
    ensures var joined, last := JoinLines(lines), lines[|lines| - 1];
      joined != [] && joined[|joined| - 1] == last[|last| - 1]
  {
    if |lines| > 1 {
      assert lines[1..][|lines[1..]| - 1] == lines[|lines| - 1];
      JoinLinesEndsWithLast(lines[1..]);
    }
  }

  /** No rendered line holds a line break when no item text does. */
  lemma LinesHaveNoBreak(sample: seq<Json>)
    requires Printable(sample)
    requires forall i :: 0 <= i < |sample| ==> '\n' !in ItemText(sample[i]).value
    ensures forall i :: 0 <= i < |sample| ==> '\n' !in MessageLines(sample)[i]
  {
    forall i | 0 <= i < |sample|
      ensures '\n' !in MessageLines(sample)[i]
    {
      var digits := Decimal(i);
      assert '\n' !in digits;
    }
  }

  /**
   * The frames the handler finishes with before rendering: one that does not decode or
   * decodes to `null` throws, and a request for another tool is answered `unknown_tool`
   * with its `id`.
   */
  lemma PrepareStops(frame: Frame)
    ensures frame.Undecodable? ==> Prepare(frame) == Err(frame.message)
    ensures frame == Decoded(JNull) ==> Prepare(frame) == Err(NullRead("tool"))
    ensures frame.Decoded? && !frame.msg.JNull? && Get(frame.msg, "tool") != Some(JStr(ToolName)) ==>
      Prepare(frame) == Ok(Done(Rejected(Get(frame.msg, "id"), "unknown_tool")))
  {
  }

  /**
   * A `categorize_whatsapp` request proceeds to the call with its `id`, its whole item list
   * and one line per sampled item when every sampled item converts, and otherwise throws the
   * message of the first sampled item that does not.
   */
  lemma PrepareRenders(frame: Frame)
    requires frame.Decoded? && !frame.msg.JNull? && Get(frame.msg, "tool") == Some(JStr(ToolName))
    ensures var msg := frame.msg;
      var sample := Sample(ItemsOf(msg));
      (Printable(sample) ==> Prepare(frame) == Ok(Ask(Get(msg, "id"), ItemsOf(msg), MessageLines(sample))))
      && (!Printable(sample) ==>
            Prepare(frame).Err? &&
            exists j :: 0 <= j < |sample| && ItemText(sample[j]) == Err(Prepare(frame).error)
                        && forall k :: 0 <= k < j ==> ItemText(sample[k]).Ok?)
  {
    var sample := Sample(ItemsOf(frame.msg));
    var texts := Texts(sample);
    var rendered := RenderLines(texts, 0);
    assert Prepare(frame) == if rendered.Ok? then Ok(Ask(Get(frame.msg, "id"), ItemsOf(frame.msg), rendered.value))
                             else Err(rendered.error);
    RenderMatchesMap(sample);
    if !Printable(sample) {
      var j :| 0 <= j < |texts| && texts[j] == Err(rendered.error)
               && forall k :: 0 <= k < j ==> texts[k].Ok?
      by {
        RenderFirstError(texts, 0);
      }
      assert forall k :: 0 <= k < j ==> ItemText(sample[k]).Ok? by {
        assert forall k :: 0 <= k < j ==> texts[k] == ItemText(sample[k]);
      }
      assert ItemText(sample[j]) == Err(rendered.error);
    }
  }

  /** The reply when the handler stops before the completion call. */
  lemma HandleUnasked(frame: Frame, outcome: Completion)
    ensures Prepare(frame).Err? ==> Handle(frame, outcome) == Failed(ErrorText(Prepare(frame).error))
    ensures Prepare(frame).Ok? && Prepare(frame).value.Done? ==> Handle(frame, outcome) == Prepare(frame).value.reply
  {
  }

  /** Once the lines are rendered, the reply depends only on the completion call. */
  lemma HandleAsked(frame: Frame, outcome: Completion)
    requires Prepare(frame).Ok? && Prepare(frame).value.Ask?
    ensures var step := Prepare(frame).value;
      Handle(frame, outcome) ==
        match Finish(step.id, step.items, outcome)
        case Ok(reply) => reply
        case Err(m) => Failed(ErrorText(m))
  {
  }

  /** The three outcomes of the fallback test on an answer. */
  lemma ChosenCases(content: ReplyText, items: seq<Json>)
    ensures (content.NoText? || content.parsed.None?
             || (content.parsed.value != JNull && !HasAssignments(content.parsed.value))) ==>
      Chosen(content, items) == Ok(Fallback(items))
    ensures content == Text(Some(JNull)) ==> Chosen(content, items) == Err(NullRead("assignments"))
    ensures content.Text? && content.parsed.Some? && HasAssignments(content.parsed.value) ==>
      Chosen(content, items) == Ok(content.parsed.value.fields)
  {
  }

  /**
   * The request that reaches the completion service: it asks for tool
   * `categorize_whatsapp`, keeps the request's `id` and its whole item list, and its prompt
   * is the header followed by one `[i] text` line per sampled item, in order.
   */
  lemma AskedPrompt(frame: Frame)
    requires Prepare(frame).Ok? && Prepare(frame).value.Ask?
    ensures frame.Decoded? && !frame.msg.JNull? && Get(frame.msg, "tool") == Some(JStr(ToolName))
    ensures var step, sample := Prepare(frame).value, Sample(ItemsOf(frame.msg));
      step.id == Get(frame.msg, "id") && step.items == ItemsOf(frame.msg) && Printable(sample)
      && step.lines == MessageLines(sample)
      && Prompt(step.lines) == if sample == [] then PromptHeader
                               else PromptHeader + ("\n" + TrimEnd(JoinLines(step.lines)))
  {
    PrepareStops(frame);
    PrepareRenders(frame);
    var sample := Sample(ItemsOf(frame.msg));
    var lines := MessageLines(sample);
    if lines != [] {
      assert lines[0] == Line(0, ItemText(sample[0]).value);
    }
    PromptLayout(lines);
  }

  /**
   * When no item text holds a line break and the last one does not end in white space, the
   * `.trim()` leaves the joined lines whole (so by `AskedPrompt` the prompt is the header, a
   * line break and those lines), and splitting them at line breaks gives back exactly the
   * `|sample|` rendered lines.
   */
  lemma PromptListsEachItem(sample: seq<Json>)
    requires sample != [] && Printable(sample)
    requires forall i :: 0 <= i < |sample| ==> '\n' !in ItemText(sample[i]).value
    requires var last := ItemText(sample[|sample| - 1]).value; last != [] && !IsSpace(last[|last| - 1])
    ensures TrimEnd(JoinLines(MessageLines(sample))) == JoinLines(MessageLines(sample))
    ensures SplitLines(JoinLines(MessageLines(sample))) == MessageLines(sample)
    ensures |MessageLines(sample)| == |sample|
  {
    var lines := MessageLines(sample);
    assert |lines| == |sample|;
    assert var last := lines[|lines| - 1]; last != [] && !IsSpace(last[|last| - 1]) by {
      var n := |sample| - 1;
      LineEnds(n, ItemText(sample[n]).value);
    }
    JoinedLinesTrimmed(lines);
    assert forall i :: 0 <= i < |lines| ==> '\n' !in lines[i] by {
      LinesHaveNoBreak(sample);
    }
    SplitJoinLines(lines);
  }

  /**
   * A request whose tool is not exactly `categorize_whatsapp` (and only such a request) is
   * answered `{id, ok: false, error: "unknown_tool"}`, before and regardless of any
   * completion call.
   */
  lemma RejectedExactly(frame: Frame, outcome: Completion)
    ensures Handle(frame, outcome).Rejected? <==>
      frame.Decoded? && !frame.msg.JNull? && Get(frame.msg, "tool") != Some(JStr(ToolName))
    ensures Handle(frame, outcome).Rejected? ==>
      Prepare(frame) == Ok(Done(Handle(frame, outcome)))
      && Handle(frame, outcome) == Rejected(Get(frame.msg, "id"), "unknown_tool")
      && forall other :: Handle(frame, other) == Handle(frame, outcome)
  {
    PrepareStops(frame);
    HandleUnasked(frame, outcome);
    if frame.Decoded? && !frame.msg.JNull? && Get(frame.msg, "tool") == Some(JStr(ToolName)) {
      PrepareRenders(frame);
      if Prepare(frame).Ok? {
        HandleAsked(frame, outcome);
      }
    }
    forall other ensures Prepare(frame).Ok? && Prepare(frame).value.Done? ==> Handle(frame, other) == Handle(frame, outcome) {
      HandleUnasked(frame, other);
    }
  }

  /**
   * An absent, non-array or empty `items` is not an error: the completion service is asked
   * with the bare header, and every unusable answer gives a fallback with no assignments.
   */
  lemma EmptyItemsProceed(frame: Frame, content: ReplyText)
    requires frame.Decoded? && !frame.msg.JNull? && Get(frame.msg, "tool") == Some(JStr(ToolName))
    requires match Get(frame.msg, "items") case Some(JArr(elems)) => elems == [] case _ => true
    ensures ItemsOf(frame.msg) == []
    ensures Prepare(frame) == Ok(Ask(Get(frame.msg, "id"), [], [])) && Prompt([]) == PromptHeader
    ensures content.NoText? || content.parsed.None?
              || (content.parsed.value != JNull && !HasAssignments(content.parsed.value)) ==>
      Handle(frame, Answered(content)) == Succeeded(Get(frame.msg, "id"), Fallback([]))
  {
    assert ItemsOf(frame.msg) == [];
    PrepareRenders(frame);
    assert MessageLines([]) == [];
    PromptLayout([]);
    if content.NoText? || content.parsed.None?
       || (content.parsed.value != JNull && !HasAssignments(content.parsed.value))
    {
      FallbackWhenUnusable(frame, content);
    }
  }

  /**
   * One property of a success reply as sent: the result's value when the result has the
   * property (so a result property named `id` or `ok` overrides the echoed one), otherwise
   * `ok: true`, the request's `id` (left out when it had none), or nothing.
   */
  lemma SentProperty(id: Option<Json>, result: seq<(string, Json)>, k: string)
    requires DistinctKeys(result)
    ensures Get(Sent(Succeeded(id, result)), k) ==
      if k in Keys(result) then Lookup(result, k)
      else if k == "ok" then Some(JBool(true))
      else if k == "id" then id
      else None
  {
    var base := [("id", id), ("ok", Some(JBool(true)))];
    assert DistinctKeys(base);
    assert Keys(base) == ["id", "ok"];
    SpreadLookup(base, result, k);
    VisibleLookup(Fields(Succeeded(id, result)), k);
  }

  /**
   * The reply to a success: `id` and `ok` come first, and every property has the value
   * `SentProperty` gives it.
   */
  lemma SuccessReplyFields(id: Option<Json>, result: seq<(string, Json)>)
    requires DistinctKeys(result)
    ensures var fields := Fields(Succeeded(id, result)); |fields| >= 2 && fields[0].0 == "id" && fields[1].0 == "ok"
    ensures forall k ::
      Get(Sent(Succeeded(id, result)), k) ==
        (if k in Keys(result) then Lookup(result, k)
         else if k == "ok" then Some(JBool(true))
         else if k == "id" then id
         else None)
  {
    var base := [("id", id), ("ok", Some(JBool(true)))];
    assert Keys(base) == ["id", "ok"];
    forall k
      ensures Get(Sent(Succeeded(id, result)), k) ==
        if k in Keys(result) then Lookup(result, k)
        else if k == "ok" then Some(JBool(true))
        else if k == "id" then id
        else None
    {
      SentProperty(id, result, k);
    }
  }

  /**
   * The fallback has exactly the properties `categories`, `assignments` and `coverage`: one
   * "General" category, one "General" assignment per item, coverage 1.
   */
  lemma FallbackContents(items: seq<Json>)
    ensures var result := Fallback(items);
      DistinctKeys(result) && Keys(result) == ["categories", "assignments", "coverage"]
      && Lookup(result, "categories") == Some(JArr([JObj([("name", JStr("General"))])]))
      && Lookup(result, "coverage") == Some(JNum("1"))
      && Lookup(result, "assignments") == Some(JArr(seq(|items|, _ => JStr("General"))))
  {
  }

  /**
   * When the answer is absent, not JSON, or parses to a non-null value without an array
   * under `assignments`, the reply is the fallback built from the whole (not the sampled)
   * item list.
   */
  lemma FallbackWhenUnusable(frame: Frame, content: ReplyText)
    requires Prepare(frame).Ok? && Prepare(frame).value.Ask?
    requires content.NoText? || content.parsed.None?
      || (content.parsed.value != JNull && !HasAssignments(content.parsed.value))
    ensures var step := Prepare(frame).value;
      Handle(frame, Answered(content)) == Succeeded(step.id, Fallback(step.items))
  {
    var step := Prepare(frame).value;
    HandleAsked(frame, Answered(content));
    ChosenCases(content, step.items);
  }

  /**
   * An answer with an array under `assignments` is passed through as it is: every one of
   * its properties reaches the reply unchanged, whatever the length of its assignments
   * compared with the items or the sample.
   */
  lemma AnswerPassedThrough(frame: Frame, answer: seq<(string, Json)>)
    requires Prepare(frame).Ok? && Prepare(frame).value.Ask?
    requires DistinctKeys(answer) && HasAssignments(JObj(answer))
    ensures Handle(frame, Answered(Text(Some(JObj(answer))))) == Succeeded(Prepare(frame).value.id, answer)
    ensures forall k :: k in Keys(answer) ==>
      Get(Sent(Handle(frame, Answered(Text(Some(JObj(answer)))))), k) == Lookup(answer, k)
  {
    var step := Prepare(frame).value;
    HandleAsked(frame, Answered(Text(Some(JObj(answer)))));
    ChosenCases(Text(Some(JObj(answer))), step.items);
    SuccessReplyFields(step.id, answer);
  }

  /**
   * Exactly these frames get `{ok: false, error}` from the catch: one that does not decode,
   * one that decodes to `null`, and a `categorize_whatsapp` request whose sampled items
   * cannot all be rendered, whose completion call fails, or whose answer parses to `null`.
   */
  lemma FailedExactly(frame: Frame, outcome: Completion)
    ensures Handle(frame, outcome).Failed? <==>
      match frame
      case Undecodable(_) => true
      case Decoded(msg) =>
        msg.JNull? ||
        (Get(msg, "tool") == Some(JStr(ToolName)) &&
         (!Printable(Sample(ItemsOf(msg))) || outcome.CallFailed? || outcome == Answered(Text(Some(JNull)))))
  {
    match frame
    case Undecodable(m) =>
      UndecodableFails(m, outcome);
    case Decoded(msg) =>
      if msg.JNull? {
        NullFrameFails(outcome);
      } else if Get(msg, "tool") != Some(JStr(ToolName)) {
        RejectedExactly(frame, outcome);
      } else if !Printable(Sample(ItemsOf(msg))) {
        UnprintableItemFails(frame, outcome);
      } else {
        PrepareRenders(frame);
        match outcome
        case CallFailed(m) => CallFailureFails(frame, m);
        case Answered(content) => AnswerOutcome(frame, content);
      }
  }

  /** Once the call answers, the reply fails exactly when the answer parses to `null`. */
  lemma AnswerOutcome(frame: Frame, content: ReplyText)
    requires Prepare(frame).Ok? && Prepare(frame).value.Ask?
    ensures Handle(frame, Answered(content)).Failed? <==> content == Text(Some(JNull))
  {
    match content
    case Text(Some(v)) =>
      if v == JNull {
        NullAnswerFails(frame);
      } else if HasAssignments(v) {
        AnswerKept(frame, v);
      } else {
        FallbackWhenUnusable(frame, content);
      }
    case _ => FallbackWhenUnusable(frame, content);
  }

  /** An answer carrying an `assignments` array is sent on as the result. */
  lemma AnswerKept(frame: Frame, v: Json)
    requires Prepare(frame).Ok? && Prepare(frame).value.Ask?
    requires HasAssignments(v)
    ensures Handle(frame, Answered(Text(Some(v)))) == Succeeded(Prepare(frame).value.id, v.fields)
  {
    HandleAsked(frame, Answered(Text(Some(v))));
    ChosenCases(Text(Some(v)), Prepare(frame).value.items);
  }

  /** A frame that does not decode is answered with the decoder's message. */
  lemma UndecodableFails(message: string, outcome: Completion)
    ensures Handle(Undecodable(message), outcome) == Failed(ErrorText(message))
  {
    PrepareStops(Undecodable(message));
    HandleUnasked(Undecodable(message), outcome);
  }

  /** A frame that decodes to `null` fails reading its `tool`. */
  lemma NullFrameFails(outcome: Completion)
    ensures Handle(Decoded(JNull), outcome) == Failed(NullRead("tool"))
  {
    PrepareStops(Decoded(JNull));
    HandleUnasked(Decoded(JNull), outcome);
  }

  /**
   * A `categorize_whatsapp` request with a sampled item that cannot be converted fails with
   * the message of the first such item, before any completion call.
   */
  lemma UnprintableItemFails(frame: Frame, outcome: Completion)
    requires frame.Decoded? && !frame.msg.JNull? && Get(frame.msg, "tool") == Some(JStr(ToolName))
    requires !Printable(Sample(ItemsOf(frame.msg)))
    ensures var sample := Sample(ItemsOf(frame.msg));
      exists j :: 0 <= j < |sample| && ItemText(sample[j]).Err?
                  && (forall k :: 0 <= k < j ==> ItemText(sample[k]).Ok?)
                  && Handle(frame, outcome) == Failed(ErrorText(ItemText(sample[j]).error))
  {
    PrepareRenders(frame);
    HandleUnasked(frame, outcome);
  }

  /** A completion call that rejects is answered with its message. */
  lemma CallFailureFails(frame: Frame, message: string)
    requires Prepare(frame).Ok? && Prepare(frame).value.Ask?
    ensures Handle(frame, CallFailed(message)) == Failed(ErrorText(message))
  {
    HandleAsked(frame, CallFailed(message));
  }

  /** An answer that parses to `null` fails reading its `assignments`. */
  lemma NullAnswerFails(frame: Frame)
    requires Prepare(frame).Ok? && Prepare(frame).value.Ask?
    ensures Handle(frame, Answered(Text(Some(JNull)))) == Failed(NullRead("assignments"))
  {
    HandleAsked(frame, Answered(Text(Some(JNull))));
    ChosenCases(Text(Some(JNull)), Prepare(frame).value.items);
  }

  /** A rejection as sent: `id` is written only when the request had one. */
  lemma RejectionSent(id: Option<Json>, error: string)
    ensures Sent(Rejected(id, error)) ==
      JObj((if id.Some? then [("id", id.value)] else []) + [("ok", JBool(false)), ("error", JStr(error))])
  {
    var ok, err := ("ok", Some(JBool(false))), ("error", Some(JStr(error)));
    assert Visible([err]) == [("error", JStr(error))];
    assert Visible([ok, err]) == [("ok", JBool(false)), ("error", JStr(error))];
    if id.Some? {
      assert Visible([("id", id), ok, err]) == [("id", id.value)] + Visible([ok, err]);
    } else {
      assert Visible([("id", id), ok, err]) == Visible([ok, err]);
    }
  }

  /** A caught failure as sent: `ok` and `error` only, never an `id`. */
  lemma FailureSent(error: string)
    ensures Sent(Failed(error)) == JObj([("ok", JBool(false)), ("error", JStr(error))])
    ensures Get(Sent(Failed(error)), "id") == None
  {
    var ok, err := ("ok", Some(JBool(false))), ("error", Some(JStr(error)));
    assert Visible([err]) == [("error", JStr(error))];
    assert Visible([ok, err]) == [("ok", JBool(false)), ("error", JStr(error))];
  }
}
