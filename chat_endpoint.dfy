/**
 * The chat endpoint of src/app_routes/api/ai/chat/+server.js: the request
 * checks, the user text the graph fix-up works from, and the shaping of the
 * language model's parsed reply into the JSON the endpoint returns. The call
 * to the model is left out; its reply arrives here already parsed, `None`
 * when it was not JSON.
 */
module ChatEndpoint {
  import opened Wrappers
  import opened JsText
  import opened JsValues
  import opened Chat
  import opened GraphSpecs
  import opened ChatGraphSpec
  import opened Endpoints

  /** The `graphSpec` of the reply: none, a value returned as the model gave
      it, or a repaired spec object. An array is repaired in place too, but
      the properties assigned on it are not part of its JSON form, so it is
      returned as given. */
  datatype SpecReply = NoSpec | AsGiven(v: Value) | Repaired(fields: SpecFields)

  datatype ChatReply = ChatReply(
    mode: string,
    answer: string,
    clarifyingQuestions: seq<string>,
    graphSpec: SpecReply)

  /** `body.messages` when it is an array, `[]` otherwise. */
  function Messages(body: Value): (r: seq<Value>)
    ensures Field(body, "messages").Arr? ==> r == Field(body, "messages").items
    ensures !Field(body, "messages").Arr? ==> r == []
  {
    var m := Field(body, "messages");
    if m.Arr? then m.items else []
  }

  /** `body.context || null`. */
  function ContextOf(body: Value): (r: Value)
    ensures Truthy(r) <==> Truthy(Field(body, "context"))
  {
    Or(Field(body, "context"), Null)
  }

  /** `context.filters || {}`. */
  function FiltersOf(context: Value): (r: Value)
    ensures Truthy(r)
  {
    Or(Field(context, "filters"), Obj(map[]))
  }

  /** The request checks of lines 81-94, in order: a server key, a
      non-empty message list and a context object. On success, the text of
      the last user turn. */
  function CheckRequest(apiKey: string, body: Value): (r: Response<string>)
    ensures r.Error? <==>
      Trim(apiKey) == "" || Messages(body) == [] || !(Truthy(ContextOf(body)) && IsObject(ContextOf(body)))
    ensures Trim(apiKey) == "" ==> r.Error? && r.status == 500
    ensures Trim(apiKey) != "" && r.Error? ==> r.status == 400
    ensures r.Ok? ==> r.body == LastUserText(Messages(body))
  {
    var messages := Messages(body);
    var context := ContextOf(body);
    if Trim(apiKey) == "" then Error(500, "OPENAI_API_KEY is not set on the server.")
    else if messages == [] then Error(400, "messages is required")
    else if !Truthy(context) || !IsObject(context) then Error(400, "context is required")
    else Ok(LastUserText(messages))
  }

  /** What `asStringArray` reads of a value: the `String(v || '')` of each
      entry of an array, nothing of anything else. */
  function StringEntries(v: Value): (r: Option<seq<string>>)
    ensures r.None? <==> !v.Arr?
    ensures v.Arr? ==> r == Some(EntryTexts(v.items))
  {
    if v.Arr? then Some(EntryTexts(v.items)) else None
  }

  /** The `graphSpec` of the reply (lines 243-323). */
  function SpecReplyFor(graphSpec: Value, filters: Value, lastUserText: string): (r: SpecReply)
    ensures r.NoSpec? <==> !Truthy(graphSpec)
    ensures r.Repaired? <==> graphSpec.Obj?
    ensures r.AsGiven? ==> r.v == graphSpec
  {
    if !Truthy(graphSpec) then NoSpec
    else if graphSpec.Obj? then Repaired(FixedSpec(FromProps(graphSpec.props), filters, lastUserText))
    else AsGiven(graphSpec)
  }

  /** The reply of lines 325-332 to the parsed model output `parsed`. */
  function ReplyFor(parsed: Value, context: Value, lastUserText: string): (r: ChatReply)
    ensures !Truthy(Field(parsed, "mode")) ==> r.mode == "answer"
    ensures !Truthy(Field(parsed, "answer")) ==> r.answer == ""
    ensures |r.clarifyingQuestions| <= 2
  {
    ChatReply(
      StringOr(Field(parsed, "mode"), "answer"),
      StringOr(Field(parsed, "answer"), ""),
      ClarifyingQuestions(StringEntries(Field(parsed, "clarifyingQuestions"))),
      SpecReplyFor(Or(Field(parsed, "graphSpec"), Null), FiltersOf(context), lastUserText))
  }

  /** The whole endpoint on a request body, the model's text `content` and
      what that text parses to: the request checks, then a 502 echoing the
      text when it is not JSON or is a falsy JSON value, then the reply. */
  function ChatResponse(apiKey: string, body: Value, content: string, parsed: Option<Value>)
    : (r: Response<ChatReply>)
    ensures CheckRequest(apiKey, body).Error? ==>
      r == Error(CheckRequest(apiKey, body).status, CheckRequest(apiKey, body).message)
    ensures CheckRequest(apiKey, body).Ok? && (parsed.None? || !Truthy(parsed.value)) ==>
      r == Error(502, "AI response was not valid JSON.", Some(content))
    ensures r.Ok? <==> CheckRequest(apiKey, body).Ok? && parsed.Some? && Truthy(parsed.value)
  {
    match CheckRequest(apiKey, body)
    case Error(status, message, _) => Error(status, message)
    case Ok(lastUserText) =>
      if parsed.None? || !Truthy(parsed.value) then Error(502, "AI response was not valid JSON.", Some(content))
      else Ok(ReplyFor(parsed.value, ContextOf(body), lastUserText))
  }

  /** The endpoint's code path: the graph spec object is repaired by
      `FixUpGraphSpec` and the questions merged by
      `MergeWrappedClarifyQuestions`. */
  method Respond(apiKey: string, body: Value, content: string, parsed: Option<Value>)
    returns (r: Response<ChatReply>)
    ensures r == ChatResponse(apiKey, body, content, parsed)
  {
    var check := CheckRequest(apiKey, body);
    if check.Error? {
      return Error(check.status, check.message);
    }
    var lastUserText := check.body;
    if parsed.None? || !Truthy(parsed.value) {
      return Error(502, "AI response was not valid JSON.", Some(content));
    }
    var reply := parsed.value;
    var context := ContextOf(body);

    var graphSpec := Or(Field(reply, "graphSpec"), Null);
    var spec: SpecReply;
    if !Truthy(graphSpec) {
      spec := NoSpec;
    } else if graphSpec.Obj? {
      var given := new GraphSpec(FromProps(graphSpec.props));
      var fixed := FixUpGraphSpec(given, FiltersOf(context), lastUserText);
      spec := Repaired(fixed.Snapshot());
    } else {
      spec := AsGiven(graphSpec);
    }

    var merged := MergeWrappedClarifyQuestions(
      Some(AsStringArray(StringEntries(Field(reply, "clarifyingQuestions")), 4)));
    var questions := if |merged| <= 2 then merged else merged[..2];
    r := Ok(ChatReply(
      StringOr(Field(reply, "mode"), "answer"),
      StringOr(Field(reply, "answer"), ""),
      questions,
      spec));
  }

  // ------------------------------------------------------------ properties

  /** A reply carries at most two clean questions, and a repaired spec has a
      version, a valid dimension when it is a breakdown and an array of at
      most four metric strings when it is a split or a multi-series chart. */
  lemma ReplyWellFormed(parsed: Value, context: Value, lastUserText: string)
    ensures var r := ReplyFor(parsed, context, lastUserText);
      (forall i :: 0 <= i < |r.clarifyingQuestions| ==>
        r.clarifyingQuestions[i] != "" && Trim(r.clarifyingQuestions[i]) == r.clarifyingQuestions[i]) &&
      (r.graphSpec.Repaired? ==>
        Truthy(r.graphSpec.fields.version) &&
        (r.graphSpec.fields.kind == Breakdown ==> ValidDimension(r.graphSpec.fields.dimension)) &&
        (IsSeriesKind(r.graphSpec.fields.kind) ==> MetricList(r.graphSpec.fields.metrics)))
  {
    var g := Or(Field(parsed, "graphSpec"), Null);
    if g.Obj? {
      var s := FromProps(g.props);
      var filters := FiltersOf(context);
      FixedVersion(s, filters, lastUserText);
      FixedDimension(s, filters, lastUserText);
      FixedMetrics(s, filters, lastUserText);
    }
  }

  /** A reply's mode and answer are the model's own strings when it gave
      non-empty ones. */
  lemma ReplyKeepsText(parsed: Value, context: Value, lastUserText: string, mode: string, answer: string)
    requires Field(parsed, "mode") == Str(mode) && mode != ""
    requires Field(parsed, "answer") == Str(answer) && answer != ""
    ensures ReplyFor(parsed, context, lastUserText).mode == mode
    ensures ReplyFor(parsed, context, lastUserText).answer == answer
  {
  }
}
