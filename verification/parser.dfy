/** The CLI output decoder (claude/parser.rs): one decoded NDJSON record is
    mapped, by its string "type" field, to a closed `ClaudeEvent` union. */
module Parser {
  import opened Base
  import opened Json
  import Text
  import Errors

  /** A line of CLI output after JSON decoding: either serde_json rejected it
      (with its error text) or it produced a value. */
  datatype Decoding = Malformed(reason: string) | Decoded(value: Json)

  datatype ClaudeEvent =
    | Assistant(messageId: Option<string>)
    | TextDelta(text: string)
    | ToolUse(name: string, input: Json)
    | ToolResult(toolUseId: string, content: string)
    | MessageStop
    | Error(message: string)
    | Unknown

  /** `RawEvent`: the renamed "type" field plus every other field, flattened into `data`. */
  datatype RawEvent = RawEvent(eventType: string, data: Json)

  // serde's complaints when a decoded value is not a `RawEvent`; the wording is schematic.
  const NotAnObject := "invalid type: expected a map"
  const MissingType := "missing field `type`"
  const TypeNotString := "invalid type: expected a string for field `type`"

  /** The record has the shape `RawEvent` demands: an object with a string "type". */
  predicate HasStringType(line: Decoding) {
    line.Decoded? && line.value.JObject? && "type" in line.value.fields
    && line.value.fields["type"].JString?
  }

  /** The record has a string "type" equal to `t`. */
  predicate TypeIs(line: Decoding, t: string) {
    HasStringType(line) && line.value.fields["type"].s == t
  }

  /** Deserialising a decoded value into `RawEvent`. */
  function ToRaw(v: Json): Result<RawEvent, string> {
    match v
    case JObject(fields) =>
      if "type" !in fields then Err(MissingType)
      else if !fields["type"].JString? then Err(TypeNotString)
      else Ok(RawEvent(fields["type"].s, JObject(fields - {"type"})))
    case _ => Err(NotAnObject)
  }

  /** `parse_claude_output`. */
  function Parse(line: Decoding): (r: Result<ClaudeEvent, Errors.AppError>)
    ensures r.Err? <==> !HasStringType(line)
    ensures r.Err? ==> r.error.code == Errors.ClaudeCliError && r.error.details.None?
    ensures r.Err? ==> Text.StartsWith(r.error.message, "JSON parse error: ")
  {
    var raw :=
      match line
      case Malformed(reason) => Err(reason)
      case Decoded(v) => ToRaw(v);
    match raw
    case Err(reason) =>
      assert Text.StartsWith("JSON parse error: " + reason, "JSON parse error: ");
      Err(Errors.ClaudeCliErr("JSON parse error: " + reason))
    case Ok(ev) => Ok(Classify(ev))
  }

  /** The `match raw.event_type` arms of `parse_claude_output`. */
  function Classify(raw: RawEvent): ClaudeEvent {
    var data := raw.data;
    match raw.eventType
    case "assistant" =>
      Assistant(StrField(Get(data, "message"), "id"))
    case "content_block_start" => Unknown
    case "content_block_delta" =>
      (match StrField(Get(data, "delta"), "text")
       case Some(text) => TextDelta(text)
       case None => Unknown)
    case "content_block_stop" => Unknown
    case "tool_use" =>
      ToolUse(StrField(Some(data), "name").GetOr("unknown"), Get(data, "input").GetOr(JNull))
    case "tool_result" =>
      ToolResult(StrField(Some(data), "tool_use_id").GetOr(""), StrField(Some(data), "content").GetOr(""))
    case "message_stop" => MessageStop
    case "message_delta" => Unknown
    case "message_start" => Unknown
    case "error" =>
      Error(StrField(Get(data, "error"), "message").GetOr("Unknown error"))
    case "ping" => Unknown
    case _ => Unknown
  }

  // ---------------------------------------------------------------------
  // Field-level reading of a record, stated on the record as received
  // ---------------------------------------------------------------------

  /** Field `k` of the record is present and is a string. */
  predicate HasStr(line: Decoding, k: string)
    requires HasStringType(line)
  {
    k in line.value.fields && line.value.fields[k].JString?
  }

  /** Field `outer` is an object whose field `inner` is a string. */
  predicate HasNestedStr(line: Decoding, outer: string, inner: string)
    requires HasStringType(line)
  {
    outer in line.value.fields && line.value.fields[outer].JObject?
    && inner in line.value.fields[outer].fields
    && line.value.fields[outer].fields[inner].JString?
  }

  function NestedStr(line: Decoding, outer: string, inner: string): string
    requires HasStringType(line) && HasNestedStr(line, outer, inner)
  {
    line.value.fields[outer].fields[inner].s
  }

  /** Malformed input, and a record without a string "type", never yields an event. */
  lemma ParseRejectsUntyped(line: Decoding)
    requires line.Malformed? || (line.Decoded? && !line.value.JObject?)
             || (line.Decoded? && line.value.JObject? && "type" !in line.value.fields)
             || (line.Decoded? && line.value.JObject? && "type" in line.value.fields
                 && !line.value.fields["type"].JString?)
    ensures Parse(line).Err? && Parse(line).error.code == Errors.ClaudeCliError
  {
  }

  /** "assistant": the message id is carried exactly when `message.id` is a string. */
  lemma ParseAssistant(line: Decoding)
    requires TypeIs(line, "assistant")
    ensures Parse(line).Ok? && Parse(line).value.Assistant?
    ensures Parse(line).value.messageId.Some? <==> HasNestedStr(line, "message", "id")
    ensures HasNestedStr(line, "message", "id") ==>
      Parse(line).value.messageId.value == NestedStr(line, "message", "id")
  {
  }

  /** "content_block_delta": a text delta exactly when `delta.text` is a string. */
  lemma ParseContentBlockDelta(line: Decoding)
    requires TypeIs(line, "content_block_delta")
    ensures Parse(line).Ok?
    ensures Parse(line).value.TextDelta? <==> HasNestedStr(line, "delta", "text")
    ensures !HasNestedStr(line, "delta", "text") ==> Parse(line).value.Unknown?
    ensures HasNestedStr(line, "delta", "text") ==>
      Parse(line).value.text == NestedStr(line, "delta", "text")
  {
  }

  /** Types that are recognised but carry nothing for the application. */
  const IgnoredTypes: set<string> :=
    {"content_block_start", "content_block_stop", "message_start", "message_delta", "ping"}

  /** Types with an arm of their own that produces an event. */
  const HandledTypes: set<string> :=
    {"assistant", "content_block_delta", "tool_use", "tool_result", "message_stop", "error"}

  /** Ignored and unlisted types all decode to `Unknown`. */
  lemma ParseIgnoredAndUnlisted(line: Decoding, t: string)
    requires TypeIs(line, t) && (t in IgnoredTypes || t !in HandledTypes)
    ensures Parse(line) == Ok(Unknown)
  {
  }

  /** "tool_use": name defaults to "unknown", the input is passed through verbatim
      and a missing input becomes JSON null. */
  lemma ParseToolUse(line: Decoding)
    requires TypeIs(line, "tool_use")
    ensures Parse(line).Ok? && Parse(line).value.ToolUse?
    ensures Parse(line).value.name ==
      (if HasStr(line, "name") then line.value.fields["name"].s else "unknown")
    ensures Parse(line).value.input ==
      (if "input" in line.value.fields then line.value.fields["input"] else JNull)
  {
  }

  /** "tool_result": `tool_use_id` and `content` each default to the empty string. */
  lemma ParseToolResult(line: Decoding)
    requires TypeIs(line, "tool_result")
    ensures Parse(line).Ok? && Parse(line).value.ToolResult?
    ensures Parse(line).value.toolUseId ==
      (if HasStr(line, "tool_use_id") then line.value.fields["tool_use_id"].s else "")
    ensures Parse(line).value.content ==
      (if HasStr(line, "content") then line.value.fields["content"].s else "")
  {
  }

  /** "message_stop" ends the message whatever else the record holds. */
  lemma ParseMessageStop(line: Decoding)
    requires TypeIs(line, "message_stop")
    ensures Parse(line) == Ok(MessageStop)
  {
  }

  /** "error": the message comes from `error.message`, defaulting to "Unknown error". */
  lemma ParseError(line: Decoding)
    requires TypeIs(line, "error")
    ensures Parse(line).Ok? && Parse(line).value.Error?
    ensures Parse(line).value.message ==
      (if HasNestedStr(line, "error", "message") then NestedStr(line, "error", "message")
       else "Unknown error")
  {
  }

  // ---------------------------------------------------------------------
  // Round trip: a canonical record for every event decodes back to it
  // ---------------------------------------------------------------------

  /** The record the CLI sends for each event; `Unknown` is represented by a ping. */
  function Encode(e: ClaudeEvent): Json {
    match e
    case Assistant(None) => JObject(map["type" := JString("assistant")])
    case Assistant(Some(id)) =>
      JObject(map["type" := JString("assistant"), "message" := JObject(map["id" := JString(id)])])
    case TextDelta(text) =>
      JObject(map["type" := JString("content_block_delta"), "delta" := JObject(map["text" := JString(text)])])
    case ToolUse(name, input) =>
      JObject(map["type" := JString("tool_use"), "name" := JString(name), "input" := input])
    case ToolResult(id, content) =>
      JObject(map["type" := JString("tool_result"), "tool_use_id" := JString(id), "content" := JString(content)])
    case MessageStop => JObject(map["type" := JString("message_stop")])
    case Error(message) =>
      JObject(map["type" := JString("error"), "error" := JObject(map["message" := JString(message)])])
    case Unknown => JObject(map["type" := JString("ping")])
  }

  /** Every event is recovered from its canonical record. */
  lemma ParseEncodeRoundTrip(e: ClaudeEvent)
    ensures Parse(Decoded(Encode(e))) == Ok(e)
  {
    match e
    case Assistant(None) =>
      assert Classify(RawEvent("assistant", JObject(map[]))) == e;
    case Assistant(Some(id)) => RoundTripAssistant(id);
    case TextDelta(text) => RoundTripTextDelta(text);
    case ToolUse(name, input) => RoundTripToolUse(name, input);
    case ToolResult(id, content) => RoundTripToolResult(id, content);
    case MessageStop =>
    case Error(message) => RoundTripError(message);
    case Unknown =>
  }

  lemma RoundTripAssistant(id: string)
    ensures Parse(Decoded(Encode(Assistant(Some(id))))) == Ok(Assistant(Some(id)))
  {
    var data := map["message" := JObject(map["id" := JString(id)])];
    assert Encode(Assistant(Some(id))).fields - {"type"} == data;
  }

  lemma RoundTripTextDelta(text: string)
    ensures Parse(Decoded(Encode(TextDelta(text)))) == Ok(TextDelta(text))
  {
    var data := map["delta" := JObject(map["text" := JString(text)])];
    assert Encode(TextDelta(text)).fields - {"type"} == data;
  }

  lemma RoundTripToolUse(name: string, input: Json)
    ensures Parse(Decoded(Encode(ToolUse(name, input)))) == Ok(ToolUse(name, input))
  {
    var data := map["name" := JString(name), "input" := input];
    assert Encode(ToolUse(name, input)).fields - {"type"} == data;
  }

  lemma RoundTripToolResult(id: string, content: string)
    ensures Parse(Decoded(Encode(ToolResult(id, content)))) == Ok(ToolResult(id, content))
  {
    var data := map["tool_use_id" := JString(id), "content" := JString(content)];
    assert Encode(ToolResult(id, content)).fields - {"type"} == data;
  }

  lemma RoundTripError(message: string)
    ensures Parse(Decoded(Encode(Error(message)))) == Ok(Error(message))
  {
    var data := map["error" := JObject(map["message" := JString(message)])];
    assert Encode(Error(message)).fields - {"type"} == data;
  }

  // ---------------------------------------------------------------------
  // The literal samples of the unit tests
  // ---------------------------------------------------------------------

  lemma SampleLines()
    ensures Parse(Decoded(JObject(map[
      "type" := JString("content_block_delta"),
      "delta" := JObject(map["type" := JString("text_delta"), "text" := JString("Hello ")])])))
      == Ok(TextDelta("Hello "))
    ensures Parse(Decoded(JObject(map["type" := JString("message_stop")]))) == Ok(MessageStop)
    ensures Parse(Decoded(JObject(map[
      "type" := JString("error"),
      "error" := JObject(map["message" := JString("Rate limited")])])))
      == Ok(Error("Rate limited"))
    ensures Parse(Decoded(JObject(map["type" := JString("foo")]))) == Ok(Unknown)
  {
    ParseContentBlockDelta(Decoded(JObject(map[
      "type" := JString("content_block_delta"),
      "delta" := JObject(map["type" := JString("text_delta"), "text" := JString("Hello ")])])));
    ParseError(Decoded(JObject(map[
      "type" := JString("error"),
      "error" := JObject(map["message" := JString("Rate limited")])])));
    ParseIgnoredAndUnlisted(Decoded(JObject(map["type" := JString("foo")])), "foo");
  }

  /** The `write_file` sample keeps its input object, so `input.path` is "test.txt". */
  lemma SampleToolUse()
    ensures
      var line := Decoded(JObject(map[
        "type" := JString("tool_use"), "id" := JString("123"), "name" := JString("write_file"),
        "input" := JObject(map["path" := JString("test.txt")])]));
      && Parse(line).Ok? && Parse(line).value.ToolUse?
      && Parse(line).value.name == "write_file"
      && StrField(Some(Parse(line).value.input), "path") == Some("test.txt")
  {
    var line := Decoded(JObject(map[
      "type" := JString("tool_use"), "id" := JString("123"), "name" := JString("write_file"),
      "input" := JObject(map["path" := JString("test.txt")])]));
    ParseToolUse(line);
  }
}
