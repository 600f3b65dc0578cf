/** The payloads the backend emits to the frontend (events/mod.rs), and the
    three channels the CLI core uses. Delivery itself is a foreign call and is
    not modelled: an emission is a value appended to an output sequence. */
module Events {
  import opened Base

  /** `ClaudeOutputPayload`: one streamed chunk of an assistant message. */
  datatype OutputPayload = OutputPayload(sessionId: string, messageId: string, chunk: string, isComplete: bool)

  /** `ClaudeStatusPayload`. */
  datatype StatusPayload = StatusPayload(sessionId: string, status: string, error: Option<string>)

  /** The ad hoc JSON object sent on the error channel by the stream loop. */
  datatype ErrorPayload = ErrorPayload(sessionId: string, error: string, recoverable: bool)

  datatype Emission =
    | Output(output: OutputPayload)
    | Status(status: StatusPayload)
    | ErrorNote(note: ErrorPayload)

  /** The event name each payload is sent under (`event_names`). */
  function EventName(e: Emission): (name: string)
    ensures e.Output? <==> name == "claude_output"
    ensures e.Status? <==> name == "claude_status"
    ensures e.ErrorNote? <==> name == "claude_error"
  {
    match e
    case Output(_) => "claude_output"
    case Status(_) => "claude_status"
    case ErrorNote(_) => "claude_error"
  }

  /** `emit_status`: a status payload never carries an error text. */
  function StatusEvent(sessionId: string, status: string): (e: Emission)
    ensures e.Status? && e.status.sessionId == sessionId && e.status.status == status
    ensures e.status.error.None?
  {
    Status(StatusPayload(sessionId, status, None))
  }

  /** The emission announces status `s`. */
  predicate IsStatus(e: Emission, s: string) {
    e.Status? && e.status.status == s
  }

  /** How many emissions in `es` announce status `s`. */
  function CountStatus(es: seq<Emission>, s: string): nat {
    if es == [] then 0
    else (if IsStatus(es[0], s) then 1 else 0) + CountStatus(es[1..], s)
  }

  lemma {:induction false} CountStatusAppend(a: seq<Emission>, b: seq<Emission>, s: string)
    ensures CountStatus(a + b, s) == CountStatus(a, s) + CountStatus(b, s)
  {
    if a == [] {
      assert a + b == b;
    } else {
      assert (a + b)[1..] == a[1..] + b;
      CountStatusAppend(a[1..], b, s);
    }
  }
}
