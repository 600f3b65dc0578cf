/** The output loop of one CLI process (`stream_output` in claude/process.rs),
    as a fold over the lines the process prints. Its private state is the
    current message id and the text accumulated for that message; it reads
    and updates the shared registry only where the source takes the lock.
    Fresh message ids come from a `uuid` supply indexed by a counter, and the
    JSON decoding of a line is the parameter `decode`. Each line is first
    turned into an optional event (`LineEvent`); the loop then folds over the
    events. */
module Stream {
  import opened Base
  import opened Events
  import opened Registry
  import Parser

  datatype LoopState = LoopState(messageId: string, currentText: string, nextUuid: nat)

  /** `format!("msg-{}", Uuid::new_v4())`, drawing the k-th value of the supply. */
  function FreshId(uuid: nat -> string, k: nat): string {
    "msg-" + uuid(k)
  }

  datatype BeginOutcome = BeginOutcome(registry: Registry, state: Option<LoopState>)

  /** The loop's start: take stdout out of the entry; return at once when the
      entry or its stdout is already gone. */
  function Begin(reg: Registry, sessionId: string, uuid: nat -> string): (o: BeginOutcome)
    ensures sessionId !in reg ==> o.registry == reg && o.state.None?
    ensures sessionId in reg ==>
      o.registry == reg[sessionId := reg[sessionId].(stdoutAvailable := false)]
    ensures o.state.Some? <==> sessionId in reg && reg[sessionId].stdoutAvailable
    ensures o.state.Some? ==> o.state.value == LoopState(FreshId(uuid, 0), "", 1)
  {
    if sessionId !in reg then
      BeginOutcome(reg, None)
    else
      var e := reg[sessionId];
      var reg' := reg[sessionId := e.(stdoutAvailable := false)];
      if e.stdoutAvailable then BeginOutcome(reg', Some(LoopState(FreshId(uuid, 0), "", 1)))
      else BeginOutcome(reg', None)
  }

  /** What one line contributes: nothing for a blank line or a line the
      protocol decoder rejects (the loop logs and skips those), else its event. */
  function LineEvent(line: string, decode: string -> Parser.Decoding): (r: Option<Parser.ClaudeEvent>)
    ensures r.None? <==> line == "" || Parser.Parse(decode(line)).Err?
    ensures r.Some? ==> Parser.Parse(decode(line)) == Ok(r.value)
  {
    if line == "" then None
    else
      match Parser.Parse(decode(line))
      case Err(_) => None
      case Ok(ev) => Some(ev)
  }

  function LineEvents(lines: seq<string>, decode: string -> Parser.Decoding): (r: seq<Option<Parser.ClaudeEvent>>)
    ensures |r| == |lines|
    ensures forall i :: 0 <= i < |lines| ==> r[i] == LineEvent(lines[i], decode)
  {
    seq(|lines|, i requires 0 <= i < |lines| => LineEvent(lines[i], decode))
  }

  datatype StepOutcome = StepOutcome(state: LoopState, emitted: seq<Emission>)

  /** One iteration of the read loop, on the event its line carried (if any):
      the loop's new state and what it emits. Its effect on the registry is
      `MarkReady`. */
  function Step(sessionId: string, st: LoopState, ev: Option<Parser.ClaudeEvent>, uuid: nat -> string)
    : (o: StepOutcome)
    // Skipped lines leave no trace.
    ensures ev.None? ==> o == StepOutcome(st, [])
    // Only the end-of-stream handler announces "stopped".
    ensures forall e :: e in o.emitted ==> !IsStatus(e, "stopped")
  {
    StepOutcome(StepState(st, ev, uuid), StepEmits(sessionId, st, ev))
  }

  /** The registry side of one iteration: only the end of a message touches it,
      and then only an entry that still exists, which becomes `Ready`. */
  function MarkReady(reg: Registry, sessionId: string, ev: Option<Parser.ClaudeEvent>): (r: Registry)
    ensures r.Keys == reg.Keys
    ensures forall k :: k in reg && k != sessionId ==> r[k] == reg[k]
    ensures sessionId in reg && ev == Some(Parser.MessageStop) ==> r[sessionId] == reg[sessionId].(status := Ready)
    ensures ev != Some(Parser.MessageStop) ==> r == reg
  {
    if ev == Some(Parser.MessageStop) && sessionId in reg then
      reg[sessionId := reg[sessionId].(status := Ready)]
    else reg
  }

  /** A new assistant message resets the text and adopts its id (or a fresh
      one); a text delta extends the text; nothing else changes the state. */
  function StepState(st: LoopState, ev: Option<Parser.ClaudeEvent>, uuid: nat -> string): LoopState {
    match ev
    case Some(Assistant(newId)) =>
      if newId.Some? then st.(messageId := newId.value, currentText := "")
      else LoopState(FreshId(uuid, st.nextUuid), "", st.nextUuid + 1)
    case Some(TextDelta(text)) => st.(currentText := st.currentText + text)
    case _ => st
  }

  function StepEmits(sessionId: string, st: LoopState, ev: Option<Parser.ClaudeEvent>): seq<Emission> {
    match ev
    case Some(TextDelta(text)) => [Output(OutputPayload(sessionId, st.messageId, text, false))]
    case Some(MessageStop) =>
      [Output(OutputPayload(sessionId, st.messageId, "", true)), StatusEvent(sessionId, "ready")]
    case Some(Error(message)) => [ErrorNote(ErrorPayload(sessionId, message, true))]
    case _ => []
  }

  /** The loop body over a sequence of events, without end-of-stream handling. */
  function Run(sessionId: string, st: LoopState, evs: seq<Option<Parser.ClaudeEvent>>, uuid: nat -> string)
    : StepOutcome
    decreases |evs|
  {
    if evs == [] then StepOutcome(st, [])
    else
      var first := Step(sessionId, st, evs[0], uuid);
      var rest := Run(sessionId, first.state, evs[1..], uuid);
      StepOutcome(rest.state, first.emitted + rest.emitted)
  }

  /** The registry after the loop's writes for a sequence of events. */
  function RunRegistry(reg: Registry, sessionId: string, evs: seq<Option<Parser.ClaudeEvent>>): (r: Registry)
    ensures r.Keys == reg.Keys
    decreases |evs|
  {
    if evs == [] then reg
    else RunRegistry(MarkReady(reg, sessionId, evs[0]), sessionId, evs[1..])
  }

  /** End of stream: remove the entry (present or not) and announce "stopped". */
  function Finish(reg: Registry, sessionId: string): (Registry, seq<Emission>) {
    (reg - {sessionId}, [StatusEvent(sessionId, "stopped")])
  }

  /** `stream_output` run to the end of the process's output with no other
      registry operation interleaved (module Race covers interleavings). */
  function StreamOutput(reg: Registry, sessionId: string, lines: seq<string>,
                        decode: string -> Parser.Decoding, uuid: nat -> string)
    : (r: (Registry, seq<Emission>))
    // Entry or stdout already gone: the loop returns without a word, not even "stopped".
    ensures !(sessionId in reg && reg[sessionId].stdoutAvailable) ==> r.1 == []
    ensures sessionId in reg && reg[sessionId].stdoutAvailable ==>
      && sessionId !in r.0
      && r.0.Keys == reg.Keys - {sessionId}
      && |r.1| >= 1 && r.1[|r.1| - 1] == StatusEvent(sessionId, "stopped")
      && CountStatus(r.1, "stopped") == 1
  {
    var b := Begin(reg, sessionId, uuid);
    if b.state.None? then (b.registry, [])
    else
      var evs := LineEvents(lines, decode);
      var o := Run(sessionId, b.state.value, evs, uuid);
      var f := Finish(RunRegistry(b.registry, sessionId, evs), sessionId);
      RunEmitsNoStopped(sessionId, b.state.value, evs, uuid);
      CountStatusAppend(o.emitted, f.1, "stopped");
      (f.0, o.emitted + f.1)
  }

  // ---------------------------------------------------------------------
  // Single steps
  // ---------------------------------------------------------------------

  /** A text delta is forwarded at once, alone, under the current message id,
      and appended to the accumulated text. */
  lemma StepTextDelta(sessionId: string, st: LoopState, uuid: nat -> string, text: string)
    ensures var o := Step(sessionId, st, Some(Parser.TextDelta(text)), uuid);
            && o.emitted == [Output(OutputPayload(sessionId, st.messageId, text, false))]
            && o.state.currentText == st.currentText + text
            && o.state.messageId == st.messageId
  {
  }

  /** A new assistant message clears the text and adopts the given id, or
      draws a fresh "msg-" id when none is given. */
  lemma StepAssistant(sessionId: string, st: LoopState, uuid: nat -> string, id: Option<string>)
    ensures var o := Step(sessionId, st, Some(Parser.Assistant(id)), uuid);
            && o.emitted == [] && o.state.currentText == ""
            && o.state.messageId == (if id.Some? then id.value else FreshId(uuid, st.nextUuid))
  {
  }

  /** The end of a message is an empty completing chunk followed by "ready". */
  lemma StepMessageStop(sessionId: string, st: LoopState, uuid: nat -> string)
    ensures var o := Step(sessionId, st, Some(Parser.MessageStop), uuid);
            && o.emitted == [Output(OutputPayload(sessionId, st.messageId, "", true)),
                             StatusEvent(sessionId, "ready")]
            && o.state == st
  {
  }

  /** A protocol error is forwarded as recoverable; it neither changes the
      loop's state nor (see `MarkReady`) any status. */
  lemma StepError(sessionId: string, st: LoopState, uuid: nat -> string, message: string)
    ensures var o := Step(sessionId, st, Some(Parser.Error(message)), uuid);
            && o.emitted == [ErrorNote(ErrorPayload(sessionId, message, true))]
            && o.state == st
  {
  }

  // ---------------------------------------------------------------------
  // Properties of the fold
  // ---------------------------------------------------------------------

  /** The loop's registry writes over a whole run amount to one: the entry,
      if it still exists and some message ended, is `Ready`; nothing else moves. */
  lemma {:induction false} RunRegistryEffect(reg: Registry, sessionId: string, evs: seq<Option<Parser.ClaudeEvent>>)
    ensures var r := RunRegistry(reg, sessionId, evs);
            && (forall k :: k in reg && k != sessionId ==> r[k] == reg[k])
            && (sessionId in reg && Some(Parser.MessageStop) in evs ==>
                 r[sessionId] == reg[sessionId].(status := Ready))
            && (Some(Parser.MessageStop) !in evs ==> r == reg)
    decreases |evs|
  {
    if evs != [] {
      var next := MarkReady(reg, sessionId, evs[0]);
      RunRegistryEffect(next, sessionId, evs[1..]);
      assert evs == [evs[0]] + evs[1..];
      assert Some(Parser.MessageStop) in evs <==> evs[0] == Some(Parser.MessageStop) || Some(Parser.MessageStop) in evs[1..];
    }
  }

  lemma {:induction false} CountStatusNone(es: seq<Emission>, s: string)
    requires forall e :: e in es ==> !IsStatus(e, s)
    ensures CountStatus(es, s) == 0
  {
    if es != [] {
      assert es[0] in es;
      CountStatusNone(es[1..], s);
    }
  }

  /** Only the end-of-stream handler ever announces "stopped". */
  lemma {:induction false} RunEmitsNoStopped(sessionId: string, st: LoopState,
                                             evs: seq<Option<Parser.ClaudeEvent>>, uuid: nat -> string)
    ensures CountStatus(Run(sessionId, st, evs, uuid).emitted, "stopped") == 0
    decreases |evs|
  {
    if evs != [] {
      var first := Step(sessionId, st, evs[0], uuid);
      var rest := Run(sessionId, first.state, evs[1..], uuid);
      RunEmitsNoStopped(sessionId, first.state, evs[1..], uuid);
      CountStatusNone(first.emitted, "stopped");
      CountStatusAppend(first.emitted, rest.emitted, "stopped");
    }
  }

  /** Running over `a + b` is running over `a` and then over `b`. */
  lemma {:induction false} RunAppend(sessionId: string, st: LoopState,
                                     a: seq<Option<Parser.ClaudeEvent>>, b: seq<Option<Parser.ClaudeEvent>>,
                                     uuid: nat -> string)
    ensures var ra := Run(sessionId, st, a, uuid);
            var rb := Run(sessionId, ra.state, b, uuid);
            Run(sessionId, st, a + b, uuid) == StepOutcome(rb.state, ra.emitted + rb.emitted)
    decreases |a|
  {
    if a == [] {
      assert a + b == b;
    } else {
      assert (a + b)[0] == a[0] && (a + b)[1..] == a[1..] + b;
      var first := Step(sessionId, st, a[0], uuid);
      var tail := Run(sessionId, first.state, a[1..], uuid);
      var rb := Run(sessionId, tail.state, b, uuid);
      RunAppend(sessionId, first.state, a[1..], b, uuid);
      assert first.emitted + (tail.emitted + rb.emitted) == (first.emitted + tail.emitted) + rb.emitted;
    }
  }

  predicate StartsMessage(ev: Option<Parser.ClaudeEvent>) {
    ev.Some? && ev.value.Assistant?
  }

  predicate NoAssistant(evs: seq<Option<Parser.ClaudeEvent>>) {
    forall i :: 0 <= i < |evs| ==> !StartsMessage(evs[i])
  }

  /** The text chunks of the incomplete output payloads, concatenated in order. */
  function DeltaChunks(es: seq<Emission>): string {
    if es == [] then ""
    else (if es[0].Output? && !es[0].output.isComplete then es[0].output.chunk else "") + DeltaChunks(es[1..])
  }

  lemma {:induction false} DeltaChunksAppend(a: seq<Emission>, b: seq<Emission>)
    ensures DeltaChunks(a + b) == DeltaChunks(a) + DeltaChunks(b)
  {
    if a == [] {
      assert a + b == b;
    } else {
      assert (a + b)[1..] == a[1..] + b;
      DeltaChunksAppend(a[1..], b);
    }
  }

  /** Every output chunk in `es` is tagged with message id `id`. */
  predicate OutputsCarry(es: seq<Emission>, id: string) {
    forall i :: 0 <= i < |es| && es[i].Output? ==> es[i].output.messageId == id
  }

  lemma OutputsCarryAppend(a: seq<Emission>, b: seq<Emission>, id: string)
    requires OutputsCarry(a, id) && OutputsCarry(b, id)
    ensures OutputsCarry(a + b, id)
  {
    forall i | 0 <= i < |a + b| && (a + b)[i].Output? ensures (a + b)[i].output.messageId == id {
      if i < |a| {
        assert (a + b)[i] == a[i];
      } else {
        assert (a + b)[i] == b[i - |a|];
      }
    }
  }

  /** `o` continues the message of `st`: its text is `st`'s text followed by
      the forwarded fragments, and its id, which tags every chunk, is unchanged. */
  predicate ContinuesMessage(st: LoopState, o: StepOutcome) {
    && o.state.currentText == st.currentText + DeltaChunks(o.emitted)
    && o.state.messageId == st.messageId
    && OutputsCarry(o.emitted, st.messageId)
  }

  lemma ContinuesCompose(st: LoopState, first: StepOutcome, rest: StepOutcome)
    requires ContinuesMessage(st, first) && ContinuesMessage(first.state, rest)
    ensures ContinuesMessage(st, StepOutcome(rest.state, first.emitted + rest.emitted))
  {
    DeltaChunksAppend(first.emitted, rest.emitted);
    OutputsCarryAppend(first.emitted, rest.emitted, st.messageId);
    assert st.currentText + DeltaChunks(first.emitted) + DeltaChunks(rest.emitted)
        == st.currentText + (DeltaChunks(first.emitted) + DeltaChunks(rest.emitted));
  }

  /** One event that does not start a message continues the current one. */
  lemma StepKeepsMessage(sessionId: string, st: LoopState, ev: Option<Parser.ClaudeEvent>, uuid: nat -> string)
    requires !StartsMessage(ev)
    ensures ContinuesMessage(st, Step(sessionId, st, ev, uuid))
  {
    var o := Step(sessionId, st, ev, uuid);
    match ev
    case Some(TextDelta(text)) =>
      assert DeltaChunks(o.emitted) == text + DeltaChunks([]);
    case Some(MessageStop) =>
      assert o.emitted[1..][1..] == [];
      assert DeltaChunks(o.emitted[1..]) == "";
      assert DeltaChunks(o.emitted) == "";
      assert o.state.currentText == st.currentText + "";
    case Some(Error(_)) =>
      assert DeltaChunks(o.emitted) == "" + DeltaChunks([]);
      assert o.state.currentText == st.currentText + "";
    case Some(Assistant(_)) =>
      assert false;
    case Some(ToolUse(_, _)) =>
      assert o.state.currentText == st.currentText + "";
    case Some(ToolResult(_, _)) =>
      assert o.state.currentText == st.currentText + "";
    case Some(Unknown) =>
      assert o.state.currentText == st.currentText + "";
    case None =>
      assert o.state.currentText == st.currentText + "";
  }

  lemma NoAssistantTail(evs: seq<Option<Parser.ClaudeEvent>>)
    requires evs != [] && NoAssistant(evs)
    ensures !StartsMessage(evs[0]) && NoAssistant(evs[1..])
  {
    forall i | 0 <= i < |evs[1..]| ensures !StartsMessage(evs[1..][i]) {
      assert evs[1..][i] == evs[i + 1];
    }
  }

  /** Without a new assistant message, the text accumulated by the loop grows
      by exactly the forwarded fragments, in order; the message id stays and
      tags every forwarded chunk. */
  lemma {:induction false} RunAccumulates(sessionId: string, st: LoopState,
                                          evs: seq<Option<Parser.ClaudeEvent>>, uuid: nat -> string)
    requires NoAssistant(evs)
    ensures ContinuesMessage(st, Run(sessionId, st, evs, uuid))
    decreases |evs|
  {
    if evs == [] {
      assert st.currentText == st.currentText + DeltaChunks([]);
    } else {
      NoAssistantTail(evs);
      var first := Step(sessionId, st, evs[0], uuid);
      StepKeepsMessage(sessionId, st, evs[0], uuid);
      RunAccumulates(sessionId, first.state, evs[1..], uuid);
      ContinuesCompose(st, first, Run(sessionId, first.state, evs[1..], uuid));
    }
  }

  /** The fragments forwarded since the last assistant message, concatenated
      in arrival order, are exactly the text the loop has accumulated, and all
      of them carry that message's id. */
  lemma FragmentsSinceAssistantFormText(sessionId: string, st: LoopState,
                                        pre: seq<Option<Parser.ClaudeEvent>>, id: Option<string>,
                                        post: seq<Option<Parser.ClaudeEvent>>, uuid: nat -> string)
    requires NoAssistant(post)
    ensures var r1 := Run(sessionId, st, pre + [Some(Parser.Assistant(id))], uuid);
            var r2 := Run(sessionId, r1.state, post, uuid);
            var all := Run(sessionId, st, pre + [Some(Parser.Assistant(id))] + post, uuid);
            && all.emitted == r1.emitted + r2.emitted
            && all.state.currentText == DeltaChunks(r2.emitted)
            && OutputsCarry(r2.emitted, r1.state.messageId)
  {
    var start := [Some(Parser.Assistant(id))];
    RunAppend(sessionId, st, pre, start, uuid);
    var r1 := Run(sessionId, st, pre + start, uuid);
    assert r1.state.currentText == "";
    RunAppend(sessionId, st, pre + start, post, uuid);
    RunAccumulates(sessionId, r1.state, post, uuid);
    var r2 := Run(sessionId, r1.state, post, uuid);
    assert r2.state.currentText == "" + DeltaChunks(r2.emitted);
  }
}
