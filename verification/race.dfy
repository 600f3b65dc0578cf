/** The output loop of one session running concurrently with the commands
    that touch the same registry (claude/process.rs). Every lock-guarded
    section is one atomic action; an interleaving is a sequence of actions,
    and `Execute` runs it. The session id under study is fixed per world;
    `start` is not among the actions, because a successful start spawns a
    second loop (see `StaleCleanupRemovesRestartedEntry` for what that allows). */
module Race {
  import opened Base
  import opened Events
  import opened Registry
  import Parser
  import Stream

  /** Where the loop task is: not yet scheduled, reading lines, returned early
      at its start (no stdout to read), or finished with its cleanup. */
  datatype LoopPhase = Pending | Reading(st: Stream.LoopState) | Returned | Ended

  datatype World = World(reg: Registry, loop: LoopPhase, out: seq<Emission>)

  datatype Action =
    | LoopBegin
    | LoopLine(ev: Option<Parser.ClaudeEvent>)
    | LoopEof
    | ApiStop
    | ApiSend(content: string, env: SendEnv)
    | ApiCancel

  /** One atomic action on the world of session `sessionId`. Loop actions out
      of phase (a line before the loop started or after it ended) change nothing. */
  function Apply(w: World, sessionId: string, a: Action, uuid: nat -> string): World {
    match a
    case LoopBegin =>
      if !w.loop.Pending? then w
      else
        var b := Stream.Begin(w.reg, sessionId, uuid);
        World(b.registry, if b.state.Some? then Reading(b.state.value) else Returned, w.out)
    case LoopLine(ev) =>
      if !w.loop.Reading? then w
      else
        var o := Stream.Step(sessionId, w.loop.st, ev, uuid);
        World(Stream.MarkReady(w.reg, sessionId, ev), Reading(o.state), w.out + o.emitted)
    case LoopEof =>
      if !w.loop.Reading? then w
      else
        var f := Stream.Finish(w.reg, sessionId);
        World(f.0, Ended, w.out + f.1)
    case ApiStop => w.(reg := Stop(w.reg, sessionId).0)
    case ApiSend(content, env) => w.(reg := SendMessage(w.reg, sessionId, content, env).0)
    case ApiCancel => w.(reg := Cancel(w.reg, sessionId).0)
  }

  function Execute(w: World, sessionId: string, acts: seq<Action>, uuid: nat -> string): World
    decreases |acts|
  {
    if acts == [] then w
    else Execute(Apply(w, sessionId, acts[0], uuid), sessionId, acts[1..], uuid)
  }

  /** What holds in every reachable world, relative to the registry `reg0` the
      loop was spawned into:
      - no action ever inserts an entry, and no other session's entry changes;
      - "stopped" has been announced exactly once if the loop ended, else never;
      - after the loop ended or returned early, the entry is gone for good;
      - before the loop starts it has said nothing and its stdout is still there. */
  ghost predicate Inv(w: World, sessionId: string, reg0: Registry) {
    && w.reg.Keys <= reg0.Keys
    && (forall k :: k in w.reg && k != sessionId ==> w.reg[k] == reg0[k])
    && CountStatus(w.out, "stopped") == (if w.loop.Ended? then 1 else 0)
    && ((w.loop.Ended? || w.loop.Returned?) ==> sessionId !in w.reg)
    && (w.loop.Pending? ==> w.out == [] && (sessionId in w.reg ==> w.reg[sessionId].stdoutAvailable))
  }

  /** The world right after `start` has spawned the process and its loop task. */
  ghost predicate Initial(w: World, sessionId: string) {
    && w.loop.Pending? && w.out == []
    && (sessionId in w.reg ==> w.reg[sessionId].stdoutAvailable)
  }

  lemma InitialInv(w: World, sessionId: string)
    requires Initial(w, sessionId)
    ensures Inv(w, sessionId, w.reg)
  {
  }

  lemma ApplyKeepsInv(w: World, sessionId: string, reg0: Registry, a: Action, uuid: nat -> string)
    requires Inv(w, sessionId, reg0)
    ensures Inv(Apply(w, sessionId, a, uuid), sessionId, reg0)
  {
    var w' := Apply(w, sessionId, a, uuid);
    match a
    case LoopLine(ev) =>
      if w.loop.Reading? {
        var o := Stream.Step(sessionId, w.loop.st, ev, uuid);
        Stream.CountStatusNone(o.emitted, "stopped");
        CountStatusAppend(w.out, o.emitted, "stopped");
      }
    case LoopEof =>
      if w.loop.Reading? {
        CountStatusAppend(w.out, [StatusEvent(sessionId, "stopped")], "stopped");
      }
    case _ =>
  }

  /** The invariant holds after every interleaving. */
  lemma {:induction false} ExecuteKeepsInv(w: World, sessionId: string, reg0: Registry, acts: seq<Action>,
                                           uuid: nat -> string)
    requires Inv(w, sessionId, reg0)
    ensures Inv(Execute(w, sessionId, acts, uuid), sessionId, reg0)
    decreases |acts|
  {
    if acts != [] {
      ApplyKeepsInv(w, sessionId, reg0, acts[0], uuid);
      ExecuteKeepsInv(Apply(w, sessionId, acts[0], uuid), sessionId, reg0, acts[1..], uuid);
    }
  }

  /** Whatever the interleaving, "stopped" is announced at most once, and
      exactly once when the loop has run its cleanup. */
  lemma StoppedAtMostOnce(w: World, sessionId: string, acts: seq<Action>, uuid: nat -> string)
    requires Initial(w, sessionId)
    ensures var w' := Execute(w, sessionId, acts, uuid);
            && CountStatus(w'.out, "stopped") <= 1
            && (CountStatus(w'.out, "stopped") == 1 <==> w'.loop.Ended?)
  {
    InitialInv(w, sessionId);
    ExecuteKeepsInv(w, sessionId, w.reg, acts, uuid);
  }

  /** A removed entry is never resurrected by a later action: neither the
      loop's "ready" update nor a send re-inserts it. */
  lemma {:induction false} NoResurrection(w: World, sessionId: string, acts: seq<Action>, uuid: nat -> string)
    requires sessionId !in w.reg
    ensures sessionId !in Execute(w, sessionId, acts, uuid).reg
    decreases |acts|
  {
    if acts != [] {
      var w' := Apply(w, sessionId, acts[0], uuid);
      assert sessionId !in w'.reg;
      NoResurrection(w', sessionId, acts[1..], uuid);
    }
  }

  /** `stop` before the loop gets to take stdout: the loop returns at once and
      says nothing at all, not even "stopped", whatever follows. */
  lemma {:induction false} StopBeforeBeginIsSilent(w: World, sessionId: string, acts: seq<Action>,
                                                   uuid: nat -> string)
    requires w.loop.Pending? || w.loop.Returned?
    requires sessionId !in w.reg
    ensures Execute(w, sessionId, acts, uuid).out == w.out
    ensures !Execute(w, sessionId, acts, uuid).loop.Reading?
    decreases |acts|
  {
    if acts != [] {
      var w' := Apply(w, sessionId, acts[0], uuid);
      assert w'.out == w.out && (w'.loop.Pending? || w'.loop.Returned?) && sessionId !in w'.reg;
      StopBeforeBeginIsSilent(w', sessionId, acts[1..], uuid);
    }
  }

  /** `stop` and the loop's end-of-stream cleanup, in either order, leave the
      same registry and the same single "stopped" announcement. */
  lemma StopAndEofCommute(w: World, sessionId: string, uuid: nat -> string)
    requires w.loop.Reading?
    ensures var a := Execute(w, sessionId, [ApiStop, LoopEof], uuid);
            var b := Execute(w, sessionId, [LoopEof, ApiStop], uuid);
            && a == b
            && sessionId !in a.reg
            && a.out == w.out + [StatusEvent(sessionId, "stopped")]
  {
    var r := w.reg - {sessionId};
    assert r - {sessionId} == r;
  }

  /** A message end that arrives after `stop` still announces "ready" but
      does not bring the entry back. */
  lemma ReadyAfterStop(w: World, sessionId: string, uuid: nat -> string)
    requires w.loop.Reading?
    ensures var w' := Execute(w, sessionId, [ApiStop, LoopLine(Some(Parser.MessageStop))], uuid);
            && sessionId !in w'.reg
            && w'.out == w.out + [Output(OutputPayload(sessionId, w.loop.st.messageId, "", true)),
                                  StatusEvent(sessionId, "ready")]
  {
  }

  /** The cleanup removes by session id, not by process: if the session is
      stopped and started again before the old loop sees end of stream, the
      old loop removes the new process's entry and announces "stopped" for a
      session whose new process is running. */
  lemma StaleCleanupRemovesRestartedEntry(reg: Registry, sessionId: string, ctx: Option<string>, env: StartEnv)
    requires env.cliFound && env.spawn.IoOk? && ContextWriteFailure(ctx, env).None?
    ensures var afterStop := Stop(reg, sessionId).0;
            var restarted := Start(afterStop, sessionId, ctx, env);
            var cleanup := Stream.Finish(restarted.registry, sessionId);
            && restarted.result.Ok? && sessionId in restarted.registry
            && sessionId !in cleanup.0
            && cleanup.1 == [StatusEvent(sessionId, "stopped")]
  {
  }
}
