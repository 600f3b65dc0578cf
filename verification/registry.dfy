/** The CLI session registry (`CliManager` in claude/process.rs): a map from
    session id to the live process entry, with the control operations start,
    stop, send_message, cancel, get_status and is_running. Each operation runs
    under the registry lock and is modelled as one atomic transition; the
    outcomes of the OS interactions (finding the executable, spawning, pipe
    writes) are parameters. */
module Registry {
  import opened Base
  import opened Events
  import Errors

  /** `ClaudeStatus` (state/app_state.rs). */
  datatype ClaudeStatus = Starting | Ready | Busy | Stopped | Error

  /** The serialised status name (serde `lowercase`). */
  function StatusName(s: ClaudeStatus): string {
    match s
    case Starting => "starting"
    case Ready => "ready"
    case Busy => "busy"
    case Stopped => "stopped"
    case Error => "error"
  }

  function StatusFromName(name: string): Option<ClaudeStatus> {
    if name == "starting" then Some(Starting)
    else if name == "ready" then Some(Ready)
    else if name == "busy" then Some(Busy)
    else if name == "stopped" then Some(Stopped)
    else if name == "error" then Some(Error)
    else None
  }

  /** Every status is recovered from its name, so the names are distinct. */
  lemma StatusNameRoundTrip(s: ClaudeStatus)
    ensures StatusFromName(StatusName(s)) == Some(s)
  {
  }

  /** A `CliProcess`: its status, whether the stdin and stdout pipes are still
      held by the entry, and the lines fully written to stdin so far. */
  datatype Entry = Entry(status: ClaudeStatus, stdinAvailable: bool, stdoutAvailable: bool, sent: seq<string>)

  type Registry = map<string, Entry>

  /** What the environment does when `start` reaches out to it: whether
      `claude` is on the search path, and the results of the spawn and of the
      two writes that deliver a resume context. */
  datatype StartEnv = StartEnv(cliFound: bool, spawn: IoResult, writeContext: IoResult, writeNewline: IoResult)

  datatype StartOutcome = StartOutcome(
    registry: Registry,
    result: Result<(), Errors.AppError>,
    emitted: seq<Emission>,
    loopSpawned: bool)

  /** The error text of the first failing resume-context write, if any. */
  function ContextWriteFailure(resumeContext: Option<string>, env: StartEnv): Option<string> {
    if resumeContext.None? then None
    else if env.writeContext.IoFailed? then Some("Failed to write context: " + env.writeContext.reason)
    else if env.writeNewline.IoFailed? then Some("Failed to write: " + env.writeNewline.reason)
    else None
  }

  /** The entry stored for a freshly spawned process. */
  function Spawned(resumeContext: Option<string>): Entry {
    Entry(Ready, true, true, if resumeContext.Some? then [resumeContext.value] else [])
  }

  /** `CliManager::start`. */
  function Start(reg: Registry, sessionId: string, resumeContext: Option<string>, env: StartEnv): (o: StartOutcome)
    // Already running: success, and nothing happens.
    ensures sessionId in reg ==> o == StartOutcome(reg, Ok(()), [], false)
    // Otherwise "starting" is announced before anything can fail.
    ensures sessionId !in reg ==> |o.emitted| >= 1 && o.emitted[0] == StatusEvent(sessionId, "starting")
    ensures sessionId !in reg ==>
      (o.result.Ok? <==> env.cliFound && env.spawn.IoOk? && ContextWriteFailure(resumeContext, env).None?)
    ensures sessionId !in reg && !env.cliFound ==> o.result == Err(Errors.ClaudeCliNotFoundError())
    ensures o.result.Err? ==>
      && o.registry == reg && !o.loopSpawned
      && o.emitted == [StatusEvent(sessionId, "starting")]
      && o.result.error.code in {Errors.ClaudeCliNotFound, Errors.ClaudeCliError}
    ensures sessionId !in reg && o.result.Ok? ==>
      && o.registry == reg[sessionId := Spawned(resumeContext)]
      && o.emitted == [StatusEvent(sessionId, "starting"), StatusEvent(sessionId, "ready")]
      && o.loopSpawned
  {
    if sessionId in reg then
      StartOutcome(reg, Ok(()), [], false)
    else
      var starting := [StatusEvent(sessionId, "starting")];
      if !env.cliFound then
        StartOutcome(reg, Err(Errors.ClaudeCliNotFoundError()), starting, false)
      else if env.spawn.IoFailed? then
        StartOutcome(reg, Err(Errors.ClaudeCliErr("Failed to spawn CLI: " + env.spawn.reason)), starting, false)
      else if ContextWriteFailure(resumeContext, env).Some? then
        StartOutcome(reg, Err(Errors.ClaudeCliErr(ContextWriteFailure(resumeContext, env).value)), starting, false)
      else
        StartOutcome(reg[sessionId := Spawned(resumeContext)], Ok(()),
                     starting + [StatusEvent(sessionId, "ready")], true)
  }

  /** `CliManager::stop`: the entry goes (its process is killed); absent ids are fine. */
  function Stop(reg: Registry, sessionId: string): (r: (Registry, Result<(), Errors.AppError>))
    ensures r.1.Ok?
    ensures r.0.Keys == reg.Keys - {sessionId}
    ensures forall k :: k in r.0 ==> r.0[k] == reg[k]
  {
    (reg - {sessionId}, Ok(()))
  }

  /** The pipe writes `send_message` performs: content, newline, flush. */
  datatype SendEnv = SendEnv(write: IoResult, newline: IoResult, flush: IoResult)

  function SendFailure(env: SendEnv): Option<string> {
    if env.write.IoFailed? then Some("Failed to write: " + env.write.reason)
    else if env.newline.IoFailed? then Some("Failed to write: " + env.newline.reason)
    else if env.flush.IoFailed? then Some("Failed to flush: " + env.flush.reason)
    else None
  }

  /** `CliManager::send_message`. */
  function SendMessage(reg: Registry, sessionId: string, content: string, env: SendEnv)
    : (r: (Registry, Result<(), Errors.AppError>))
    ensures sessionId !in reg ==> r == (reg, Err(Errors.ClaudeCliErr("CLI not running for session")))
    ensures sessionId in reg && !reg[sessionId].stdinAvailable ==>
      r == (reg, Err(Errors.ClaudeCliErr("CLI stdin not available")))
    ensures r.1.Ok? <==> sessionId in reg && reg[sessionId].stdinAvailable && SendFailure(env).None?
    ensures r.1.Err? ==> r.0 == reg && r.1.error.code == Errors.ClaudeCliError
    ensures r.1.Ok? ==> r.0.Keys == reg.Keys
    ensures r.1.Ok? ==> r.0[sessionId].status == Busy
    ensures r.1.Ok? ==> r.0[sessionId].sent == reg[sessionId].sent + [content]
    ensures r.1.Ok? ==> forall k :: k in reg && k != sessionId ==> r.0[k] == reg[k]
  {
    if sessionId !in reg then
      (reg, Err(Errors.ClaudeCliErr("CLI not running for session")))
    else if !reg[sessionId].stdinAvailable then
      (reg, Err(Errors.ClaudeCliErr("CLI stdin not available")))
    else if SendFailure(env).Some? then
      (reg, Err(Errors.ClaudeCliErr(SendFailure(env).value)))
    else
      var e := reg[sessionId];
      (reg[sessionId := e.(status := Busy, sent := e.sent + [content])], Ok(()))
  }

  /** `CliManager::cancel`: the interrupt is best effort and invisible here;
      the caller always gets success and the registry is untouched. */
  function Cancel(reg: Registry, sessionId: string): (r: (Registry, Result<(), Errors.AppError>))
    ensures r.0 == reg && r.1.Ok?
  {
    (reg, Ok(()))
  }

  /** `CliManager::get_status`. */
  function GetStatus(reg: Registry, sessionId: string): (s: ClaudeStatus)
    ensures sessionId !in reg ==> s == Stopped
    ensures sessionId in reg ==> s == reg[sessionId].status
  {
    if sessionId in reg then reg[sessionId].status else Stopped
  }

  /** `CliManager::is_running`. */
  predicate IsRunning(reg: Registry, sessionId: string) {
    sessionId in reg
  }

  // ---------------------------------------------------------------------
  // Properties relating the operations
  // ---------------------------------------------------------------------

  /** A start issued after an earlier start has returned is a no-op: it
      spawns no second process. Two starts that overlap can both pass the
      running check, which this sequential model does not cover. */
  lemma StartIdempotent(reg: Registry, sessionId: string, ctx: Option<string>, env: StartEnv,
                        ctx2: Option<string>, env2: StartEnv)
    requires Start(reg, sessionId, ctx, env).result.Ok?
    ensures var o := Start(reg, sessionId, ctx, env);
            var o2 := Start(o.registry, sessionId, ctx2, env2);
            && o2.registry == o.registry && o2.result.Ok? && o2.emitted == [] && !o2.loopSpawned
            && o.registry.Keys == reg.Keys + {sessionId}
  {
  }

  /** Stop after stop changes nothing more. */
  lemma StopIdempotent(reg: Registry, sessionId: string)
    ensures Stop(Stop(reg, sessionId).0, sessionId) == Stop(reg, sessionId)
  {
    assert reg - {sessionId} - {sessionId} == reg - {sessionId};
  }

  /** Every stored entry has a status a live process can have. The code only
      ever stores `Ready` and `Busy`. */
  predicate LiveStatuses(reg: Registry) {
    forall k :: k in reg ==> reg[k].status in {Ready, Busy}
  }

  /** With live statuses, `get_status` reports `Stopped` exactly for sessions
      that are not running. */
  lemma StoppedIffNotRunning(reg: Registry, sessionId: string)
    requires LiveStatuses(reg)
    ensures GetStatus(reg, sessionId) == Stopped <==> !IsRunning(reg, sessionId)
  {
  }

  /** The control operations keep statuses live. */
  lemma OperationsKeepLiveStatuses(reg: Registry, sessionId: string, ctx: Option<string>,
                                   startEnv: StartEnv, content: string, sendEnv: SendEnv)
    requires LiveStatuses(reg)
    ensures LiveStatuses(Start(reg, sessionId, ctx, startEnv).registry)
    ensures LiveStatuses(Stop(reg, sessionId).0)
    ensures LiveStatuses(SendMessage(reg, sessionId, content, sendEnv).0)
    ensures LiveStatuses(Cancel(reg, sessionId).0)
  {
  }

  /** What `get_status` reports right after each successful transition. */
  lemma StatusAfterTransitions(reg: Registry, sessionId: string, ctx: Option<string>,
                               startEnv: StartEnv, content: string, sendEnv: SendEnv)
    ensures sessionId !in reg && Start(reg, sessionId, ctx, startEnv).result.Ok? ==>
      GetStatus(Start(reg, sessionId, ctx, startEnv).registry, sessionId) == Ready
    ensures GetStatus(Stop(reg, sessionId).0, sessionId) == Stopped
    ensures SendMessage(reg, sessionId, content, sendEnv).1.Ok? ==>
      GetStatus(SendMessage(reg, sessionId, content, sendEnv).0, sessionId) == Busy
    ensures !IsRunning(Stop(reg, sessionId).0, sessionId)
  {
  }

  /** The resume context, when given, is the first line the process receives,
      ahead of every message sent afterwards. */
  lemma ResumeContextComesFirst(reg: Registry, sessionId: string, ctx: string, env: StartEnv,
                                messages: seq<string>, sendEnvs: seq<SendEnv>)
    requires sessionId !in reg
    requires Start(reg, sessionId, Some(ctx), env).result.Ok?
    requires |sendEnvs| == |messages|
    ensures var r := SendAll(Start(reg, sessionId, Some(ctx), env).registry, sessionId, messages, sendEnvs);
            sessionId in r && |r[sessionId].sent| >= 1 && r[sessionId].sent[0] == ctx
  {
    SendAllKeepsHead(Start(reg, sessionId, Some(ctx), env).registry, sessionId, messages, sendEnvs);
  }

  /** A burst of `send_message` calls, each with its own I/O outcome. */
  function SendAll(reg: Registry, sessionId: string, messages: seq<string>, envs: seq<SendEnv>): Registry
    requires |envs| == |messages|
    decreases |messages|
  {
    if messages == [] then reg
    else SendAll(SendMessage(reg, sessionId, messages[0], envs[0]).0, sessionId, messages[1..], envs[1..])
  }

  lemma {:induction false} SendAllKeepsHead(reg: Registry, sessionId: string, messages: seq<string>, envs: seq<SendEnv>)
    requires |envs| == |messages|
    requires sessionId in reg && |reg[sessionId].sent| >= 1
    ensures var r := SendAll(reg, sessionId, messages, envs);
            sessionId in r && |r[sessionId].sent| >= 1 && r[sessionId].sent[0] == reg[sessionId].sent[0]
    decreases |messages|
  {
    if messages != [] {
      SendAllKeepsHead(SendMessage(reg, sessionId, messages[0], envs[0]).0, sessionId, messages[1..], envs[1..]);
    }
  }
}
