/** The session commands (commands/session.rs) over an explicit store: the
    `sessions` table as a map, the `messages` table as a sequence in creation
    order (the order `ORDER BY created_at` yields when the clock never goes
    back). Fresh ids, the clock and the directory checks are parameters; the
    CLI side is the registry of the `Registry` module. */
module Sessions {
  import opened Base
  import opened Text
  import opened Registry
  import Errors
  import Json

  function Min(a: int, b: int): int {
    if a <= b then a else b
  }

  // ---------------------------------------------------------------------
  // Byte-budget truncation (`&s[..n]` plus a marker)
  // ---------------------------------------------------------------------

  /** `k` characters of `s` are the longest prefix of `s` within `n` bytes. */
  ghost predicate LongestFit(s: string, k: nat, n: nat) {
    && k <= |s|
    && ByteLen(s[..k]) <= n
    && (k < |s| ==> ByteLen(s[..k + 1]) > n)
  }

  /** The truncation as written: text over `n` bytes becomes `&s[..n]` plus
      `marker`; `None` stands for the panic when byte `n` falls inside a character. */
  function ClipAsWritten(s: string, n: nat, marker: string): Option<string> {
    if ByteLen(s) > n then
      match SliceTo(s, n)
      case Some(p) => Some(p + marker)
      case None => None
    else
      Some(s)
  }

  /** The written truncation keeps short text, panics exactly when byte `n`
      of long text is not a character boundary, and otherwise cuts there. */
  lemma ClipAsWrittenSpec(s: string, n: nat, marker: string)
    ensures ByteLen(s) <= n ==> ClipAsWritten(s, n, marker) == Some(s)
    ensures ClipAsWritten(s, n, marker).None? <==>
      ByteLen(s) > n && forall k :: 0 <= k <= |s| ==> ByteLen(s[..k]) != n
    ensures ClipAsWritten(s, n, marker).Some? && ByteLen(s) > n ==>
      exists k :: 0 <= k <= |s| && ClipAsWritten(s, n, marker).value == s[..k] + marker && ByteLen(s[..k]) == n
  {
    var p := SliceTo(s, n);
    if ByteLen(s) > n && p.Some? {
      assert p.value == s[..|p.value|];
    }
  }

  /** The truncation as evidently intended: text over `n` bytes keeps the
      longest run of whole characters that fits in `n` bytes, plus `marker`. */
  function Clip(s: string, n: nat, marker: string): string {
    if ByteLen(s) > n then s[..FloorBoundary(s, n)] + marker else s
  }

  /** The corrected truncation never fails: short text is kept, long text
      becomes its longest whole-character prefix within `n` bytes plus the
      marker, so the result never exceeds `n` bytes plus the marker's. */
  lemma ClipSpec(s: string, n: nat, marker: string)
    ensures ByteLen(s) <= n ==> Clip(s, n, marker) == s
    ensures ByteLen(s) > n ==> exists k: nat :: LongestFit(s, k, n) && k < |s| && Clip(s, n, marker) == s[..k] + marker
    ensures ByteLen(Clip(s, n, marker)) <= n + ByteLen(marker)
  {
    if ByteLen(s) > n {
      var k := FloorBoundary(s, n);
      assert s[..|s|] == s;
      assert LongestFit(s, k, n) && k < |s|;
      ByteLenAppend(s[..k], marker);
    } else {
      ByteLenAppend(s, marker);
    }
  }

  /** Wherever the written code does not panic, the corrected truncation gives
      the same text: byte `n` then is a boundary and the longest fit ends there. */
  lemma ClipAgreesWithAsWritten(s: string, n: nat, marker: string)
    ensures ClipAsWritten(s, n, marker).Some? ==> ClipAsWritten(s, n, marker).value == Clip(s, n, marker)
  {
    var p := SliceTo(s, n);
    if ByteLen(s) > n && p.Some? {
      var k := |p.value|;
      assert p.value == s[..k];
      var f := FloorBoundary(s, n);
      if f < k {
        ByteLenPrefixMonotone(s, f + 1, k);
      } else if k < f {
        assert s[..k + 1] == s[..k] + [s[k]];
        ByteLenSnoc(s[..k], s[k]);
        ByteLenPrefixMonotone(s, k + 1, f);
      }
    }
  }

  /** Byte `n` inside the character `c` that follows `a`: the written code
      panics, and the corrected one keeps exactly `a`. */
  lemma ClipInsideChar(a: string, c: char, t: string, n: nat, marker: string)
    requires ByteLen(a) < n < ByteLen(a) + Utf8Width(c)
    ensures ClipAsWritten(a + [c] + t, n, marker).None?
    ensures Clip(a + [c] + t, n, marker) == a + marker
  {
    var s := a + [c] + t;
    assert s[..|a|] == a;
    assert s[..|a| + 1] == a + [c];
    ByteLenSnoc(a, c);
    ByteLenAppend(a + [c], t);
    forall k | 0 <= k <= |s| ensures ByteLen(s[..k]) != n {
      if k <= |a| {
        ByteLenPrefixMonotone(s, k, |a|);
      } else {
        ByteLenPrefixMonotone(s, |a| + 1, k);
      }
    }
    var f := FloorBoundary(s, n);
    if f < |a| {
      ByteLenPrefixMonotone(s, f + 1, |a|);
    } else if f > |a| {
      ByteLenPrefixMonotone(s, |a| + 1, f);
    }
  }

  // ---------------------------------------------------------------------
  // Resume context (session_start_cli)
  // ---------------------------------------------------------------------

  const ResumeHeader: string := "You are resuming a previous conversation. Here is the context:\n\n"
  const ResumeFooter: string := "Continue the conversation from where it left off.\n"
  const ResumeClipBytes: nat := 500
  const ResumeMarker: string := "... [truncated]"
  /** The query's `LIMIT 20`. */
  const RecentLimit: nat := 20

  /** One row of the resume query: `(role, content)`. */
  datatype ContextRow = ContextRow(role: string, content: string)

  /** The speaker label: "User" for the role "user", "Assistant" for every other role. */
  function Label(role: string): (l: string)
    ensures l == "User" <==> role == "user"
    ensures l == "User" || l == "Assistant"
  {
    if role == "user" then "User" else "Assistant"
  }

  /** The block of one message: `"{label}: {truncated}\n\n"`. */
  function Block(row: ContextRow): string {
    Label(row.role) + ": " + Clip(row.content, ResumeClipBytes, ResumeMarker) + "\n\n"
  }

  /** The blocks of `rows`, in the order given. */
  function Blocks(rows: seq<ContextRow>): string {
    if rows == [] then "" else Block(rows[0]) + Blocks(rows[1..])
  }

  lemma {:induction false} BlocksSnoc(rows: seq<ContextRow>, row: ContextRow)
    ensures Blocks(rows + [row]) == Blocks(rows) + Block(row)
  {
    if rows == [] {
      assert rows + [row] == [row];
      assert [row][1..] == [];
    } else {
      assert (rows + [row])[1..] == rows[1..] + [row];
      BlocksSnoc(rows[1..], row);
    }
  }

  function Reverse<T>(s: seq<T>): (r: seq<T>)
    ensures |r| == |s|
    ensures forall i :: 0 <= i < |s| ==> r[i] == s[|s| - 1 - i]
  {
    if s == [] then [] else Reverse(s[1..]) + [s[0]]
  }

  lemma ReverseStep<T>(s: seq<T>, i: nat)
    requires i < |s|
    ensures Reverse(s[i..]) == Reverse(s[i + 1..]) + [s[i]]
  {
    assert s[i..][1..] == s[i + 1..];
  }

  lemma ReverseReverse<T>(s: seq<T>)
    ensures Reverse(Reverse(s)) == s
  {
    assert forall i :: 0 <= i < |s| ==> Reverse(Reverse(s))[i] == s[i];
  }

  /** The resume context for rows given newest first, as `session_start_cli`
      means it: nothing unless resuming was asked for and there is a message. */
  function ResumeContext(resume: Option<bool>, newestFirst: seq<ContextRow>): (r: Option<string>)
    ensures r.Some? <==> resume == Some(true) && newestFirst != []
  {
    if resume.GetOr(false) && newestFirst != [] then
      Some(ResumeHeader + Blocks(Reverse(newestFirst)) + ResumeFooter)
    else
      None
  }

  /** The builder's loop: walk the rows from the oldest (last) to the newest
      (first), appending one block each. */
  method BuildResumeContext(resume: Option<bool>, newestFirst: seq<ContextRow>) returns (ctx: Option<string>)
    ensures ctx == ResumeContext(resume, newestFirst)
  {
    if !resume.GetOr(false) || newestFirst == [] {
      return None;
    }
    var blocks := "";
    var i := |newestFirst|;
    assert newestFirst[i..] == [];
    while i > 0
      invariant 0 <= i <= |newestFirst|
      invariant blocks == Blocks(Reverse(newestFirst[i..]))
    {
      i := i - 1;
      ReverseStep(newestFirst, i);
      BlocksSnoc(Reverse(newestFirst[i + 1..]), newestFirst[i]);
      blocks := blocks + Block(newestFirst[i]);
    }
    assert newestFirst[0..] == newestFirst;
    ctx := Some(ResumeHeader + blocks + ResumeFooter);
  }

  /** The resume query: a session's last (at most) twenty messages, newest first. */
  function RecentNewestFirst(history: seq<ContextRow>): (r: seq<ContextRow>)
    ensures |r| == Min(RecentLimit, |history|)
    ensures forall i :: 0 <= i < |r| ==> r[i] == history[|history| - 1 - i]
  {
    Reverse(history[|history| - Min(RecentLimit, |history|)..])
  }

  /** The context lists the last twenty messages of the history, oldest first. */
  lemma ResumeCoversRecentHistory(history: seq<ContextRow>)
    requires history != []
    ensures ResumeContext(Some(true), RecentNewestFirst(history))
         == Some(ResumeHeader + Blocks(history[|history| - Min(RecentLimit, |history|)..]) + ResumeFooter)
  {
    ReverseReverse(history[|history| - Min(RecentLimit, |history|)..]);
  }

  /** A message whose byte 500 falls inside "é" crashes the written builder;
      the corrected one keeps the 499 bytes before it. */
  lemma ResumeClipPanicExample()
    ensures var a := seq(499, _ => 'a');
            && ByteLen(a + ['\U{E9}']) == 501
            && ClipAsWritten(a + ['\U{E9}'], ResumeClipBytes, ResumeMarker).None?
            && Clip(a + ['\U{E9}'], ResumeClipBytes, ResumeMarker) == a + ResumeMarker
  {
    var a := seq(499, _ => 'a');
    ByteLenAscii(a);
    ByteLenSnoc(a, '\U{E9}');
    assert a + ['\U{E9}'] + [] == a + ['\U{E9}'];
    ClipInsideChar(a, '\U{E9}', [], ResumeClipBytes, ResumeMarker);
  }

  // ---------------------------------------------------------------------
  // The store
  // ---------------------------------------------------------------------

  datatype Session = Session(
    id: string,
    title: string,
    workingDirectory: string,
    projectId: Option<string>,
    createdAt: string,
    updatedAt: string)

  datatype Message = Message(
    id: string,
    sessionId: string,
    role: string,
    content: string,
    toolUsage: Option<Json.Json>,
    createdAt: string)

  datatype Store = Store(sessions: map<string, Session>, messages: seq<Message>)

  /** A command's effect on the store and what it returns. */
  datatype Reply<+T> = Reply(store: Store, result: Result<T, Errors.AppError>)

  /** Every stored message belongs to a stored session (the foreign key). */
  ghost predicate Consistent(st: Store) {
    forall i :: 0 <= i < |st.messages| ==> st.messages[i].sessionId in st.sessions
  }

  /** The elements of `s` that `keep` accepts, in order (a `WHERE` clause). */
  function Filter<T(!new)>(s: seq<T>, keep: T -> bool): (r: seq<T>)
    ensures |r| <= |s|
    ensures forall x :: x in r <==> x in s && keep(x)
  {
    if s == [] then []
    else (if keep(s[0]) then [s[0]] else []) + Filter(s[1..], keep)
  }

  /** Filtering distributes over concatenation: rows keep their order and
      their multiplicity, and a row appended later is listed later. */
  lemma {:induction false} FilterAppend<T(!new)>(a: seq<T>, b: seq<T>, keep: T -> bool)
    ensures Filter(a + b, keep) == Filter(a, keep) + Filter(b, keep)
  {
    if a == [] {
      assert a + b == b;
    } else {
      assert (a + b)[1..] == a[1..] + b;
      FilterAppend(a[1..], b, keep);
    }
  }

  function InSession(sessionId: string): Message -> bool {
    (m: Message) => m.sessionId == sessionId
  }

  /** A session's messages in creation order. */
  function SessionMessages(msgs: seq<Message>, sessionId: string): (r: seq<Message>)
    ensures |r| <= |msgs|
    ensures forall m :: m in r <==> m in msgs && m.sessionId == sessionId
    ensures (forall i :: 0 <= i < |msgs| ==> msgs[i].sessionId != sessionId) ==> r == []
  {
    var r := Filter(msgs, InSession(sessionId));
    assert r != [] ==> r[0] in msgs;
    r
  }

  /** A message stored later comes later in its session's list, and no other
      session's list changes. */
  lemma SessionMessagesAppend(msgs: seq<Message>, m: Message, sessionId: string)
    ensures SessionMessages(msgs + [m], sessionId)
         == SessionMessages(msgs, sessionId) + (if m.sessionId == sessionId then [m] else [])
  {
    FilterAppend(msgs, [m], InSession(sessionId));
  }

  function ContextRows(msgs: seq<Message>): (r: seq<ContextRow>)
    ensures |r| == |msgs|
    ensures forall i :: 0 <= i < |msgs| ==> r[i] == ContextRow(msgs[i].role, msgs[i].content)
  {
    seq(|msgs|, i requires 0 <= i < |msgs| => ContextRow(msgs[i].role, msgs[i].content))
  }

  /** Position of the message with id `id`, if any. */
  function IndexOf(msgs: seq<Message>, id: string): (r: Option<nat>)
    ensures r.Some? ==> r.value < |msgs| && msgs[r.value].id == id
    ensures r.Some? ==> forall j :: 0 <= j < r.value ==> msgs[j].id != id
    ensures r.None? ==> forall j :: 0 <= j < |msgs| ==> msgs[j].id != id
  {
    if msgs == [] then None
    else if msgs[0].id == id then Some(0)
    else
      var rest := IndexOf(msgs[1..], id);
      if rest.Some? then Some(rest.value + 1) else None
  }

  /** `UPDATE sessions SET updated_at = ? WHERE id = ?`: no row, no change. */
  function Touch(sessions: map<string, Session>, sessionId: string, now: string): (r: map<string, Session>)
    ensures r.Keys == sessions.Keys
    ensures sessionId in r ==> r[sessionId] == sessions[sessionId].(updatedAt := now)
    ensures forall k :: k in r && k != sessionId ==> r[k] == sessions[k]
  {
    if sessionId in sessions then sessions[sessionId := sessions[sessionId].(updatedAt := now)] else sessions
  }

  // ---------------------------------------------------------------------
  // Commands
  // ---------------------------------------------------------------------

  const DefaultTitle: string := "New Session"
  const MaxTitleBytes: nat := 100

  datatype CreateRequest = CreateRequest(workingDirectory: string, projectId: Option<string>, title: Option<string>)

  datatype SessionResponse = SessionResponse(
    id: string,
    title: string,
    workingDirectory: string,
    projectId: Option<string>,
    claudeStatus: string,
    createdAt: string,
    updatedAt: string)

  function Respond(s: Session, claudeStatus: string): SessionResponse {
    SessionResponse(s.id, s.title, s.workingDirectory, s.projectId, claudeStatus, s.createdAt, s.updatedAt)
  }

  /** `session_create` with the fresh id `id` and the time `now`. */
  function SessionCreate(st: Store, req: CreateRequest, dir: DirFacts, id: string, now: string)
    : (r: Reply<SessionResponse>)
    ensures !dir.isAbsolute ==>
      r == Reply(st, Err(Errors.InvalidInputError("Working directory must be an absolute path")))
    ensures dir.isAbsolute && !dir.present ==>
      r == Reply(st, Err(Errors.DirectoryNotFoundError(req.workingDirectory)))
    ensures r.result.Ok? <==> dir.isAbsolute && dir.present && id !in st.sessions
    ensures r.result.Err? ==> r.store == st
    ensures r.result.Ok? ==>
      && r.store.messages == st.messages
      && r.store.sessions.Keys == st.sessions.Keys + {id}
      && (forall k :: k in st.sessions ==> r.store.sessions[k] == st.sessions[k])
      && r.result.value == Respond(r.store.sessions[id], "stopped")
      && r.result.value.title == (if req.title.Some? then req.title.value else DefaultTitle)
      && r.result.value.workingDirectory == req.workingDirectory
      && r.result.value.projectId == req.projectId
      && r.result.value.createdAt == r.result.value.updatedAt == now
  {
    if !dir.isAbsolute then
      Reply(st, Err(Errors.InvalidInputError("Working directory must be an absolute path")))
    else if !dir.present then
      Reply(st, Err(Errors.DirectoryNotFoundError(req.workingDirectory)))
    else if id in st.sessions then
      Reply(st, Err(Errors.UniqueViolation("sessions.id")))
    else
      var s := Session(id, req.title.GetOr(DefaultTitle), req.workingDirectory, req.projectId, now, now);
      Reply(st.(sessions := st.sessions[id := s]), Ok(Respond(s, "stopped")))
  }

  /** `session_load`: the session, its messages oldest first, and the CLI
      status under its lower-case name. */
  function SessionLoad(st: Store, reg: Registry, sessionId: string)
    : (r: Result<(SessionResponse, seq<Message>), Errors.AppError>)
    ensures r.Err? <==> sessionId !in st.sessions
    ensures r.Err? ==> r.error == Errors.DatabaseNotFoundError("Session", sessionId)
    ensures r.Ok? ==> r.value.0 == Respond(st.sessions[sessionId], StatusName(GetStatus(reg, sessionId)))
    ensures r.Ok? ==> forall m :: m in r.value.1 <==> m in st.messages && m.sessionId == sessionId
    ensures r.Ok? ==> r.value.1 == SessionMessages(st.messages, sessionId)
  {
    if sessionId !in st.sessions then Err(Errors.DatabaseNotFoundError("Session", sessionId))
    else
      Ok((Respond(st.sessions[sessionId], StatusName(GetStatus(reg, sessionId))),
          SessionMessages(st.messages, sessionId)))
  }

  /** A session just created loads back as created, with no messages, while no CLI runs for it. */
  lemma CreateThenLoad(st: Store, reg: Registry, req: CreateRequest, dir: DirFacts, id: string, now: string)
    requires Consistent(st)
    requires SessionCreate(st, req, dir, id, now).result.Ok?
    requires id !in reg
    ensures var c := SessionCreate(st, req, dir, id, now);
            SessionLoad(c.store, reg, id) == Ok((c.result.value, []))
  {
    NoMessagesForUnknownSession(st, id);
  }

  lemma NoMessagesForUnknownSession(st: Store, sessionId: string)
    requires Consistent(st) && sessionId !in st.sessions
    ensures SessionMessages(st.messages, sessionId) == []
  {
    assert forall i :: 0 <= i < |st.messages| ==> st.messages[i].sessionId != sessionId;
  }

  /** `session_start_cli`: look the session up, build the resume context from
      its last twenty messages, and start the CLI. */
  function SessionStartCli(st: Store, reg: Registry, sessionId: string, resume: Option<bool>, env: StartEnv)
    : (o: StartOutcome)
    ensures sessionId !in st.sessions ==>
      o == StartOutcome(reg, Err(Errors.DatabaseNotFoundError("Session", sessionId)), [], false)
    ensures sessionId in st.sessions && resume != Some(true) ==> o == Start(reg, sessionId, None, env)
  {
    if sessionId !in st.sessions then
      StartOutcome(reg, Err(Errors.DatabaseNotFoundError("Session", sessionId)), [], false)
    else
      var history := ContextRows(SessionMessages(st.messages, sessionId));
      Start(reg, sessionId, ResumeContext(resume, RecentNewestFirst(history)), env)
  }

  /** Resuming a session with messages hands the CLI, before anything else,
      the context made of the session's last twenty messages in order. */
  lemma StartCliDeliversRecentHistory(st: Store, reg: Registry, sessionId: string, env: StartEnv)
    requires sessionId in st.sessions && sessionId !in reg
    requires SessionMessages(st.messages, sessionId) != []
    requires SessionStartCli(st, reg, sessionId, Some(true), env).result.Ok?
    ensures var history := ContextRows(SessionMessages(st.messages, sessionId));
            var recent := history[|history| - Min(RecentLimit, |history|)..];
            SessionStartCli(st, reg, sessionId, Some(true), env).registry[sessionId].sent
              == [ResumeHeader + Blocks(recent) + ResumeFooter]
  {
    var history := ContextRows(SessionMessages(st.messages, sessionId));
    ResumeCoversRecentHistory(history);
  }

  /** The outcome of `session_send_message`: store, registry, and the new message's id. */
  datatype SendReply = SendReply(store: Store, registry: Registry, result: Result<string, Errors.AppError>)

  /** `session_send_message` with the fresh message id `messageId`: validate,
      store the user message, touch the session, then write to the CLI. */
  function SessionSendMessage(st: Store, reg: Registry, sessionId: string, content: string,
                              messageId: string, now: string, env: SendEnv): (r: SendReply)
    ensures Trim(content) == [] ==>
      r == SendReply(st, reg, Err(Errors.InvalidInputError("Message content cannot be empty")))
    ensures Trim(content) != [] && !IsRunning(reg, sessionId) ==>
      r == SendReply(st, reg, Err(Errors.ClaudeCliErr("CLI is not running for this session")))
    ensures r.result.Ok? <==>
      && Trim(content) != [] && IsRunning(reg, sessionId) && IndexOf(st.messages, messageId).None?
      && reg[sessionId].stdinAvailable && SendFailure(env).None?
    ensures r.result.Ok? ==> r.result.value == messageId
    ensures r.result.Ok? ==> sessionId in r.registry && r.registry[sessionId].sent == reg[sessionId].sent + [content]
    // Once the checks pass, the message is stored even when the CLI write fails.
    ensures Trim(content) != [] && IsRunning(reg, sessionId) && IndexOf(st.messages, messageId).None? ==>
      && r.store.messages == st.messages + [Message(messageId, sessionId, "user", content, None, now)]
      && r.store.sessions == Touch(st.sessions, sessionId, now)
  {
    if Trim(content) == [] then
      SendReply(st, reg, Err(Errors.InvalidInputError("Message content cannot be empty")))
    else if !IsRunning(reg, sessionId) then
      SendReply(st, reg, Err(Errors.ClaudeCliErr("CLI is not running for this session")))
    else if IndexOf(st.messages, messageId).Some? then
      SendReply(st, reg, Err(Errors.UniqueViolation("messages.id")))
    else
      var stored := Store(Touch(st.sessions, sessionId, now),
                          st.messages + [Message(messageId, sessionId, "user", content, None, now)]);
      var sent := SendMessage(reg, sessionId, content, env);
      if sent.1.Err? then SendReply(stored, sent.0, Err(sent.1.error))
      else SendReply(stored, sent.0, Ok(messageId))
  }

  /** The outcome of `session_delete`. */
  datatype DeleteReply = DeleteReply(store: Store, registry: Registry, result: Result<(), Errors.AppError>)

  /** `session_delete`: stop the CLI whatever happens next, then delete the
      row; the session's messages go with it (`ON DELETE CASCADE`). */
  function SessionDelete(st: Store, reg: Registry, sessionId: string): (r: DeleteReply)
    ensures r.registry.Keys == reg.Keys - {sessionId}
    ensures forall k :: k in r.registry ==> r.registry[k] == reg[k]
    ensures r.result.Ok? <==> sessionId in st.sessions
    ensures r.result.Err? ==> r.store == st && r.result.error == Errors.DatabaseNotFoundError("Session", sessionId)
    ensures r.store.sessions.Keys == st.sessions.Keys - {sessionId}
    ensures forall k :: k in r.store.sessions ==> r.store.sessions[k] == st.sessions[k]
    ensures r.result.Ok? ==> forall m :: m in r.store.messages <==> m in st.messages && m.sessionId != sessionId
  {
    var stopped := Stop(reg, sessionId).0;
    if sessionId !in st.sessions then
      DeleteReply(st, stopped, Err(Errors.DatabaseNotFoundError("Session", sessionId)))
    else
      var others := Filter(st.messages, (m: Message) => m.sessionId != sessionId);
      DeleteReply(Store(st.sessions - {sessionId}, others), stopped, Ok(()))
  }

  /** Deleting keeps the store consistent: no message outlives its session. */
  lemma DeleteKeepsConsistent(st: Store, reg: Registry, sessionId: string)
    requires Consistent(st)
    ensures Consistent(SessionDelete(st, reg, sessionId).store)
  {
    var r := SessionDelete(st, reg, sessionId);
    if r.result.Ok? {
      forall i | 0 <= i < |r.store.messages| ensures r.store.messages[i].sessionId in r.store.sessions {
        var m := r.store.messages[i];
        assert m in st.messages;
        var j :| 0 <= j < |st.messages| && st.messages[j] == m;
      }
    }
  }

  /** `session_rename`: the blank check comes before the length check, and
      the length is counted in UTF-8 bytes. */
  function SessionRename(st: Store, sessionId: string, title: string, now: string): (r: Reply<()>)
    ensures Trim(title) == [] ==> r == Reply(st, Err(Errors.InvalidInputError("Title cannot be empty")))
    ensures Trim(title) != [] && ByteLen(title) > MaxTitleBytes ==>
      r == Reply(st, Err(Errors.InvalidInputError("Title must be 100 characters or less")))
    ensures r.result.Ok? <==> Trim(title) != [] && ByteLen(title) <= MaxTitleBytes && sessionId in st.sessions
    ensures r.result.Err? ==> r.store == st
    ensures Trim(title) != [] && ByteLen(title) <= MaxTitleBytes && sessionId !in st.sessions ==>
      r.result == Err(Errors.DatabaseNotFoundError("Session", sessionId))
    ensures r.result.Ok? ==>
      && r.store.messages == st.messages
      && r.store.sessions.Keys == st.sessions.Keys
      && r.store.sessions[sessionId] == st.sessions[sessionId].(title := title, updatedAt := now)
      && (forall k :: k in st.sessions && k != sessionId ==> r.store.sessions[k] == st.sessions[k])
  {
    if Trim(title) == [] then
      Reply(st, Err(Errors.InvalidInputError("Title cannot be empty")))
    else if ByteLen(title) > MaxTitleBytes then
      Reply(st, Err(Errors.InvalidInputError("Title must be 100 characters or less")))
    else if sessionId !in st.sessions then
      Reply(st, Err(Errors.DatabaseNotFoundError("Session", sessionId)))
    else
      var s := st.sessions[sessionId].(title := title, updatedAt := now);
      Reply(st.(sessions := st.sessions[sessionId := s]), Ok(()))
  }

  /** The upsert of `session_save_message`: a new id is appended; an existing
      one gets the new content and tool usage and keeps everything else. */
  function Upsert(msgs: seq<Message>, m: Message): (r: seq<Message>)
    ensures IndexOf(msgs, m.id).None? ==> r == msgs + [m]
    ensures IndexOf(msgs, m.id).Some? ==>
      var i := IndexOf(msgs, m.id).value;
      && |r| == |msgs|
      && r[i] == msgs[i].(content := m.content, toolUsage := m.toolUsage)
      && (forall j :: 0 <= j < |msgs| && j != i ==> r[j] == msgs[j])
  {
    match IndexOf(msgs, m.id)
    case None => msgs + [m]
    case Some(i) => msgs[i := msgs[i].(content := m.content, toolUsage := m.toolUsage)]
  }

  /** The roles the store accepts. */
  predicate ValidRole(role: string) {
    role == "user" || role == "assistant"
  }

  /** `session_save_message`. */
  function SessionSaveMessage(st: Store, sessionId: string, messageId: string, role: string, content: string,
                              toolUsage: Option<Json.Json>, now: string): (r: Reply<()>)
    ensures !ValidRole(role) ==> r == Reply(st, Err(Errors.InvalidInputError("Role must be 'user' or 'assistant'")))
    ensures r.result.Ok? <==> ValidRole(role)
    ensures r.result.Ok? ==> r.store.sessions == Touch(st.sessions, sessionId, now)
    ensures r.result.Ok? ==> IndexOf(r.store.messages, messageId).Some?
    ensures r.result.Ok? ==>
      r.store.messages == Upsert(st.messages, Message(messageId, sessionId, role, content, toolUsage, now))
    ensures r.result.Ok? && IndexOf(st.messages, messageId).None? ==>
      r.store.messages == st.messages + [Message(messageId, sessionId, role, content, toolUsage, now)]
  {
    if !ValidRole(role) then
      Reply(st, Err(Errors.InvalidInputError("Role must be 'user' or 'assistant'")))
    else
      var msgs := Upsert(st.messages, Message(messageId, sessionId, role, content, toolUsage, now));
      assert IndexOf(st.messages, messageId).None? ==> msgs[|st.messages|].id == messageId;
      IndexFindsAny(msgs, messageId, if IndexOf(st.messages, messageId).Some? then IndexOf(st.messages, messageId).value else |st.messages|);
      Reply(Store(Touch(st.sessions, sessionId, now), msgs), Ok(()))
  }

  /** A message saved under a new id is loaded back after every earlier
      message of its session. */
  lemma SaveThenLoadAppends(st: Store, reg: Registry, sessionId: string, messageId: string, role: string,
                            content: string, toolUsage: Option<Json.Json>, now: string)
    requires ValidRole(role) && sessionId in st.sessions
    requires IndexOf(st.messages, messageId).None?
    ensures var saved := SessionSaveMessage(st, sessionId, messageId, role, content, toolUsage, now).store;
            var before := SessionLoad(st, reg, sessionId);
            var after := SessionLoad(saved, reg, sessionId);
            && before.Ok? && after.Ok?
            && after.value.1 == before.value.1 + [Message(messageId, sessionId, role, content, toolUsage, now)]
  {
    SessionMessagesAppend(st.messages, Message(messageId, sessionId, role, content, toolUsage, now), sessionId);
  }

  lemma {:induction false} IndexFindsAny(msgs: seq<Message>, id: string, i: nat)
    requires i < |msgs| && msgs[i].id == id
    ensures IndexOf(msgs, id).Some? && IndexOf(msgs, id).value <= i
  {
    if msgs[0].id != id {
      assert msgs[1..][i - 1] == msgs[i];
      IndexFindsAny(msgs[1..], id, i - 1);
    }
  }

  /** Saving again under an existing id replaces content and tool usage only:
      the message keeps its session, its role and its creation time. */
  lemma SaveKeepsOwnerRoleAndTime(st: Store, sessionId: string, messageId: string, role: string, content: string,
                                  toolUsage: Option<Json.Json>, now: string)
    requires ValidRole(role)
    requires IndexOf(st.messages, messageId).Some?
    ensures var i := IndexOf(st.messages, messageId).value;
            var r := SessionSaveMessage(st, sessionId, messageId, role, content, toolUsage, now);
            && |r.store.messages| == |st.messages|
            && r.store.messages[i] == st.messages[i].(content := content, toolUsage := toolUsage)
  {
  }

  /** Saving the same message twice has the effect of saving it once. */
  lemma SaveIdempotent(st: Store, sessionId: string, messageId: string, role: string, content: string,
                       toolUsage: Option<Json.Json>, now: string)
    ensures var once := SessionSaveMessage(st, sessionId, messageId, role, content, toolUsage, now);
            SessionSaveMessage(once.store, sessionId, messageId, role, content, toolUsage, now) == once
  {
    var once := SessionSaveMessage(st, sessionId, messageId, role, content, toolUsage, now);
    if ValidRole(role) {
      var m := Message(messageId, sessionId, role, content, toolUsage, now);
      var msgs := once.store.messages;
      var i := IndexOf(msgs, messageId).value;
      match IndexOf(st.messages, messageId)
      case None =>
        IndexFindsAny(msgs, messageId, |st.messages|);
        assert i == |st.messages|;
        assert Upsert(msgs, m) == msgs;
      case Some(j) =>
        IndexFindsAny(msgs, messageId, j);
        assert i == j;
        assert Upsert(msgs, m) == msgs;
      assert Touch(once.store.sessions, sessionId, now) == once.store.sessions;
    }
  }

  // ---------------------------------------------------------------------
  // Listing (session_list)
  // ---------------------------------------------------------------------

  /** A Rust `i32`. */
  type I32 = x: int | -0x8000_0000 <= x < 0x8000_0000

  const DefaultListLimit: nat := 50
  const MaxListLimit: nat := 200
  const PreviewBytes: nat := 100
  const PreviewMarker: string := "..."

  /** SQLite's `LIMIT ? OFFSET ?`: a negative offset counts as zero, and a
      negative limit means no upper bound. */
  function PageStart(count: nat, offset: int): (s: nat)
    ensures s <= count
  {
    if offset < 0 then 0 else Min(offset, count)
  }

  function SqlPage<T>(rows: seq<T>, limit: int, offset: int): (r: seq<T>)
    ensures PageStart(|rows|, offset) + |r| <= |rows|
    ensures forall i :: 0 <= i < |r| ==> r[i] == rows[PageStart(|rows|, offset) + i]
    ensures limit >= 0 ==> |r| == Min(limit, |rows| - PageStart(|rows|, offset))
    ensures limit < 0 ==> |r| == |rows| - PageStart(|rows|, offset)
  {
    var start := PageStart(|rows|, offset);
    if limit < 0 then rows[start..] else rows[start..start + Min(limit, |rows| - start)]
  }

  /** The limit as written: `limit.unwrap_or(50).min(200)`, which caps from above only. */
  function ListLimitAsWritten(limit: Option<I32>): (l: int)
    ensures l <= MaxListLimit
    ensures limit.None? ==> l == DefaultListLimit
    ensures limit.Some? ==> l == Min(limit.value, MaxListLimit)
  {
    Min(limit.GetOr(DefaultListLimit as I32), MaxListLimit)
  }

  /** A negative limit passes the cap and SQLite then returns every row. */
  lemma NegativeLimitListsEverything(rows: seq<Session>)
    ensures |SqlPage(rows, ListLimitAsWritten(Some(-1)), 0)| == |rows|
  {
  }

  /** The limit as evidently intended: the default 50, clamped to 0..200. */
  function ListLimit(limit: Option<I32>): (l: nat)
    ensures l <= MaxListLimit
    ensures limit.None? ==> l == DefaultListLimit
    ensures limit.Some? && 0 <= limit.value ==> l == Min(limit.value, MaxListLimit)
    ensures limit.Some? && limit.value < 0 ==> l == 0
  {
    var l := ListLimitAsWritten(limit);
    if l < 0 then 0 else l
  }

  /** The corrected limit agrees with the written one for every non-negative request. */
  lemma ListLimitAgrees(limit: Option<I32>)
    ensures (limit.None? || limit.value >= 0) ==> ListLimit(limit) == ListLimitAsWritten(limit)
  {
  }

  /** The preview as written panics on "é" straddling byte 100. */
  lemma PreviewPanicExample()
    ensures var a := seq(99, _ => 'a');
            && ClipAsWritten(a + ['\U{E9}'], PreviewBytes, PreviewMarker).None?
            && Clip(a + ['\U{E9}'], PreviewBytes, PreviewMarker) == a + PreviewMarker
  {
    var a := seq(99, _ => 'a');
    ByteLenAscii(a);
    assert a + ['\U{E9}'] + [] == a + ['\U{E9}'];
    ClipInsideChar(a, '\U{E9}', [], PreviewBytes, PreviewMarker);
  }

  datatype Summary = Summary(
    id: string,
    title: string,
    workingDirectory: string,
    projectId: Option<string>,
    projectName: Option<string>,
    messageCount: nat,
    lastMessage: Option<string>,
    createdAt: string,
    updatedAt: string)

  /** One listed row: message count, and the newest message as a preview. */
  function Summarize(s: Session, msgs: seq<Message>): (r: Summary)
    ensures r.id == s.id && r.title == s.title && r.projectId == s.projectId && r.projectName.None?
    ensures r.messageCount == |SessionMessages(msgs, s.id)|
    ensures r.lastMessage.Some? <==> r.messageCount > 0
    ensures r.lastMessage.Some? ==>
      var ms := SessionMessages(msgs, s.id);
      r.lastMessage.value == Clip(ms[|ms| - 1].content, PreviewBytes, PreviewMarker)
    ensures r.lastMessage.Some? ==> ByteLen(r.lastMessage.value) <= PreviewBytes + ByteLen(PreviewMarker)
  {
    var ms := SessionMessages(msgs, s.id);
    if ms != [] then
      ClipSpec(ms[|ms| - 1].content, PreviewBytes, PreviewMarker);
      Summary(s.id, s.title, s.workingDirectory, s.projectId, None, |ms|,
              Some(Clip(ms[|ms| - 1].content, PreviewBytes, PreviewMarker)), s.createdAt, s.updatedAt)
    else
      Summary(s.id, s.title, s.workingDirectory, s.projectId, None, 0, None, s.createdAt, s.updatedAt)
  }

  function InProject(projectId: Option<string>): Session -> bool {
    (s: Session) => s.projectId == projectId
  }

  /** The sessions `WHERE project_id = ?` keeps, in the table's order; all of
      them without a filter. */
  function Listed(ordered: seq<Session>, projectId: Option<string>): (r: seq<Session>)
    ensures projectId.None? ==> r == ordered
    ensures forall s :: s in r <==> s in ordered && (projectId.Some? ==> s.projectId == projectId)
  {
    if projectId.Some? then Filter(ordered, InProject(projectId)) else ordered
  }

  /** `session_list` over the sessions table in the database's `updated_at
      DESC` order, with the corrected limit. */
  function SessionList(ordered: seq<Session>, msgs: seq<Message>, projectId: Option<string>,
                       limit: Option<I32>, offset: Option<I32>): (r: seq<Summary>)
    ensures |r| <= MaxListLimit
    ensures limit.None? && offset.None? && projectId.None? ==> |r| == Min(DefaultListLimit, |ordered|)
    ensures projectId.Some? ==> forall i :: 0 <= i < |r| ==> r[i].projectId == projectId
    ensures forall i :: 0 <= i < |r| ==> exists s :: s in ordered && r[i] == Summarize(s, msgs)
    ensures var page := SqlPage(Listed(ordered, projectId), ListLimit(limit), offset.GetOr(0));
            && |r| == |page|
            && forall i :: 0 <= i < |r| ==> r[i] == Summarize(page[i], msgs)
    ensures projectId.None? ==>
      forall i :: 0 <= i < |r| ==> r[i] == Summarize(ordered[PageStart(|ordered|, offset.GetOr(0)) + i], msgs)
    ensures forall i :: 0 <= i < |r| && r[i].lastMessage.Some? ==>
      ByteLen(r[i].lastMessage.value) <= PreviewBytes + ByteLen(PreviewMarker)
  {
    var matching := Listed(ordered, projectId);
    assert forall s :: s in matching ==> s in ordered && (projectId.Some? ==> s.projectId == projectId);
    var page := SqlPage(matching, ListLimit(limit), offset.GetOr(0));
    assert forall i :: 0 <= i < |page| ==> page[i] in matching;
    seq(|page|, i requires 0 <= i < |page| => Summarize(page[i], msgs))
  }
}
