# wingman backend core, modelled in Dafny

wingman is a desktop front end for the Claude command-line tool. It is a
Tauri application whose Rust backend keeps chat sessions and a small project
tracker in SQLite. It runs one CLI process per session, streams that
process's NDJSON output to the UI as events, and attributes file changes in a
session's working directory to Claude or to someone else.

This project models that backend as pure functions over immutable state. It
proves the properties the code promises, and a few it does not keep. The
modules follow the source:

| module | file | models |
|---|---|---|
| `Base` | base.dfy | `Option`, `Result`, and the outcomes of I/O and filesystem probes |
| `Text` | text.dfy | Rust string semantics: UTF-8 byte length, `&s[..n]` (which panics off a character boundary), `trim`, `starts_with`/`ends_with`/`contains` |
| `Errors` | errors.dfy | `error.rs`: error codes and their wire names, the constructors, the `From` conversions |
| `Json` | json.dfy | the decoded `serde_json::Value` and its `get` and `as_str` accessors |
| `Parser` | parser.dfy | `claude/parser.rs`: `parse_claude_output`, plus a canonical encoder as its partner |
| `Events` | events.dfy | `events/mod.rs`: the payloads and event names |
| `Registry` | registry.dfy | `CliManager` in `claude/process.rs`: start, stop, send, cancel, status |
| `Stream` | stream.dfy | `stream_output` in `claude/process.rs`, as a fold over output lines |
| `Race` | race.dfy | the output loop interleaved with stop, send and cancel on the same registry |
| `FileWatcher` | file_watcher.dfy | `state/file_watcher.rs`: attribution, ignore patterns, watcher bookkeeping |
| `Sessions` | sessions.dfy | `commands/session.rs`: the session commands over a store of sessions and messages |
| `Projects` | projects.dfy | `commands/project.rs`: projects, milestones, sprints, tasks and dependencies |

Conventions:

- A command takes the current state and returns the new state together with
  its `Result`.
- Whatever the code gets from outside is a parameter:
  - fresh ids and the clock;
  - what the filesystem says about a path (`DirFacts`, `Dir`);
  - whether the CLI is installed and how each pipe write ends (`StartEnv`, `SendEnv`);
  - the JSON decoding of a line.
- SQL tables are maps keyed by primary key. The messages table is a sequence
  in insertion order.
- Where a query sorts rows (`ORDER BY updated_at DESC`), the caller passes
  the rows already in that order.
- Deletions carry out the schema's `ON DELETE` rules (`db/connection.rs`
  lines 60-137). Messages go with their session. Deleting a project removes
  its milestones, sprints and tasks. Deleting a milestone or a sprint clears
  the links that pointed to it. Dependency pairs go with either of their tasks.
- `session_stop_cli` and `session_cancel_response` are plain calls to
  `Registry.Stop` and `Registry.Cancel`.

`session_rename` compares `title.len()`, a UTF-8 byte count, with 100.
Its error message says "characters". The model follows the code: a title of
60 two-byte characters is rejected.

## Model

| member | source | states |
|---|---|---|
| Errors.CodeNameRoundTrip | src-tauri/src/error.rs:10-40 | every error code is read back from its SCREAMING_SNAKE_CASE wire name |
| Errors.CodeNameInjective | src-tauri/src/error.rs:10-40 | no two error codes share a wire name |
| Errors.New | src-tauri/src/error.rs:54-60 | an error without details carries exactly the given code and message |
| Errors.WithDetails | src-tauri/src/error.rs:63-69 | an error with details carries the given code, message and details |
| Errors.NotFoundError | src-tauri/src/error.rs:74-76 | code NOT_FOUND, the message given, no details |
| Errors.InvalidInputError | src-tauri/src/error.rs:78-80 | code INVALID_INPUT, the message given, no details |
| Errors.DatabaseErr | src-tauri/src/error.rs:82-84 | code DATABASE_ERROR, the message given, no details |
| Errors.DatabaseNotFoundError | src-tauri/src/error.rs:86-91 | code DATABASE_NOT_FOUND with the message "<entity> with id '<id>' not found" |
| Errors.ClaudeCliNotFoundError | src-tauri/src/error.rs:93-98 | code CLAUDE_CLI_NOT_FOUND with the fixed installation message |
| Errors.ClaudeCliErr | src-tauri/src/error.rs:100-102 | code CLAUDE_CLI_ERROR, the message given |
| Errors.FileNotFoundError | src-tauri/src/error.rs:104-110 | fixed message "File not found", the path in the details |
| Errors.DirectoryNotFoundError | src-tauri/src/error.rs:112-118 | fixed message "Directory not found", the path in the details |
| Errors.FromSqlx | src-tauri/src/error.rs:123-141 | a missing row gives DATABASE_NOT_FOUND; unique and foreign-key violations, and only those, give DATABASE_CONSTRAINT; everything else gives DATABASE_ERROR; the details hold the driver's text exactly when an error came from the driver |
| Errors.UniqueViolation | src-tauri/src/error.rs:127-133 | inserting a duplicate primary key fails with DATABASE_CONSTRAINT and the driver's text as details |
| Errors.FromIo | src-tauri/src/error.rs:143-153 | each of NotFound, PermissionDenied and AlreadyExists gets its own file code; any other kind gives UNKNOWN with the text as details |
| Errors.FromJson | src-tauri/src/error.rs:155-159 | a JSON error is always INVALID_INPUT "JSON parsing error" with the text as details |
| Errors.ConversionCodesDisjoint | src-tauri/src/error.rs:123-159 | the io, sqlx and serde conversions never produce one another's codes |
| Json.Get | src-tauri/src/claude/parser.rs:46-50 | a field is found exactly when the value is an object with that key, and it is that key's value |
| Json.AsStr | src-tauri/src/claude/parser.rs:49 | text comes back exactly for string values |
| Json.StrField | src-tauri/src/claude/parser.rs:78-82 | a string field is found exactly when the object has that key holding a string |
| Parser.Parse | src-tauri/src/claude/parser.rs:39-139 | a line fails to parse exactly when it is not JSON or has no string "type", and the error is a CLI error prefixed "JSON parse error: " |
| Parser.ParseRejectsUntyped | src-tauri/src/claude/parser.rs:40-41 | malformed JSON, and a record without a string "type", never yield an event |
| Parser.ParseAssistant | src-tauri/src/claude/parser.rs:44-52 | "assistant" carries a message id exactly when `message.id` is a string |
| Parser.ParseContentBlockDelta | src-tauri/src/claude/parser.rs:59-69 | "content_block_delta" is a text delta exactly when `delta.text` is a string, and is ignored otherwise |
| Parser.ParseIgnoredAndUnlisted | src-tauri/src/claude/parser.rs:54-137 | the recognised-but-ignored types and every unlisted type decode to Unknown |
| Parser.ParseToolUse | src-tauri/src/claude/parser.rs:76-85 | the tool name defaults to "unknown" and the input to null, and a present input is passed through unchanged |
| Parser.ParseToolResult | src-tauri/src/claude/parser.rs:87-100 | the tool-use id and the content each default to the empty string |
| Parser.ParseMessageStop | src-tauri/src/claude/parser.rs:102-105 | "message_stop" ends the message whatever else the record holds |
| Parser.ParseError | src-tauri/src/claude/parser.rs:117-126 | the message comes from `error.message` and defaults to "Unknown error" |
| Parser.ParseEncodeRoundTrip | src-tauri/src/claude/parser.rs:10-27 | every event is recovered by parsing its canonical CLI record |
| Parser.SampleLines | src-tauri/src/claude/parser.rs:145-183 | the text-delta, message-stop and error sample lines parse as the tests expect, and an unlisted type is Unknown |
| Parser.SampleToolUse | src-tauri/src/claude/parser.rs:162-173 | the write_file sample keeps its input object, whose `path` is "test.txt" |
| Events.EventName | src-tauri/src/events/mod.rs:10-13 | output, status and error payloads go out under three distinct event names |
| Events.StatusEvent | src-tauri/src/claude/process.rs:318-328 | a status payload names the session and the status, and never carries an error |
| Registry.StatusNameRoundTrip | src-tauri/src/state/app_state.rs:11-20 | every CLI status is read back from its lowercase name |
| Registry.Start | src-tauri/src/claude/process.rs:42-116 | a running session is left alone; otherwise "starting" is announced first, a missing CLI, a failed spawn or a failed context write fails without registering anything, and success registers a Ready entry whose stdin received the context and announces "ready" |
| Registry.Stop | src-tauri/src/claude/process.rs:119-125 | always Ok; the session's entry is removed and every other entry is untouched |
| Registry.SendMessage | src-tauri/src/claude/process.rs:128-153 | fails with "CLI not running for session" or "CLI stdin not available" and changes nothing; on success the content is appended to what the process received and the status becomes Busy |
| Registry.Cancel | src-tauri/src/claude/process.rs:156-180 | always Ok and changes no entry |
| Registry.GetStatus | src-tauri/src/claude/process.rs:183-189 | an unknown session reports Stopped, a known one its stored status |
| Registry.StartIdempotent | src-tauri/src/claude/process.rs:50-55 | a start issued after an earlier start has returned emits nothing and spawns no second process |
| Registry.StopIdempotent | src-tauri/src/claude/process.rs:119-125 | a second stop changes nothing |
| Registry.StoppedIffNotRunning | src-tauri/src/claude/process.rs:183-195 | with live statuses, `get_status` says Stopped exactly when `is_running` is false |
| Registry.OperationsKeepLiveStatuses | src-tauri/src/claude/process.rs:42-180 | start, stop, send and cancel never store the Stopped status |
| Registry.StatusAfterTransitions | src-tauri/src/claude/process.rs:92-146 | after a fresh start the status is Ready, after a stop Stopped, after a successful send Busy |
| Registry.ResumeContextComesFirst | src-tauri/src/claude/process.rs:77-89 | the resume context is the first line the process receives, before any message sent later |
| Registry.SendAllKeepsHead | src-tauri/src/claude/process.rs:128-146 | a burst of sends only appends to what the process received |
| Stream.Begin | src-tauri/src/claude/process.rs:211-228 | the loop reads only when the entry exists with its stdout; it takes the stdout and starts with a fresh message id and empty text |
| Stream.LineEvent | src-tauri/src/claude/process.rs:230-305 | a blank line and an unparsable line contribute nothing; any other line contributes exactly its parsed event |
| Stream.LineEvents | src-tauri/src/claude/process.rs:230-236 | one event slot per line, in order |
| Stream.Step | src-tauri/src/claude/process.rs:238-300 | a line without an event changes nothing, and no line ever announces "stopped" |
| Stream.MarkReady | src-tauri/src/claude/process.rs:280-284 | only a message end touches the registry: an existing entry becomes Ready, and a missing one is not re-created |
| Stream.RunRegistry | src-tauri/src/claude/process.rs:230-306 | the loop's writes never add or remove an entry |
| Stream.StreamOutput | src-tauri/src/claude/process.rs:205-315 | without stdout the loop says nothing; otherwise it removes the entry at end of stream and announces "stopped" exactly once, as its last event |
| Stream.StepTextDelta | src-tauri/src/claude/process.rs:244-256 | a delta is forwarded at once, as an incomplete chunk under the current message id, and appended to the text |
| Stream.StepAssistant | src-tauri/src/claude/process.rs:239-243 | a new assistant message clears the text and adopts its id, or a fresh one |
| Stream.StepMessageStop | src-tauri/src/claude/process.rs:266-285 | a message end emits an empty completing chunk and then "ready" |
| Stream.StepError | src-tauri/src/claude/process.rs:286-296 | a protocol error is forwarded as recoverable and changes neither the message id nor the text |
| Stream.RunRegistryEffect | src-tauri/src/claude/process.rs:280-284 | over a whole run, the registry changes at most by the session's entry becoming Ready, and only if a message ended |
| Stream.RunEmitsNoStopped | src-tauri/src/claude/process.rs:230-306 | only the end-of-stream handler announces "stopped" |
| Stream.RunAccumulates | src-tauri/src/claude/process.rs:244-245 | without a new assistant message, the accumulated text grows by exactly the forwarded chunks |
| Stream.FragmentsSinceAssistantFormText | src-tauri/src/claude/process.rs:239-256 | the chunks forwarded since the last assistant message, concatenated, are the accumulated text |
| Race.ExecuteKeepsInv | src-tauri/src/claude/process.rs:205-315 | under every interleaving with stop, send and cancel: no entry is inserted, other sessions are untouched, and "stopped" is said once if the loop ended, else never |
| Race.StoppedAtMostOnce | src-tauri/src/claude/process.rs:308-314 | whatever the interleaving, "stopped" is announced at most once, and exactly once when the loop has cleaned up |
| Race.NoResurrection | src-tauri/src/claude/process.rs:281-284 | once removed, an entry is never brought back by the loop's "ready" update or by a send |
| Race.StopBeforeBeginIsSilent | src-tauri/src/claude/process.rs:211-217 | a stop before the loop takes stdout makes the loop return without a single event, not even "stopped" |
| Race.StopAndEofCommute | src-tauri/src/claude/process.rs:308-314 | stop and end of stream, in either order, leave the same registry and one "stopped" |
| Race.ReadyAfterStop | src-tauri/src/claude/process.rs:266-284 | a message end after a stop still announces "ready" but does not re-create the entry |
| Race.StaleCleanupRemovesRestartedEntry | src-tauri/src/claude/process.rs:308-312 | the cleanup removes by session id: an old loop ending after stop and restart removes the new process's entry and announces "stopped" |
| FileWatcher.OperationNameRoundTrip | src-tauri/src/state/file_watcher.rs:51-59 | every file operation is read back from its name |
| FileWatcher.OperationNameInjective | src-tauri/src/state/file_watcher.rs:51-59 | the three operations have distinct names |
| FileWatcher.SourceNameRoundTrip | src-tauri/src/state/file_watcher.rs:68-75 | both change sources are read back from their names |
| FileWatcher.SourceNameInjective | src-tauri/src/state/file_watcher.rs:68-75 | the two sources have distinct names |
| FileWatcher.Record | src-tauri/src/state/file_watcher.rs:94-96 | recording a write sets that path's time to now, replacing any earlier one, and keeps the other paths |
| FileWatcher.DetermineSource | src-tauri/src/state/file_watcher.rs:99-115 | a change is Claude's exactly when its path has a record younger than the window; stale records and the path's own record are dropped, and fresh ones kept |
| FileWatcher.DetermineConsumes | src-tauri/src/state/file_watcher.rs:108-112 | a record explains one change only: asking again at once gives External |
| FileWatcher.RecordThenDetermine | src-tauri/src/state/file_watcher.rs:94-115 | a write is credited to Claude exactly when the change comes less than 2000 ms later |
| FileWatcher.ShouldIgnore | src-tauri/src/state/file_watcher.rs:374-402 | the pattern scan answers true exactly when some pattern ignores the path (suffix, substring or exact component) |
| FileWatcher.StarIgnoresEverything | src-tauri/src/state/file_watcher.rs:379-384 | a lone "*" pattern ignores every path |
| FileWatcher.NoPatternsIgnoreNothing | src-tauri/src/state/file_watcher.rs:374-402 | an empty pattern list ignores nothing |
| FileWatcher.CombinedPatterns | src-tauri/src/state/file_watcher.rs:277-282 | custom patterns add to the defaults and never replace them |
| FileWatcher.ComponentMatchIsExact | src-tauri/src/state/file_watcher.rs:391-397 | a `node_modules` component hides its subtree, while "build" does not match a component that merely starts with it |
| FileWatcher.SwapFileIgnored | src-tauri/src/state/file_watcher.rs:32-33 | editor swap files are ignored by their suffix |
| FileWatcher.KindOperation | src-tauri/src/state/file_watcher.rs:293-298 | create, modify and remove events map to their operations, and every other kind to none |
| FileWatcher.Forwarded | src-tauri/src/state/file_watcher.rs:300-321 | an event of another kind forwards nothing, and no event forwards more paths than it carries |
| FileWatcher.ForwardedExactly | src-tauri/src/state/file_watcher.rs:300-321 | a path is forwarded exactly when it is not ignored and is not a directory being modified or deleted |
| FileWatcher.StartWatching | src-tauri/src/state/file_watcher.rs:259-349 | a missing path fails first, then a non-directory; notify failures change nothing; success registers the watcher with defaults plus custom patterns and keeps an existing tracker |
| FileWatcher.StopWatching | src-tauri/src/state/file_watcher.rs:352-363 | always Ok; the session's watcher and tracker go and nothing else changes |
| FileWatcher.RecordClaudeModification | src-tauri/src/state/file_watcher.rs:366-371 | a session without a tracker ignores reported writes; otherwise the write is recorded |
| FileWatcher.Attribute | src-tauri/src/state/file_watcher.rs:236-240 | the change is Claude's exactly when the session's tracker has a fresh record for the path; a missing tracker is created |
| FileWatcher.ReportedWriteIsClaudes | src-tauri/src/state/file_watcher.rs:236-240 | a reported write on a watched session, followed by a change within the window, is credited to Claude |
| FileWatcher.StopForgetsWrites | src-tauri/src/state/file_watcher.rs:356-358 | after stop_watching, reported writes are dropped and later changes are External |
| Text.TrimEmptyIffAllWhitespace | src-tauri/src/commands/session.rs:258-260 | the validators' `trim().is_empty()` holds exactly for text made only of white space |
| Text.SliceTo | src-tauri/src/commands/session.rs:218-219 | `&s[..n]` exists exactly when byte n is a character boundary, and is then the n-byte prefix |
| Text.FloorBoundary | src-tauri/src/commands/session.rs:218-222 | the largest number of whole characters that fit in n bytes |
| Text.ContainsIffOccurs | src-tauri/src/state/file_watcher.rs:385-390 | `contains` holds exactly when the needle occurs at some offset |
| Sessions.ClipAsWrittenSpec | src-tauri/src/commands/session.rs:218-222 | as written: short text is kept, and long text is cut at byte n or, when byte n is inside a character, the slice panics |
| Sessions.ClipSpec | src-tauri/src/commands/session.rs:218-222 | corrected: short text is kept; long text becomes its longest whole-character prefix of at most n bytes plus the marker, so it never panics and stays within n bytes plus the marker |
| Sessions.ClipAgreesWithAsWritten | src-tauri/src/commands/session.rs:218-222 | wherever the code does not panic, the corrected clip gives the same text |
| Sessions.ClipInsideChar | src-tauri/src/commands/session.rs:218-222 | when the limit falls inside a character, the code panics and the corrected clip drops that character |
| Sessions.Label | src-tauri/src/commands/session.rs:217 | the label is "User" exactly for the user role, otherwise "Assistant" |
| Sessions.ResumeContext | src-tauri/src/commands/session.rs:199-232 | a context is sent exactly when resume is true and the session has messages |
| Sessions.BuildResumeContext | src-tauri/src/commands/session.rs:214-226 | the loop that appends one block per message, oldest first, builds exactly the resume context |
| Sessions.RecentNewestFirst | src-tauri/src/commands/session.rs:201-212 | the query returns the last min(20, n) messages, newest first |
| Sessions.ResumeCoversRecentHistory | src-tauri/src/commands/session.rs:199-229 | the context is the header, then the blocks of the last 20 messages in chronological order, then the footer |
| Sessions.ResumeClipPanicExample | src-tauri/src/commands/session.rs:218-219 | 499 ASCII letters followed by "é" are 501 bytes with byte 500 inside the "é", so the code panics where the corrected clip keeps the 499 letters |
| Sessions.SessionMessages | src-tauri/src/commands/session.rs:136-146 | exactly the messages of the session, and none for a session that has none; with `Sessions.SessionMessagesAppend`, in the order they were stored |
| Sessions.FilterAppend | src-tauri/src/commands/session.rs:136-146 | a `WHERE` filter keeps the order and multiplicity of the rows it accepts |
| Sessions.SessionMessagesAppend | src-tauri/src/commands/session.rs:141 | a message stored later is listed after the session's earlier messages, and other sessions' lists do not change |
| Sessions.ContextRows | src-tauri/src/commands/session.rs:201-203 | each message contributes its role and content, in order |
| Sessions.Touch | src-tauri/src/commands/session.rs:286-294 | only the session's `updated_at` changes |
| Sessions.SessionCreate | src-tauri/src/commands/session.rs:71-114 | a relative path fails first, then a missing directory; success stores the session with the title defaulting to "New Session" and reports status "stopped" |
| Sessions.SessionLoad | src-tauri/src/commands/session.rs:118-173 | an unknown session is DATABASE_NOT_FOUND; otherwise the session, exactly its messages in stored order (`ORDER BY created_at ASC`), and the registry's status name |
| Sessions.CreateThenLoad | src-tauri/src/commands/session.rs:71-173 | a created session loads back with the same fields, no messages and status "stopped" |
| Sessions.SessionStartCli | src-tauri/src/commands/session.rs:177-239 | an unknown session fails before the registry is touched; without resume no context is sent; the context is built with the corrected clip (see Findings) |
| Sessions.StartCliDeliversRecentHistory | src-tauri/src/commands/session.rs:199-238 | a resumed start stores an entry whose first input is the context built from the last 20 messages, clipped with the corrected clip (see Findings) |
| Sessions.SessionSendMessage | src-tauri/src/commands/session.rs:252-300 | blank content fails first, then a session that is not running; otherwise the message is stored and the session touched, and it stays stored even when the pipe write then fails |
| Sessions.SessionDelete | src-tauri/src/commands/session.rs:313-331 | the CLI is stopped even for an unknown session; an unknown session fails with nothing deleted; otherwise the session and exactly its messages are removed |
| Sessions.DeleteKeepsConsistent | src-tauri/src/commands/session.rs:320-324 | after a delete, every message still belongs to an existing session |
| Sessions.SessionRename | src-tauri/src/commands/session.rs:335-362 | a blank title fails first, then one over 100 bytes, then an unknown session; success sets the title and touches only that session |
| Sessions.Upsert | src-tauri/src/commands/session.rs:470-477 | a new id is appended; an existing id keeps its position, session, role and time, and takes the new content and tool usage |
| Sessions.SessionSaveMessage | src-tauri/src/commands/session.rs:453-496 | a role other than user or assistant fails and changes nothing; otherwise the message is upserted under its id (appended exactly when the id is new, with the given session, role, content, tool usage and time) and the session is touched |
| Sessions.SaveThenLoadAppends | src-tauri/src/commands/session.rs:118-173 | a message saved under a new id loads back after every earlier message of its session |
| Sessions.SaveKeepsOwnerRoleAndTime | src-tauri/src/commands/session.rs:474-477 | saving an existing id replaces only its content and tool usage |
| Sessions.SaveIdempotent | src-tauri/src/commands/session.rs:469-493 | saving the same message twice has the effect of saving it once |
| Sessions.PageStart | src-tauri/src/commands/session.rs:404-405 | the offset, with a negative offset counting as 0, never passes the end of the rows |
| Sessions.SqlPage | src-tauri/src/commands/session.rs:404-405 | `LIMIT ? OFFSET ?`: a contiguous run starting at the offset, of at most `limit` rows, or every remaining row when the limit is negative |
| Sessions.ListLimitAsWritten | src-tauri/src/commands/session.rs:372 | as written: the limit defaults to 50 and is capped at 200, with no lower bound |
| Sessions.NegativeLimitListsEverything | src-tauri/src/commands/session.rs:372-373 | with a limit of -1, SQLite returns every session |
| Sessions.ListLimit | src-tauri/src/commands/session.rs:372 | corrected: the limit defaults to 50 and is clamped to 0..200 |
| Sessions.ListLimitAgrees | src-tauri/src/commands/session.rs:372 | for absent and non-negative limits the corrected limit equals the written one |
| Sessions.PreviewPanicExample | src-tauri/src/commands/session.rs:428-434 | 99 ASCII letters followed by "é" make the preview slice panic; the corrected preview keeps the letters |
| Sessions.Summarize | src-tauri/src/commands/session.rs:424-447 | the summary counts exactly the session's messages; a preview exists exactly when there is a message, and it is at most 100 bytes plus "..." |
| Sessions.SessionList | src-tauri/src/commands/session.rs:366-449 | with the corrected limit (see Findings): row i summarises the session at position offset + i of the `updated_at DESC` order, after the project filter, so there are at most 200 rows and 50 by default |
| Sessions.Listed | src-tauri/src/commands/session.rs:376-405 | the project filter keeps exactly the sessions of that project; without a filter every session, in table order |
| Projects.Merge | src-tauri/src/commands/project.rs:247-249 | `unwrap_or`: the request's value when given, else the stored one |
| Projects.MergeOptional | src-tauri/src/commands/project.rs:248-250 | `or`: the request's value when given, else the stored one |
| Projects.MergeNeverClears | src-tauri/src/commands/project.rs:248-250 | an update can set an optional field but never clear it |
| Projects.DropTasks | src-tauri/src/db/connection.rs:132-137 | deleted tasks take every dependency pair they appear in, on either side, and nothing else changes |
| Projects.DropSprints | src-tauri/src/db/connection.rs:128 | deleted sprints release their tasks to the backlog, and the tasks otherwise stay as they were |
| Projects.DropMilestones | src-tauri/src/db/connection.rs:112 | deleted milestones unlink their sprints, and the sprints otherwise stay as they were |
| Projects.ProjectCreate | src-tauri/src/commands/project.rs:113-159 | a blank name fails first, then a relative root path, then a missing directory; success stores exactly the requested project |
| Projects.ProjectGet | src-tauri/src/commands/project.rs:192-217 | the stored project, or DATABASE_NOT_FOUND for "Project" |
| Projects.ProjectUpdate | src-tauri/src/commands/project.rs:230-282 | an unknown project fails; only the merged name is validated, so the root path is not checked; success keeps the id and creation time |
| Projects.ProjectDelete | src-tauri/src/commands/project.rs:286-300 | succeeds exactly for a stored project; otherwise DATABASE_NOT_FOUND with nothing changed |
| Projects.ProjectDeleteCascades | src-tauri/src/db/connection.rs:96-137 | no milestone, sprint, task or dependency of the project survives, and every other project's milestone is untouched |
| Projects.ProjectDeleteKeepsOthers | src-tauri/src/db/connection.rs:96-137 | every other project stays as it was; every dependency pair between surviving tasks survives; surviving sprints and tasks change only by losing links to deleted milestones and sprints |
| Projects.MaxSortOrder | src-tauri/src/commands/project.rs:328-334 | the largest sort order among the project's milestones, or none when it has no milestones |
| Projects.MilestoneCreate | src-tauri/src/commands/project.rs:316-365 | a blank name fails; a new milestone is "planned" and sorts after every milestone of its project, at 1 when it is the first |
| Projects.MilestoneUpdate | src-tauri/src/commands/project.rs:411-463 | an unknown milestone fails; the merged status must be planned, in_progress or completed; the name is not checked; the project, sort order and creation time are kept |
| Projects.MilestoneDelete | src-tauri/src/commands/project.rs:466-480 | succeeds exactly for a stored milestone, and its sprints lose their link |
| Projects.ReorderSpec | src-tauri/src/commands/project.rs:487-493 | each listed milestone's sort order becomes the position of its last occurrence; unlisted milestones, unknown ids and all other fields are unaffected |
| Projects.ReorderDistinct | src-tauri/src/commands/project.rs:487-493 | with distinct ids, the i-th listed milestone gets sort order i |
| Projects.MilestoneReorder | src-tauri/src/commands/project.rs:483-496 | never fails; the loop performs exactly the in-order updates |
| Projects.SprintCreate | src-tauri/src/commands/project.rs:514-555 | a blank name fails; a new sprint is "planned" and stores the request as given |
| Projects.SprintUpdate | src-tauri/src/commands/project.rs:631-688 | an unknown sprint fails; the merged status must be planned, active or completed; the project and creation time are kept |
| Projects.SprintDelete | src-tauri/src/commands/project.rs:691-705 | succeeds exactly for a stored sprint, and its tasks move to the backlog |
| Projects.TaskCreate | src-tauri/src/commands/project.rs:723-769 | a blank title fails first, then a priority outside low/medium/high (default medium); a new task is "todo" |
| Projects.TaskUpdate | src-tauri/src/commands/project.rs:834-894 | an unknown task fails; the status is checked before the priority; on success every field is the request's value when given and the stored one otherwise, with id, project and creation time kept |
| Projects.EmptyTaskUpdateOnlyTouches | src-tauri/src/commands/project.rs:849-862 | an update that sets nothing succeeds on a valid row and only moves `updated_at` |
| Projects.TaskUpdateNeverClears | src-tauri/src/commands/project.rs:849-854 | an update cannot take a task out of its sprint or drop its description or estimate |
| Projects.TaskUpdateAcceptsBlankTitle | src-tauri/src/commands/project.rs:850-862 | the update accepts a blank title, which creation rejects |
| Projects.TaskMove | src-tauri/src/commands/project.rs:898-919 | an unknown task fails; otherwise only that task's sprint, which may be cleared, and its `updated_at` change |
| Projects.TaskDelete | src-tauri/src/commands/project.rs:922-936 | succeeds exactly for a stored task, and its dependency pairs go with it |
| Projects.TaskDeleteClearsDependencies | src-tauri/src/db/connection.rs:136-137 | after a task is deleted, nothing depends on it and it depends on nothing |
| Projects.ProjectCommandsKeepKeys | src-tauri/src/commands/project.rs:273-281 | creating and updating projects keep every row under its own id |
| Projects.ProjectDeleteKeepsKeys | src-tauri/src/commands/project.rs:286-300 | deleting a project and its cascade keep every surviving row under its own id |
| Projects.MilestoneCommandsKeepKeys | src-tauri/src/commands/project.rs:452-462 | milestone updates and deletes keep every row under its own id |
| Projects.SprintCommandsKeepKeys | src-tauri/src/commands/project.rs:677-687 | sprint creates, updates and deletes keep every row under its own id |
| Projects.TaskCommandsKeepKeys | src-tauri/src/commands/project.rs:882-893 | task creates and updates keep every row under its own id |
| Projects.TaskMoveDeleteKeepKeys | src-tauri/src/commands/project.rs:898-936 | moving and deleting tasks keep every row under its own id |
| Projects.DropTasksKeepsReferential | src-tauri/src/db/connection.rs:132-137 | deleting tasks with their dependency pairs leaves no dangling foreign key |
| Projects.DropSprintsKeepsReferential | src-tauri/src/db/connection.rs:127-128 | deleting sprints and clearing their tasks' links leaves no dangling foreign key |
| Projects.DropMilestonesKeepsReferential | src-tauri/src/db/connection.rs:111-112 | deleting milestones and clearing their sprints' links leaves no dangling foreign key |
| Projects.RemoveEmptyProjectKeepsReferential | src-tauri/src/db/connection.rs:96-127 | a project row that no milestone, sprint or task refers to can be removed without a dangling foreign key |
| Projects.ProjectDeleteKeepsReferential | src-tauri/src/commands/project.rs:286-300 | deleting a project, with its cascades, keeps every foreign key of the schema pointing at a stored row |
| Projects.MilestoneDeleteKeepsReferential | src-tauri/src/commands/project.rs:466-480 | deleting a milestone keeps every foreign key pointing at a stored row |
| Projects.SprintDeleteKeepsReferential | src-tauri/src/commands/project.rs:691-705 | deleting a sprint keeps every foreign key pointing at a stored row |
| Projects.TaskDeleteKeepsReferential | src-tauri/src/commands/project.rs:922-936 | deleting a task keeps every foreign key pointing at a stored row |
| Projects.TaskAddDependency | src-tauri/src/commands/project.rs:943-962 | a self-dependency fails; otherwise the pair is present afterwards |
| Projects.TaskRemoveDependency | src-tauri/src/commands/project.rs:965-979 | always Ok, and the pair is absent afterwards |
| Projects.TaskGetDependencies | src-tauri/src/commands/project.rs:982-994 | exactly the tasks the given task depends on |
| Projects.DependencyProperties | src-tauri/src/commands/project.rs:948-958 | adding is idempotent and shows up in the dependency list; only self-loops are refused, so two tasks may depend on each other |
| Projects.RemoveUndoesAdd | src-tauri/src/commands/project.rs:965-979 | removing a pair undoes adding it when it was not there before |

## Left out

- JSON text lexing. A line reaches `Parser.Parse` already decoded, and serde's errors are opaque text.
- Processes and OS signals: spawning, killing, the SIGINT that `cancel` sends, and the Windows branch. Their observable effects are parameters or nothing.
- Locks, tokio tasks and the debounce loop of the file watcher. `Race` treats each locked section as one atomic step.
- Registry.Start: the running check (read lock) and the insert (write lock) are one step here. Two starts for the same session that overlap can both pass the check and spawn two processes; the later insert replaces the first entry and the first child is never killed. `Registry.StartIdempotent` covers only a start issued after the previous one returned.
- `start` is not an action in `Race`. It spawns a second loop, and `Race.StaleCleanupRemovesRestartedEntry` shows what that allows.
- `ensure_initialized`, the watcher's event channel and `emit_event` delivery failures. Emissions are recorded, never lost.
- Partial pipe writes. A write either completes or fails with a text.
- Floating point. Task estimates are stored and returned but never computed with, and `dashboard_stats` and the sprint progress figures are left out.
- `project_get_all`, `milestone_get_all`, `sprint_get_all` and `task_get_all`. They are plain listings with a filter and an order.
- Foreign-key checks on insert, for example saving a message for an unknown session, and every SQL failure other than a duplicate primary key.
- The `SET NULL` of `sessions.project_id` when a project is deleted, because sessions and projects are separate stores here.
- UUID generation and the clock. Ids and timestamps are parameters, and timestamps are opaque strings.
- The listing order of `session_list` and `ORDER BY created_at`. The rows arrive already ordered.
- Serialisation of `tool_usage`. It is stored as a decoded JSON value.
- `activity.rs`, `system.rs` and `lib.rs`. These are outside the modelled core.
- Projects.MilestoneReorder: the position is an `i32` in the source. The model uses unbounded integers, so lists longer than 2^31 are not modelled.
- Projects.MilestoneCreate: `MAX(sort_order) + 1` is computed in `i32` and could overflow at 2^31 - 1. The model uses unbounded integers.
- Sessions.SessionStartCli: builds the resume context with the corrected clip. On a stored message whose byte 500 falls inside a character, the code panics instead; `Sessions.ResumeClipPanicExample` states that outcome.
- Sessions.StartCliDeliversRecentHistory: states the context built with the corrected clip, for the same reason; where the code does not panic the two agree (`Sessions.ClipAgreesWithAsWritten`).
- Sessions.SessionList: uses the corrected limit and the corrected preview. As written, a negative limit returns every session (`Sessions.NegativeLimitListsEverything`), and a last message whose byte 100 falls inside a character makes the listing panic (`Sessions.PreviewPanicExample`).
- Sessions.ResumeContext: its contract states when a context exists. What the context contains is stated by `Sessions.ResumeCoversRecentHistory`.

## Findings

| source | as written | input that shows it | evidently intended | confidence | as-written member | corrected member |
|---|---|---|---|---|---|---|
| src-tauri/src/commands/session.rs:218-219 | the resume context clips a long message with `&content[..500]`, a byte slice | a stored message of 499 ASCII letters followed by "é" (501 bytes, byte 500 inside the "é"): resuming panics | clip at the last character boundary at or before 500 bytes | high, not executed | Sessions.ResumeClipPanicExample | Sessions.ClipSpec |
| src-tauri/src/commands/session.rs:429-430 | the list preview clips with `&msg[..100]` | a last message of 99 ASCII letters followed by "é": listing sessions panics | clip at the last character boundary at or before 100 bytes | high, not executed | Sessions.PreviewPanicExample | Sessions.Summarize |
| src-tauri/src/commands/session.rs:372 | `limit.unwrap_or(50).min(200)` caps the limit from above only | `limit = -1`: SQLite reads a negative LIMIT as no limit and returns every session | a page of at most 200 sessions | medium, not executed | Sessions.NegativeLimitListsEverything | Sessions.ListLimit |
