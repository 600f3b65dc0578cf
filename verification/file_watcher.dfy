/** File-change attribution and ignore matching (state/file_watcher.rs).
    Time is a monotonic clock in whole milliseconds, passed in as `now`;
    the notify watcher, the debounce task and the filesystem probes are
    replaced by their observable results. */
module FileWatcher {
  import opened Base
  import opened Text
  import Errors

  // ---------------------------------------------------------------------
  // Wire names
  // ---------------------------------------------------------------------

  datatype FileOperation = Created | Modified | Deleted

  function OperationName(op: FileOperation): string {
    match op
    case Created => "created"
    case Modified => "modified"
    case Deleted => "deleted"
  }

  /** How a listener reads the operation name back; the partner of `OperationName`. */
  function OperationFromName(name: string): Option<FileOperation> {
    match name
    case "created" => Some(Created)
    case "modified" => Some(Modified)
    case "deleted" => Some(Deleted)
    case _ => None
  }

  lemma OperationNameRoundTrip(op: FileOperation)
    ensures OperationFromName(OperationName(op)) == Some(op)
  {
  }

  lemma OperationNameInjective(a: FileOperation, b: FileOperation)
    ensures OperationName(a) == OperationName(b) <==> a == b
  {
    OperationNameRoundTrip(a);
    OperationNameRoundTrip(b);
  }

  datatype ChangeSource = Claude | External

  function SourceName(s: ChangeSource): string {
    match s
    case Claude => "claude"
    case External => "external"
  }

  function SourceFromName(name: string): Option<ChangeSource> {
    match name
    case "claude" => Some(Claude)
    case "external" => Some(External)
    case _ => None
  }

  lemma SourceNameRoundTrip(s: ChangeSource)
    ensures SourceFromName(SourceName(s)) == Some(s)
  {
  }

  lemma SourceNameInjective(a: ChangeSource, b: ChangeSource)
    ensures SourceName(a) == SourceName(b) <==> a == b
  {
    SourceNameRoundTrip(a);
    SourceNameRoundTrip(b);
  }

  // ---------------------------------------------------------------------
  // Source attribution
  // ---------------------------------------------------------------------

  /** `ATTRIBUTION_WINDOW_MS`. */
  const AttributionWindow: nat := 2000

  /** `SourceTracker`: for each path, when Claude last wrote it. */
  type Tracker = map<string, nat>

  /** `Instant::duration_since`, which saturates at zero for a later instant. */
  function Elapsed(now: nat, since: nat): nat {
    if now >= since then now - since else 0
  }

  predicate Fresh(now: nat, since: nat) {
    Elapsed(now, since) < AttributionWindow
  }

  /** `record_claude_modification`: the path's time becomes `now`, replacing any earlier one. */
  function Record(tr: Tracker, path: string, now: nat): (r: Tracker)
    ensures path in r && r[path] == now
    ensures r.Keys == tr.Keys + {path}
    ensures forall p :: p in tr && p != path ==> r[p] == tr[p]
  {
    tr[path := now]
  }

  /** `determine_source`: drop every record that has aged out of the window,
      then take out the path's own record; the change is Claude's exactly when
      that record existed (and so was still fresh). */
  function DetermineSource(tr: Tracker, path: string, now: nat): (r: (ChangeSource, Tracker))
    ensures r.0 == Claude <==> path in tr && Fresh(now, tr[path])
    ensures path !in r.1
    ensures r.1.Keys <= tr.Keys
    ensures forall p :: p in r.1 ==> r.1[p] == tr[p] && Fresh(now, tr[p])
    ensures forall p :: p in tr && p != path && Fresh(now, tr[p]) ==> p in r.1
  {
    var kept := map p | p in tr && Fresh(now, tr[p]) :: tr[p];
    if path in kept then
      var t := kept[path];
      var rest := kept - {path};
      if Fresh(now, t) then (Claude, rest) else (External, rest)
    else (External, kept)
  }

  /** A record is used up by the change it explains: asking again at once says External. */
  lemma DetermineConsumes(tr: Tracker, path: string, now: nat)
    ensures var first := DetermineSource(tr, path, now);
            DetermineSource(first.1, path, now).0 == External
  {
  }

  /** A write recorded less than the window before a change is attributed to
      Claude; one recorded the window or longer before is not. */
  lemma RecordThenDetermine(tr: Tracker, path: string, written: nat, now: nat)
    requires written <= now
    ensures DetermineSource(Record(tr, path, written), path, now).0 == Claude
            <==> now - written < AttributionWindow
  {
  }

  // ---------------------------------------------------------------------
  // Ignore patterns
  // ---------------------------------------------------------------------

  /** `DEFAULT_IGNORE_PATTERNS`. */
  const DefaultIgnorePatterns: seq<string> := [
    ".git", "node_modules", ".next", "target", "dist", "build", ".DS_Store", "Thumbs.db",
    "*.swp", "*.swo", "*~", ".idea", ".vscode", "__pycache__", ".pytest_cache", "*.pyc", ".cargo"
  ]

  /** A path as the watcher sees it: its components and its whole text. */
  datatype Path = Path(components: seq<string>, text: string)

  /** What one pattern ignores: a leading `*` makes it a suffix test on the
      whole text, else a trailing `*` makes it a substring test on the text
      without that star, else it must equal one whole path component. */
  predicate PatternIgnores(path: Path, pattern: string) {
    if |pattern| > 0 && pattern[0] == '*' then EndsWith(path.text, pattern[1..])
    else if |pattern| > 0 && pattern[|pattern| - 1] == '*' then Contains(path.text, pattern[..|pattern| - 1])
    else pattern in path.components
  }

  /** The path is ignored when some pattern ignores it. */
  predicate IgnoredBy(path: Path, patterns: seq<string>) {
    exists i :: 0 <= i < |patterns| && PatternIgnores(path, patterns[i])
  }

  /** `should_ignore`: scan the patterns in order and stop at the first hit. */
  method ShouldIgnore(path: Path, patterns: seq<string>) returns (ignored: bool)
    ensures ignored <==> IgnoredBy(path, patterns)
  {
    var i := 0;
    while i < |patterns|
      invariant 0 <= i <= |patterns|
      invariant forall j :: 0 <= j < i ==> !PatternIgnores(path, patterns[j])
    {
      var pattern := patterns[i];
      if |pattern| > 0 && pattern[0] == '*' {
        if EndsWith(path.text, pattern[1..]) {
          return true;
        }
      } else if |pattern| > 0 && pattern[|pattern| - 1] == '*' {
        if Contains(path.text, pattern[..|pattern| - 1]) {
          return true;
        }
      } else if pattern in path.components {
        return true;
      }
      i := i + 1;
    }
    return false;
  }

  /** A lone `*` ignores every path. */
  lemma StarIgnoresEverything(path: Path, patterns: seq<string>)
    requires "*" in patterns
    ensures IgnoredBy(path, patterns)
  {
    var i :| 0 <= i < |patterns| && patterns[i] == "*";
    assert path.text[|path.text| - 0..] == "*"[1..];
    assert PatternIgnores(path, patterns[i]);
  }

  lemma NoPatternsIgnoreNothing(path: Path)
    ensures !IgnoredBy(path, [])
  {
  }

  /** Custom patterns are appended to the defaults: the combined list ignores
      exactly what either part ignores, so the defaults always apply. */
  lemma CombinedPatterns(path: Path, custom: seq<string>)
    ensures IgnoredBy(path, DefaultIgnorePatterns + custom)
            <==> IgnoredBy(path, DefaultIgnorePatterns) || IgnoredBy(path, custom)
  {
    var all := DefaultIgnorePatterns + custom;
    if IgnoredBy(path, all) {
      var i :| 0 <= i < |all| && PatternIgnores(path, all[i]);
      if i >= |DefaultIgnorePatterns| {
        assert all[i] == custom[i - |DefaultIgnorePatterns|];
      } else {
        assert all[i] == DefaultIgnorePatterns[i];
      }
    }
    if IgnoredBy(path, custom) {
      var j :| 0 <= j < |custom| && PatternIgnores(path, custom[j]);
      assert all[|DefaultIgnorePatterns| + j] == custom[j];
    }
    if IgnoredBy(path, DefaultIgnorePatterns) {
      var j :| 0 <= j < |DefaultIgnorePatterns| && PatternIgnores(path, DefaultIgnorePatterns[j]);
      assert all[j] == DefaultIgnorePatterns[j];
    }
  }

  /** A component named like a default pattern hides the whole subtree; a
      component that merely starts with it does not. */
  lemma ComponentMatchIsExact()
    ensures IgnoredBy(Path(["web", "node_modules", "x.js"], "web/node_modules/x.js"), DefaultIgnorePatterns)
    ensures !PatternIgnores(Path(["src", "builder.rs"], "src/builder.rs"), "build")
  {
    assert PatternIgnores(Path(["web", "node_modules", "x.js"], "web/node_modules/x.js"), DefaultIgnorePatterns[1]);
  }

  /** Editor swap files are ignored by suffix. */
  lemma SwapFileIgnored()
    ensures IgnoredBy(Path(["src", "main.rs.swp"], "src/main.rs.swp"), DefaultIgnorePatterns)
  {
    var p := Path(["src", "main.rs.swp"], "src/main.rs.swp");
    assert p.text[|p.text| - 4..] == "*.swp"[1..];
    assert PatternIgnores(p, DefaultIgnorePatterns[8]);
  }

  // ---------------------------------------------------------------------
  // The watcher callback's filter
  // ---------------------------------------------------------------------

  /** The notify event kinds the callback distinguishes. */
  datatype EventKind = KindCreate | KindModify | KindRemove | KindOther

  function KindOperation(kind: EventKind): (r: Option<FileOperation>)
    ensures r.None? <==> kind == KindOther
  {
    match kind
    case KindCreate => Some(Created)
    case KindModify => Some(Modified)
    case KindRemove => Some(Deleted)
    case KindOther => None
  }

  /** A path carried by a notify event, with the answer `is_dir` gives for it. */
  datatype EventPath = EventPath(path: Path, isDir: bool)

  /** Whether the callback passes one path on: not ignored, and not a
      directory unless the operation is a creation. */
  predicate Passes(p: EventPath, op: FileOperation, patterns: seq<string>) {
    !IgnoredBy(p.path, patterns) && !(op != Created && p.isDir)
  }

  /** The paths the watcher callback sends to the processing task, in order. */
  function Forwarded(kind: EventKind, paths: seq<EventPath>, patterns: seq<string>): (r: seq<Path>)
    ensures KindOperation(kind).None? ==> r == []
    ensures |r| <= |paths|
    decreases |paths|
  {
    match KindOperation(kind)
    case None => []
    case Some(op) =>
      if paths == [] then []
      else
        (if Passes(paths[0], op, patterns) then [paths[0].path] else [])
        + Forwarded(kind, paths[1..], patterns)
  }

  /** A path is forwarded exactly when one of the event's paths passes the filter. */
  lemma {:induction false} ForwardedExactly(kind: EventKind, paths: seq<EventPath>, patterns: seq<string>, q: Path)
    requires KindOperation(kind).Some?
    ensures q in Forwarded(kind, paths, patterns)
            <==> exists i :: 0 <= i < |paths| && paths[i].path == q
                             && Passes(paths[i], KindOperation(kind).value, patterns)
    decreases |paths|
  {
    var op := KindOperation(kind).value;
    if paths != [] {
      ForwardedExactly(kind, paths[1..], patterns, q);
      var head := if Passes(paths[0], op, patterns) then [paths[0].path] else [];
      assert Forwarded(kind, paths, patterns) == head + Forwarded(kind, paths[1..], patterns);
      if exists i :: 0 <= i < |paths[1..]| && paths[1..][i].path == q && Passes(paths[1..][i], op, patterns) {
        var i :| 0 <= i < |paths[1..]| && paths[1..][i].path == q && Passes(paths[1..][i], op, patterns);
        assert paths[i + 1] == paths[1..][i];
      }
      if exists i :: 0 <= i < |paths| && paths[i].path == q && Passes(paths[i], op, patterns) {
        var i :| 0 <= i < |paths| && paths[i].path == q && Passes(paths[i], op, patterns);
        if i > 0 {
          assert paths[1..][i - 1] == paths[i];
        }
      }
    }
  }

  // ---------------------------------------------------------------------
  // The manager's bookkeeping
  // ---------------------------------------------------------------------

  /** A registered watcher: its root and the full pattern list its callback uses. */
  datatype Watch = Watch(root: string, patterns: seq<string>)

  /** `FileWatcherManager`: watchers and trackers, both keyed by session id. */
  datatype Manager = Manager(watchers: map<string, Watch>, trackers: map<string, Tracker>)

  /** What the filesystem says about the directory to watch. */
  datatype Dir = Dir(text: string, present: bool, isDir: bool)

  /** The two calls into notify: creating the watcher, then registering the root. */
  datatype WatchEnv = WatchEnv(create: IoResult, watch: IoResult)

  /** `start_watching`, from its validation on. */
  function StartWatching(m: Manager, sessionId: string, dir: Dir, custom: Option<seq<string>>, env: WatchEnv)
    : (r: (Manager, Result<(), Errors.AppError>))
    ensures !dir.present ==> r == (m, Err(Errors.DirectoryNotFoundError(dir.text)))
    ensures dir.present && !dir.isDir ==> r == (m, Err(Errors.InvalidInputError("Path must be a directory")))
    ensures r.1.Ok? <==> dir.present && dir.isDir && env.create.IoOk? && env.watch.IoOk?
    ensures r.1.Err? ==> r.0 == m
    ensures r.1.Ok? ==>
      && r.0.watchers == m.watchers[sessionId := Watch(dir.text, DefaultIgnorePatterns + custom.GetOr([]))]
      && r.0.trackers.Keys == m.trackers.Keys + {sessionId}
      // An existing tracker, with the writes it recorded, survives a restart of watching.
      && (sessionId in m.trackers ==> r.0.trackers == m.trackers)
      && (sessionId !in m.trackers ==> r.0.trackers[sessionId] == map[])
  {
    if !dir.present then (m, Err(Errors.DirectoryNotFoundError(dir.text)))
    else if !dir.isDir then (m, Err(Errors.InvalidInputError("Path must be a directory")))
    else if env.create.IoFailed? then
      (m, Err(Errors.New(Errors.Unknown, "Failed to create watcher: " + env.create.reason)))
    else if env.watch.IoFailed? then
      (m, Err(Errors.New(Errors.Unknown, "Failed to watch directory: " + env.watch.reason)))
    else
      var watchers := m.watchers[sessionId := Watch(dir.text, DefaultIgnorePatterns + custom.GetOr([]))];
      var trackers := if sessionId in m.trackers then m.trackers else m.trackers[sessionId := map[]];
      (Manager(watchers, trackers), Ok(()))
  }

  /** `stop_watching`: always succeeds and drops both the watcher and the tracker. */
  function StopWatching(m: Manager, sessionId: string): (r: (Manager, Result<(), Errors.AppError>))
    ensures r.1.Ok?
    ensures sessionId !in r.0.watchers && sessionId !in r.0.trackers
    ensures r.0.watchers.Keys == m.watchers.Keys - {sessionId}
    ensures r.0.trackers.Keys == m.trackers.Keys - {sessionId}
    ensures forall k :: k in r.0.watchers ==> r.0.watchers[k] == m.watchers[k]
    ensures forall k :: k in r.0.trackers ==> r.0.trackers[k] == m.trackers[k]
  {
    (Manager(m.watchers - {sessionId}, m.trackers - {sessionId}), Ok(()))
  }

  /** `FileWatcherManager::record_claude_modification`: a no-op for a session
      that has no tracker. */
  function RecordClaudeModification(m: Manager, sessionId: string, path: string, now: nat): (r: Manager)
    ensures sessionId !in m.trackers ==> r == m
    ensures sessionId in m.trackers ==> r.trackers == m.trackers[sessionId := Record(m.trackers[sessionId], path, now)]
    ensures r.watchers == m.watchers
  {
    if sessionId in m.trackers then
      m.(trackers := m.trackers[sessionId := Record(m.trackers[sessionId], path, now)])
    else m
  }

  /** The attribution step of the processing task for one debounced change:
      it looks the session's tracker up, creating an empty one if there is none. */
  function Attribute(m: Manager, sessionId: string, path: string, now: nat): (r: (ChangeSource, Manager))
    ensures r.0 == Claude <==>
      sessionId in m.trackers && path in m.trackers[sessionId] && Fresh(now, m.trackers[sessionId][path])
    ensures r.1.trackers.Keys == m.trackers.Keys + {sessionId}
    ensures r.1.watchers == m.watchers
  {
    var tr := if sessionId in m.trackers then m.trackers[sessionId] else map[];
    var d := DetermineSource(tr, path, now);
    (d.0, m.(trackers := m.trackers[sessionId := d.1]))
  }

  /** A write Claude reported for a watched session, followed within the window
      by a change to the same path, is attributed to Claude. */
  lemma ReportedWriteIsClaudes(m: Manager, sessionId: string, path: string, written: nat, now: nat)
    requires sessionId in m.trackers
    requires written <= now < written + AttributionWindow
    ensures Attribute(RecordClaudeModification(m, sessionId, path, written), sessionId, path, now).0 == Claude
  {
  }

  /** Once watching stopped, reported writes are forgotten, so the change
      counts as external; and a change still in the debounce queue brings
      back an (empty) tracker for the stopped session. */
  lemma StopForgetsWrites(m: Manager, sessionId: string, path: string, written: nat, now: nat)
    ensures var stopped := StopWatching(m, sessionId).0;
            var recorded := RecordClaudeModification(stopped, sessionId, path, written);
            var attributed := Attribute(recorded, sessionId, path, now);
            && recorded == stopped
            && attributed.0 == External
            && sessionId in attributed.1.trackers && sessionId !in attributed.1.watchers
  {
  }
}
