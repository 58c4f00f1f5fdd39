/** The source manager's table: start, resume, restart, wait, stop, remove, reap and write-back. */
module Lifecycle {
  import opened Results

  type Sid = nat
  type Task = nat
  type Spec = string
  type Dir = string

  // ---- Start options ----

  datatype Options = Options(
    classifier: Option<string>, encoding: Option<string>, detectionMode: Option<string>,
    namePattern: Option<string>, displayLabel: Option<string>)

  const DEFAULT_OPTIONS := Options(None, None, None, None, None)

  datatype Field = Classifier | Encoding | DetectionMode | NamePattern | DisplayLabel

  function Get(o: Options, f: Field): Option<string> {
    match f
    case Classifier => o.classifier
    case Encoding => o.encoding
    case DetectionMode => o.detectionMode
    case NamePattern => o.namePattern
    case DisplayLabel => o.displayLabel
  }

  function Or(a: Option<string>, b: Option<string>): Option<string> {
    if a.Some? then a else b
  }

  /** `merge_start_options`. */
  function Merge(base: Options, overrides: Options): Options {
    Options(Or(overrides.classifier, base.classifier), Or(overrides.encoding, base.encoding),
            Or(overrides.detectionMode, base.detectionMode), Or(overrides.namePattern, base.namePattern),
            Or(overrides.displayLabel, base.displayLabel))
  }

  /** Merging options is a monoid: it does not matter how a series of overrides is grouped. */
  lemma MergeMonoid(a: Options, b: Options, c: Options)
    ensures Merge(Merge(a, b), c) == Merge(a, Merge(b, c))
    ensures Merge(DEFAULT_OPTIONS, a) == a == Merge(a, DEFAULT_OPTIONS)
  {
  }

  lemma MergeGet(a: Options, b: Options, f: Field)
    ensures Get(Merge(a, b), f) == Or(Get(b, f), Get(a, f))
  {
  }

  // ---- The table ----

  datatype Entry = Entry(spec: Option<Spec>, dir: Option<Dir>, options: Options, handle: Option<Task>, sink: bool)

  /** Successful starts of spec-backed sources, and what each supplied. */
  datatype Event =
    | Started(sid: Sid, spec: Spec, dir: Option<Dir>, options: Options)
    | Restarted(sid: Sid, options: Options)

  /** `retired` holds the tasks that were aborted or awaited, or that had finished when they were dropped. */
  datatype State = State(
    root: bool, sources: map<Sid, Entry>, registry: set<Sid>, used: set<Sid>, started: set<Task>, retired: set<Task>,
    log: seq<Event>)

  function Init(root: bool): State {
    State(root, map[], {}, {}, {}, {}, [])
  }

  /** What opening a source comes to: an error, or a task and perhaps a sink to write to. */
  datatype Launch = Fails | Runs(task: Task, sink: bool)

  datatype Op =
    | Start(sid: Sid, spec: Spec, name: Dir, options: Options, launch: Launch)
    | StartEphemeral(sid: Sid, launch: Launch)
    | Resume(sid: Sid, finished: set<Task>, name: Dir, launch: Launch)
    | Restart(sid: Sid, overrides: Options, name: Dir, launch: Launch)
    | Wait(sid: Sid)
    | Stop(sid: Sid)
    | Remove(sid: Sid)
    | Reap(finished: set<Task>)
    | Write(sid: Sid, finished: set<Task>)

  /** `session_dir_for`. */
  function DirFor(root: bool, reuse: Option<Dir>, name: Dir): Option<Dir> {
    if reuse.Some? then reuse else if root then Some(name) else None
  }

  function IsFinished(e: Entry, finished: set<Task>): bool {
    e.handle.Some? && e.handle.value in finished
  }

  function Idle(e: Entry): Entry {
    e.(handle := None, sink := false)
  }

  function Held(e: Entry): set<Task> {
    if e.handle.Some? then {e.handle.value} else {}
  }

  /** The entry gives up its task and sink. */
  function Release(s: State, sid: Sid): (t: State)
    requires sid in s.sources
    ensures t == s.(sources := t.sources, retired := t.retired)
  {
    s.(sources := s.sources[sid := Idle(s.sources[sid])], retired := s.retired + Held(s.sources[sid]))
  }

  function DropFinished(s: State, sid: Sid, finished: set<Task>): (t: State)
    requires sid in s.sources
    ensures t == s.(sources := t.sources, retired := t.retired)
    ensures t.sources.Keys == s.sources.Keys
  {
    if IsFinished(s.sources[sid], finished) then Release(s, sid) else s
  }

  function Install(s: State, sid: Sid, e: Entry, task: Task): State {
    s.(sources := s.sources[sid := e.(handle := Some(task))], registry := s.registry + {sid}, used := s.used + {sid},
       started := s.started + {task})
  }

  /** `start_spec_with_sid` once it is known how opening the source came out. */
  function StartSpec(
    s: State, sid: Sid, spec: Spec, dir: Option<Dir>, name: Dir, options: Options, launch: Launch, e: Event): State
  {
    match launch
    case Fails => s
    case Runs(task, sink) =>
      var t := Install(s, sid, Entry(Some(spec), DirFor(s.root, dir, name), options, None, sink), task);
      t.(log := s.log + [e])
  }

  function ApplyResume(s: State, op: Op): State
    requires op.Resume?
  {
    if op.sid !in s.sources then s
    else
      var t := DropFinished(s, op.sid, op.finished);
      var e := t.sources[op.sid];
      if e.handle.Some? || e.spec.None? then t
      else StartSpec(t, op.sid, e.spec.value, e.dir, op.name, e.options, op.launch, Restarted(op.sid, DEFAULT_OPTIONS))
  }

  function ApplyRestart(s: State, op: Op): State
    requires op.Restart?
  {
    if op.sid !in s.sources || s.sources[op.sid].spec.None? then s
    else
      var e := s.sources[op.sid];
      StartSpec(Release(s, op.sid), op.sid, e.spec.value, e.dir, op.name, Merge(e.options, op.overrides), op.launch,
                Restarted(op.sid, op.overrides))
  }

  function ApplyWait(s: State, sid: Sid): State {
    if sid !in s.sources || s.sources[sid].handle.None? then s
    else
      var t := Release(s, sid);
      if s.sources[sid].spec.None? then t.(sources := t.sources - {sid}) else t
  }

  function ApplyRemove(s: State, sid: Sid): State {
    if sid !in s.sources then s.(registry := s.registry - {sid})
    else s.(sources := s.sources - {sid}, registry := s.registry - {sid}, retired := s.retired + Held(s.sources[sid]))
  }

  function Reaped(e: Entry, finished: set<Task>): Entry {
    if IsFinished(e, finished) then Idle(e) else e
  }

  function ApplyReap(s: State, finished: set<Task>): State {
    s.(sources := map sid | sid in s.sources
                              && (s.sources[sid].spec.Some? || Reaped(s.sources[sid], finished).handle.Some?)
                    :: Reaped(s.sources[sid], finished),
       retired := s.retired + (set sid | sid in s.sources && IsFinished(s.sources[sid], finished)
                                 :: s.sources[sid].handle.value))
  }

  function Apply(s: State, op: Op): State {
    match op
    case Start(sid, spec, name, options, launch) =>
      StartSpec(s, sid, spec, None, name, options, launch, Started(sid, spec, DirFor(s.root, None, name), options))
    case StartEphemeral(sid, launch) =>
      (match launch
       case Fails => s
       case Runs(task, _) => Install(s, sid, Entry(None, None, DEFAULT_OPTIONS, None, false), task))
    case Resume(_, _, _, _) => ApplyResume(s, op)
    case Restart(_, _, _, _) => ApplyRestart(s, op)
    case Wait(sid) => ApplyWait(s, sid)
    case Stop(sid) => if sid in s.sources then Release(s, sid) else s
    case Remove(sid) => ApplyRemove(s, sid)
    case Reap(finished) => ApplyReap(s, finished)
    case Write(sid, finished) => if sid in s.sources then DropFinished(s, sid, finished) else s
  }

  /** Session ids and tasks are new when they are made. */
  predicate Enabled(s: State, op: Op) {
    ((op.Start? || op.StartEphemeral?) ==> op.sid !in s.used)
    && ((op.Start? || op.StartEphemeral? || op.Resume? || op.Restart?) && op.launch.Runs? ==>
          op.launch.task !in s.started)
  }

  function Run(root: bool, ops: seq<Op>): Option<State> {
    if ops == [] then Some(Init(root))
    else
      var last := ops[|ops| - 1];
      match Run(root, ops[..|ops| - 1])
      case None => None
      case Some(s) => if Enabled(s, last) then Some(Apply(s, last)) else None
  }

  // ---- What the history says ----

  /** The spec and directory of the first start of `sid`. */
  function Origin(log: seq<Event>, sid: Sid): Option<(Spec, Option<Dir>)> {
    if log == [] then None
    else
      var earlier, last := Origin(log[..|log| - 1], sid), log[|log| - 1];
      if earlier.Some? then earlier
      else if last.sid == sid && last.Started? then Some((last.spec, last.dir))
      else None
  }

  /** The last value that a start of `sid` supplied for `f`. */
  function LastSupplied(log: seq<Event>, sid: Sid, f: Field): Option<string> {
    if log == [] then None
    else
      var last := log[|log| - 1];
      if last.sid == sid && Get(last.options, f).Some? then Get(last.options, f)
      else LastSupplied(log[..|log| - 1], sid, f)
  }

  /** The entry remembers its first start and the last value supplied for every option. */
  predicate Remembers(log: seq<Event>, sid: Sid, spec: Spec, dir: Option<Dir>, options: Options) {
    Origin(log, sid) == Some((spec, dir)) && forall f: Field :: Get(options, f) == LastSupplied(log, sid, f)
  }

  predicate Mentions(log: seq<Event>, sid: Sid) {
    exists i :: 0 <= i < |log| && log[i].sid == sid
  }

  lemma {:induction false} NeverMentioned(log: seq<Event>, sid: Sid, f: Field)
    requires !Mentions(log, sid)
    ensures Origin(log, sid) == None && LastSupplied(log, sid, f) == None
  {
    if log != [] {
      NeverMentioned(log[..|log| - 1], sid, f);
    }
  }

  lemma SnocHistory(log: seq<Event>, e: Event, sid: Sid, f: Field)
    ensures Origin(log + [e], sid) ==
      if Origin(log, sid).Some? then Origin(log, sid)
      else if e.sid == sid && e.Started? then Some((e.spec, e.dir)) else None
    ensures LastSupplied(log + [e], sid, f) ==
      if e.sid == sid then Or(Get(e.options, f), LastSupplied(log, sid, f)) else LastSupplied(log, sid, f)
  {
    assert (log + [e])[..|log + [e]| - 1] == log;
  }

  lemma OthersRemember(log: seq<Event>, e: Event, sid: Sid, spec: Spec, dir: Option<Dir>, options: Options)
    requires Remembers(log, sid, spec, dir, options) && e.sid != sid
    ensures Remembers(log + [e], sid, spec, dir, options)
  {
    forall f: Field ensures Get(options, f) == LastSupplied(log + [e], sid, f) {
      SnocHistory(log, e, sid, f);
    }
    SnocHistory(log, e, sid, Classifier);
  }

  lemma FirstRemember(log: seq<Event>, sid: Sid, spec: Spec, dir: Option<Dir>, options: Options)
    requires !Mentions(log, sid)
    ensures Remembers(log + [Started(sid, spec, dir, options)], sid, spec, dir, options)
  {
    var e := Started(sid, spec, dir, options);
    forall f: Field ensures Get(options, f) == LastSupplied(log + [e], sid, f) {
      SnocHistory(log, e, sid, f);
      NeverMentioned(log, sid, f);
    }
    SnocHistory(log, e, sid, Classifier);
    NeverMentioned(log, sid, Classifier);
  }

  lemma MergedRemember(log: seq<Event>, sid: Sid, spec: Spec, dir: Option<Dir>, options: Options, overrides: Options)
    requires Remembers(log, sid, spec, dir, options)
    ensures Remembers(log + [Restarted(sid, overrides)], sid, spec, dir, Merge(options, overrides))
  {
    var e := Restarted(sid, overrides);
    forall f: Field ensures Get(Merge(options, overrides), f) == LastSupplied(log + [e], sid, f) {
      SnocHistory(log, e, sid, f);
      MergeGet(options, overrides, f);
    }
    SnocHistory(log, e, sid, Classifier);
  }

  // ---- Invariants ----

  ghost predicate EntryOk(s: State, sid: Sid, e: Entry) {
    sid in s.used
    && (e.sink ==> e.handle.Some?)
    && (e.spec.Some? ==> Remembers(s.log, sid, e.spec.value, e.dir, e.options) && (e.dir.Some? <==> s.root))
  }

  ghost predicate Entries(s: State) {
    (forall sid :: sid in s.sources ==> EntryOk(s, sid, s.sources[sid]))
    && forall i :: 0 <= i < |s.log| ==> s.log[i].sid in s.used
  }

  predicate Holds(s: State, t: Task) {
    exists sid :: sid in s.sources && s.sources[sid].handle == Some(t)
  }

  /** The tasks that entries hold are started, not retired, and all different. */
  ghost predicate Owned(s: State) {
    s.retired <= s.started
    && (forall sid :: sid in s.sources && s.sources[sid].handle.Some? ==>
          s.sources[sid].handle.value in s.started && s.sources[sid].handle.value !in s.retired)
    && (forall a, b :: a in s.sources && b in s.sources && a != b && s.sources[a].handle.Some? ==>
          s.sources[a].handle != s.sources[b].handle)
  }

  /** Every task is held by one entry or retired, never both and never neither. */
  ghost predicate Tasks(s: State) {
    Owned(s) && forall t :: t in s.started ==> t in s.retired || Holds(s, t)
  }

  lemma ReleaseTasks(s: State, sid: Sid)
    requires Tasks(s) && sid in s.sources
    ensures Tasks(Release(s, sid)) && Release(s, sid).sources[sid].handle == None
  {
    var t := Release(s, sid);
    forall x | x in t.started ensures x in t.retired || Holds(t, x) {
      if x !in t.retired {
        var a :| a in s.sources && s.sources[a].handle == Some(x);
        assert t.sources[a].handle == Some(x);
      }
    }
  }

  lemma ReleaseEntries(s: State, sid: Sid)
    requires Entries(s) && sid in s.sources
    ensures Entries(Release(s, sid))
  {
    hide Remembers;
  }

  lemma InstallTasks(s: State, sid: Sid, e: Entry, task: Task)
    requires Tasks(s) && task !in s.started && (sid in s.sources ==> s.sources[sid].handle.None?)
    ensures Tasks(Install(s, sid, e, task))
  {
    var t := Install(s, sid, e, task);
    forall x | x in t.started ensures x in t.retired || Holds(t, x) {
      if x == task {
        assert t.sources[sid].handle == Some(x);
      } else if x !in t.retired {
        var a :| a in s.sources && s.sources[a].handle == Some(x);
        assert t.sources[a].handle == Some(x);
      }
    }
  }

  /** Taking away entries that hold no task. */
  lemma ForgetTasks(s: State, t: State)
    requires Tasks(s) && t == s.(sources := t.sources, registry := t.registry)
    requires forall sid :: sid in t.sources ==> sid in s.sources && t.sources[sid] == s.sources[sid]
    requires forall sid :: sid in s.sources && s.sources[sid].handle.Some? ==> sid in t.sources
    ensures Tasks(t)
  {
    forall x | x in t.started ensures x in t.retired || Holds(t, x) {
      if x !in t.retired {
        var a :| a in s.sources && s.sources[a].handle == Some(x);
        assert t.sources[a].handle == Some(x);
      }
    }
  }

  /** A spec-backed start of a source that holds no task. */
  lemma StartKeeps(
    s: State, sid: Sid, spec: Spec, dir: Option<Dir>, name: Dir, options: Options, launch: Launch, e: Event)
    requires Tasks(s) && Entries(s) && (sid in s.sources ==> s.sources[sid].handle.None?)
    requires (launch.Runs? ==> launch.task !in s.started) && (dir.Some? ==> s.root)
    requires e.sid == sid && Remembers(s.log + [e], sid, spec, DirFor(s.root, dir, name), options)
    ensures Tasks(StartSpec(s, sid, spec, dir, name, options, launch, e))
    ensures Entries(StartSpec(s, sid, spec, dir, name, options, launch, e))
  {
    if launch.Runs? {
      hide Remembers;
      var entry := Entry(Some(spec), DirFor(s.root, dir, name), options, None, launch.sink);
      InstallTasks(s, sid, entry, launch.task);
      var t := StartSpec(s, sid, spec, dir, name, options, launch, e);
      TasksIgnoreLog(Install(s, sid, entry, launch.task), t);
      forall a | a in t.sources ensures EntryOk(t, a, t.sources[a]) {
        if a != sid && t.sources[a].spec.Some? {
          assert EntryOk(s, a, s.sources[a]);
          OthersRemember(s.log, e, a, t.sources[a].spec.value, t.sources[a].dir, t.sources[a].options);
        }
      }
    }
  }

  lemma TasksIgnoreLog(s: State, t: State)
    requires Tasks(s) && t == s.(log := t.log)
    ensures Tasks(t)
  {
    forall x | x in t.started ensures x in t.retired || Holds(t, x) {
      if x !in t.retired {
        var a :| a in s.sources && s.sources[a].handle == Some(x);
        assert t.sources[a].handle == Some(x);
      }
    }
  }

  lemma FreshUnmentioned(s: State, sid: Sid)
    requires Entries(s) && sid !in s.used
    ensures sid !in s.sources && !Mentions(s.log, sid)
  {
    hide Remembers;
    assert sid in s.sources ==> EntryOk(s, sid, s.sources[sid]);
  }

  lemma StartOpKeeps(s: State, op: Op)
    requires Tasks(s) && Entries(s) && Enabled(s, op) && op.Start?
    ensures Tasks(Apply(s, op)) && Entries(Apply(s, op))
  {
    hide Remembers, Entries, Tasks, StartSpec;
    var dir := DirFor(s.root, None, op.name);
    FreshUnmentioned(s, op.sid);
    FirstRemember(s.log, op.sid, op.spec, dir, op.options);
    StartKeeps(s, op.sid, op.spec, None, op.name, op.options, op.launch, Started(op.sid, op.spec, dir, op.options));
  }

  lemma EphemeralKeeps(s: State, op: Op)
    requires Tasks(s) && Entries(s) && Enabled(s, op) && op.StartEphemeral?
    ensures Tasks(Apply(s, op)) && Entries(Apply(s, op))
  {
    hide Remembers;
    FreshUnmentioned(s, op.sid);
    if op.launch.Runs? {
      InstallTasks(s, op.sid, Entry(None, None, DEFAULT_OPTIONS, None, false), op.launch.task);
    }
  }

  lemma DropFinishedKeeps(s: State, sid: Sid, finished: set<Task>)
    requires Tasks(s) && Entries(s) && sid in s.sources
    ensures Tasks(DropFinished(s, sid, finished)) && Entries(DropFinished(s, sid, finished))
  {
    hide Tasks, Entries;
    if IsFinished(s.sources[sid], finished) {
      ReleaseTasks(s, sid);
      ReleaseEntries(s, sid);
    }
  }

  lemma EntryKnown(s: State, sid: Sid)
    requires Entries(s) && sid in s.sources
    ensures EntryOk(s, sid, s.sources[sid])
  {
  }

  lemma ResumeKeeps(s: State, op: Op)
    requires Tasks(s) && Entries(s) && Enabled(s, op) && op.Resume?
    ensures Tasks(Apply(s, op)) && Entries(Apply(s, op))
  {
    hide Tasks, Entries, StartSpec, DropFinished, Remembers;
    if op.sid in s.sources {
      DropFinishedKeeps(s, op.sid, op.finished);
      var t := DropFinished(s, op.sid, op.finished);
      var e := t.sources[op.sid];
      if e.handle.None? && e.spec.Some? {
        EntryKnown(t, op.sid);
        MergedRemember(t.log, op.sid, e.spec.value, e.dir, e.options, DEFAULT_OPTIONS);
        MergeMonoid(e.options, e.options, e.options);
        StartKeeps(t, op.sid, e.spec.value, e.dir, op.name, e.options, op.launch, Restarted(op.sid, DEFAULT_OPTIONS));
      }
    }
  }

  lemma RestartKeeps(s: State, op: Op)
    requires Tasks(s) && Entries(s) && Enabled(s, op) && op.Restart?
    ensures Tasks(Apply(s, op)) && Entries(Apply(s, op))
  {
    hide Tasks, Entries, StartSpec, Remembers, Merge;
    if op.sid in s.sources && s.sources[op.sid].spec.Some? {
      ReleaseTasks(s, op.sid);
      ReleaseEntries(s, op.sid);
      var e := s.sources[op.sid];
      EntryKnown(s, op.sid);
      MergedRemember(s.log, op.sid, e.spec.value, e.dir, e.options, op.overrides);
      StartKeeps(Release(s, op.sid), op.sid, e.spec.value, e.dir, op.name, Merge(e.options, op.overrides), op.launch,
                 Restarted(op.sid, op.overrides));
    }
  }

  lemma ForgetEntries(s: State, t: State)
    requires Entries(s) && t == s.(sources := t.sources, registry := t.registry)
    requires forall sid :: sid in t.sources ==> sid in s.sources && t.sources[sid] == s.sources[sid]
    ensures Entries(t)
  {
    hide Remembers;
  }

  lemma WaitKeeps(s: State, sid: Sid)
    requires Tasks(s) && Entries(s)
    ensures Tasks(ApplyWait(s, sid)) && Entries(ApplyWait(s, sid))
  {
    hide Tasks, Entries;
    if sid in s.sources {
      ReleaseTasks(s, sid);
      ReleaseEntries(s, sid);
      var t := Release(s, sid);
      ForgetTasks(t, t.(sources := t.sources - {sid}));
      ForgetEntries(t, t.(sources := t.sources - {sid}));
    }
  }

  lemma RemoveKeeps(s: State, sid: Sid)
    requires Tasks(s) && Entries(s)
    ensures Tasks(ApplyRemove(s, sid)) && Entries(ApplyRemove(s, sid))
  {
    hide Tasks, Entries;
    if sid in s.sources {
      ReleaseTasks(s, sid);
      ReleaseEntries(s, sid);
      var t := Release(s, sid);
      var u := t.(sources := t.sources - {sid}, registry := t.registry - {sid});
      ForgetTasks(t, u);
      ForgetEntries(t, u);
      assert u.sources == ApplyRemove(s, sid).sources;
    } else {
      ForgetTasks(s, ApplyRemove(s, sid));
      ForgetEntries(s, ApplyRemove(s, sid));
    }
  }

  lemma ReapShape(s: State, finished: set<Task>)
    ensures var t := ApplyReap(s, finished); t.started == s.started
    ensures forall sid :: sid in ApplyReap(s, finished).sources ==>
      sid in s.sources && ApplyReap(s, finished).sources[sid] == Reaped(s.sources[sid], finished)
    ensures forall sid :: sid in s.sources && Reaped(s.sources[sid], finished).handle.Some? ==>
      sid in ApplyReap(s, finished).sources
  {
  }

  lemma ReapRetires(s: State, finished: set<Task>)
    requires Tasks(s)
    ensures s.retired <= ApplyReap(s, finished).retired <= s.started
    ensures forall sid :: sid in s.sources && s.sources[sid].handle.Some? ==>
      (s.sources[sid].handle.value in ApplyReap(s, finished).retired <==> IsFinished(s.sources[sid], finished))
  {
    hide Holds;
  }

  lemma ReapOwned(s: State, finished: set<Task>)
    requires Tasks(s)
    ensures Owned(ApplyReap(s, finished))
  {
    hide ApplyReap, Holds;
    ReapShape(s, finished);
    ReapRetires(s, finished);
  }

  lemma ReapTasks(s: State, finished: set<Task>)
    requires Tasks(s)
    ensures Tasks(ApplyReap(s, finished))
  {
    hide ApplyReap, Owned;
    var t := ApplyReap(s, finished);
    ReapShape(s, finished);
    ReapRetires(s, finished);
    ReapOwned(s, finished);
    forall x | x in t.started ensures x in t.retired || Holds(t, x) {
      if x !in t.retired {
        assert Holds(s, x);
        var a :| a in s.sources && s.sources[a].handle == Some(x);
        assert t.sources[a].handle == Some(x);
      }
    }
  }

  lemma ReapEntries(s: State, finished: set<Task>)
    requires Entries(s)
    ensures Entries(ApplyReap(s, finished))
  {
    hide Remembers;
    var t := ApplyReap(s, finished);
    forall sid | sid in t.sources ensures EntryOk(t, sid, t.sources[sid]) {
      assert EntryOk(s, sid, s.sources[sid]);
    }
  }

  lemma OpKeeps(s: State, op: Op)
    requires Tasks(s) && Entries(s) && Enabled(s, op)
    ensures Tasks(Apply(s, op)) && Entries(Apply(s, op))
  {
    hide Tasks, Entries, StartSpec, Install, Release, DropFinished;
    hide ApplyResume, ApplyRestart, ApplyWait, ApplyRemove, ApplyReap;
    match op
    case Start(_, _, _, _, _) => StartOpKeeps(s, op);
    case StartEphemeral(_, _) => EphemeralKeeps(s, op);
    case Resume(_, _, _, _) => ResumeKeeps(s, op);
    case Restart(_, _, _, _) => RestartKeeps(s, op);
    case Wait(sid) => WaitKeeps(s, sid);
    case Stop(sid) =>
      if sid in s.sources {
        ReleaseTasks(s, sid);
        ReleaseEntries(s, sid);
      }
    case Remove(sid) => RemoveKeeps(s, sid);
    case Reap(finished) =>
      ReapTasks(s, finished);
      ReapEntries(s, finished);
    case Write(sid, finished) =>
      if sid in s.sources {
        DropFinishedKeeps(s, sid, finished);
      }
  }

  lemma {:induction false} RunKeeps(root: bool, ops: seq<Op>)
    requires Run(root, ops).Some?
    ensures Tasks(Run(root, ops).value) && Entries(Run(root, ops).value)
  {
    hide Apply, Enabled;
    if ops != [] {
      RunKeeps(root, ops[..|ops| - 1]);
      OpKeeps(Run(root, ops[..|ops| - 1]).value, ops[|ops| - 1]);
    }
  }

  // ---- Over every run ----

  /** A spec-backed source keeps the spec and directory of its first start, and each of its options is the last value
      that any of its starts supplied. */
  lemma SourceRemembersItsStarts(root: bool, ops: seq<Op>, sid: Sid, f: Field)
    requires Run(root, ops).Some? && sid in Run(root, ops).value.sources
    requires Run(root, ops).value.sources[sid].spec.Some?
    ensures var s := Run(root, ops).value; var e := s.sources[sid];
      Origin(s.log, sid) == Some((e.spec.value, e.dir)) && Get(e.options, f) == LastSupplied(s.log, sid, f)
  {
    RunKeeps(root, ops);
  }

  /** Nobody can write to a source that has no task. */
  lemma SinkNeedsTask(root: bool, ops: seq<Op>, sid: Sid)
    requires Run(root, ops).Some? && sid in Run(root, ops).value.sources
    ensures Run(root, ops).value.sources[sid].sink ==> Run(root, ops).value.sources[sid].handle.Some?
  {
    RunKeeps(root, ops);
  }

  /** No task is lost or shared: a task that was started is either retired, and then held by no entry, or held by
      exactly one. */
  lemma NoTaskIsLost(root: bool, ops: seq<Op>, t: Task)
    requires Run(root, ops).Some? && t in Run(root, ops).value.started
    ensures var s := Run(root, ops).value; t in s.retired <==> !Holds(s, t)
    ensures var s := Run(root, ops).value;
      forall a, b ::
        a in s.sources && b in s.sources && s.sources[a].handle == s.sources[b].handle == Some(t) ==> a == b
  {
    RunKeeps(root, ops);
  }

  // ---- What an entry holds, told from the operations ----

  /** The operation starts `sid` in this state: it makes the attempt, and opening the source succeeds. */
  predicate Launches(s: State, op: Op, sid: Sid, task: Task) {
    match op
    case Start(a, _, _, _, launch) => a == sid && launch.Runs? && launch.task == task
    case StartEphemeral(a, launch) => a == sid && launch.Runs? && launch.task == task
    case Resume(a, finished, _, launch) =>
      a == sid && launch.Runs? && launch.task == task && sid in s.sources && s.sources[sid].spec.Some?
      && (s.sources[sid].handle.Some? ==> s.sources[sid].handle.value in finished)
    case Restart(a, _, _, launch) =>
      a == sid && launch.Runs? && launch.task == task && sid in s.sources && s.sources[sid].spec.Some?
    case _ => false
  }

  /** A sink comes with the task, except that a source without a spec has none. */
  predicate Offers(op: Op) {
    (op.Start? || op.Resume? || op.Restart?) && op.launch.Runs? && op.launch.sink
  }

  /** The operation takes the task away from `sid`, if `sid` holds it. */
  predicate Releases(s: State, op: Op, sid: Sid, task: Task) {
    match op
    case Restart(a, _, _, _) => a == sid && sid in s.sources && s.sources[sid].spec.Some?
    case Wait(a) => a == sid
    case Stop(a) => a == sid
    case Remove(a) => a == sid
    case Resume(a, finished, _, _) => a == sid && task in finished
    case Write(a, finished) => a == sid && task in finished
    case Reap(finished) => task in finished
    case _ => false
  }

  predicate HoldsAt(s: State, sid: Sid, task: Task, sink: bool) {
    sid in s.sources && s.sources[sid].handle == Some(task) && s.sources[sid].sink == sink
  }

  lemma HeldByStart(s: State, op: Op, sid: Sid, task: Task, sink: bool)
    requires Entries(s) && Enabled(s, op) && (op.Start? || op.StartEphemeral?)
    ensures HoldsAt(Apply(s, op), sid, task, sink) <==>
      (Launches(s, op, sid, task) && sink == Offers(op))
      || (HoldsAt(s, sid, task, sink) && !Releases(s, op, sid, task))
  {
    hide Remembers, Mentions;
    FreshUnmentioned(s, op.sid);
  }

  lemma HeldByResume(s: State, op: Op, sid: Sid, task: Task, sink: bool)
    requires Owned(s) && Enabled(s, op) && op.Resume?
    ensures HoldsAt(Apply(s, op), sid, task, sink) <==>
      (Launches(s, op, sid, task) && sink == Offers(op))
      || (HoldsAt(s, sid, task, sink) && !Releases(s, op, sid, task))
  {
  }

  lemma HeldByRestart(s: State, op: Op, sid: Sid, task: Task, sink: bool)
    requires Owned(s) && Enabled(s, op) && op.Restart?
    ensures HoldsAt(Apply(s, op), sid, task, sink) <==>
      (Launches(s, op, sid, task) && sink == Offers(op))
      || (HoldsAt(s, sid, task, sink) && !Releases(s, op, sid, task))
  {
    hide Merge;
  }

  lemma HeldByOther(s: State, op: Op, sid: Sid, task: Task, sink: bool)
    requires !op.Start? && !op.StartEphemeral? && !op.Resume? && !op.Restart?
    ensures HoldsAt(Apply(s, op), sid, task, sink) <==> HoldsAt(s, sid, task, sink) && !Releases(s, op, sid, task)
  {
  }

  /** What one operation does to what `sid` holds. */
  lemma HeldByOp(s: State, op: Op, sid: Sid, task: Task, sink: bool)
    requires Owned(s) && Entries(s) && Enabled(s, op)
    ensures HoldsAt(Apply(s, op), sid, task, sink) <==>
      (Launches(s, op, sid, task) && sink == Offers(op))
      || (HoldsAt(s, sid, task, sink) && !Releases(s, op, sid, task))
  {
    hide Owned, Entries, Enabled, Apply, HoldsAt, Launches, Releases, Offers;
    match op
    case Start(_, _, _, _, _) => HeldByStart(s, op, sid, task, sink);
    case StartEphemeral(_, _) => HeldByStart(s, op, sid, task, sink);
    case Resume(_, _, _, _) => HeldByResume(s, op, sid, task, sink);
    case Restart(_, _, _, _) => HeldByRestart(s, op, sid, task, sink);
    case _ =>
      HeldByOther(s, op, sid, task, sink);
      NoLaunch(s, op, sid, task);
  }

  lemma NoLaunch(s: State, op: Op, sid: Sid, task: Task)
    requires !op.Start? && !op.StartEphemeral? && !op.Resume? && !op.Restart?
    ensures !Launches(s, op, sid, task)
  {
  }

  ghost predicate LaunchedAt(root: bool, ops: seq<Op>, k: int, sid: Sid, task: Task) {
    0 <= k < |ops| && Run(root, ops[..k]).Some? && Launches(Run(root, ops[..k]).value, ops[k], sid, task)
  }

  ghost predicate ReleasedAt(root: bool, ops: seq<Op>, k: int, sid: Sid, task: Task) {
    0 <= k < |ops| && Run(root, ops[..k]).Some? && Releases(Run(root, ops[..k]).value, ops[k], sid, task)
  }

  /** Operation `k` launched the task for `sid`, and none since has taken it away. */
  ghost predicate HeldSince(root: bool, ops: seq<Op>, k: int, sid: Sid, task: Task) {
    0 <= k < |ops| && LaunchedAt(root, ops, k, sid, task)
    && forall j :: k < j < |ops| ==> !ReleasedAt(root, ops, j, sid, task)
  }

  lemma SameFront(root: bool, ops: seq<Op>, k: nat, sid: Sid, task: Task)
    requires k < |ops| - 1
    ensures LaunchedAt(root, ops, k, sid, task) <==> LaunchedAt(root, ops[..|ops| - 1], k, sid, task)
    ensures ReleasedAt(root, ops, k, sid, task) <==> ReleasedAt(root, ops[..|ops| - 1], k, sid, task)
  {
    hide Run, Launches, Releases;
    assert ops[..|ops| - 1][..k] == ops[..k];
  }

  /** Some operation launched the task for `sid`, with or without a sink, and none since has taken it away. */
  ghost predicate Kept(root: bool, ops: seq<Op>, sid: Sid, task: Task, sink: bool) {
    exists k :: HeldSince(root, ops, k, sid, task) && sink == Offers(ops[k])
  }

  lemma KeptStep(root: bool, ops: seq<Op>, sid: Sid, task: Task, sink: bool)
    requires ops != []
    ensures var n := |ops| - 1;
      Kept(root, ops, sid, task, sink) <==>
      (LaunchedAt(root, ops, n, sid, task) && sink == Offers(ops[n]))
      || (Kept(root, ops[..n], sid, task, sink) && !ReleasedAt(root, ops, n, sid, task))
  {
    hide LaunchedAt, ReleasedAt, Offers;
    var n := |ops| - 1;
    var front := ops[..n];
    forall k | 0 <= k < n
      ensures LaunchedAt(root, ops, k, sid, task) <==> LaunchedAt(root, front, k, sid, task)
      ensures ReleasedAt(root, ops, k, sid, task) <==> ReleasedAt(root, front, k, sid, task)
    {
      SameFront(root, ops, k, sid, task);
    }
    if LaunchedAt(root, ops, n, sid, task) && sink == Offers(ops[n]) {
      assert HeldSince(root, ops, n, sid, task);
    }
    if Kept(root, front, sid, task, sink) && !ReleasedAt(root, ops, n, sid, task) {
      var k :| HeldSince(root, front, k, sid, task) && sink == Offers(front[k]);
      assert HeldSince(root, ops, k, sid, task);
    }
    if Kept(root, ops, sid, task, sink) {
      var k :| HeldSince(root, ops, k, sid, task) && sink == Offers(ops[k]);
      assert k < n ==> HeldSince(root, front, k, sid, task);
    }
  }

  /** In every run, `sid` holds a task, with or without a sink, if and only if an operation launched it so for `sid` and
      none since has taken it away. */
  lemma {:induction false} HeldIff(root: bool, ops: seq<Op>, sid: Sid, task: Task, sink: bool)
    requires Run(root, ops).Some?
    ensures HoldsAt(Run(root, ops).value, sid, task, sink) <==> Kept(root, ops, sid, task, sink)
  {
    hide Apply, Enabled, Launches, Releases, Offers, HoldsAt;
    if ops == [] {
      NothingHeld(root, sid, task, sink);
    } else {
      hide Kept;
      var n := |ops| - 1;
      RunKeeps(root, ops[..n]);
      HeldIff(root, ops[..n], sid, task, sink);
      HeldByOp(Run(root, ops[..n]).value, ops[n], sid, task, sink);
      KeptStep(root, ops, sid, task, sink);
    }
  }

  lemma NothingHeld(root: bool, sid: Sid, task: Task, sink: bool)
    ensures !HoldsAt(Init(root), sid, task, sink)
  {
  }

  lemma LaunchStarts(s: State, op: Op, sid: Sid, task: Task)
    requires Enabled(s, op)
    ensures Launches(s, op, sid, task) ==> task !in s.started && task in Apply(s, op).started
    ensures s.started <= Apply(s, op).started
  {
    hide Merge;
  }

  lemma {:induction false} StaysStarted(root: bool, ops: seq<Op>, k: nat, sid: Sid, task: Task)
    requires Run(root, ops).Some? && LaunchedAt(root, ops, k, sid, task)
    ensures task in Run(root, ops).value.started
  {
    hide Apply, Enabled, Launches;
    var n := |ops| - 1;
    LaunchStarts(Run(root, ops[..n]).value, ops[n], sid, task);
    if k < n {
      SameFront(root, ops, k, sid, task);
      StaysStarted(root, ops[..n], k, sid, task);
    }
  }

  lemma {:induction false} RunPrefix(root: bool, ops: seq<Op>, k: nat)
    requires Run(root, ops).Some? && k < |ops|
    ensures Run(root, ops[..k]).Some? && Enabled(Run(root, ops[..k]).value, ops[k])
  {
    hide Apply, Enabled;
    if k < |ops| - 1 {
      RunPrefix(root, ops[..|ops| - 1], k);
      assert ops[..|ops| - 1][..k] == ops[..k];
    }
  }

  /** A task is launched at most once. */
  lemma LaunchedOnce(root: bool, ops: seq<Op>, j: nat, k: nat, a: Sid, b: Sid, task: Task)
    requires Run(root, ops).Some? && LaunchedAt(root, ops, j, a, task) && LaunchedAt(root, ops, k, b, task)
    ensures j >= k
  {
    if j < k {
      RunPrefix(root, ops, k);
      hide Run, Apply, Launches;
      assert ops[..k][..j] == ops[..j] && ops[..k][j] == ops[j];
      StaysStarted(root, ops[..k], j, a, task);
      LaunchStarts(Run(root, ops[..k]).value, ops[k], b, task);
    }
  }

  /** In every run, an entry has a sink exactly as the operation that launched its task provided. */
  lemma SinkAsLaunched(root: bool, ops: seq<Op>, sid: Sid, k: nat, a: Sid)
    requires Run(root, ops).Some? && sid in Run(root, ops).value.sources
    requires Run(root, ops).value.sources[sid].handle.Some?
    requires LaunchedAt(root, ops, k, a, Run(root, ops).value.sources[sid].handle.value)
    ensures Run(root, ops).value.sources[sid].sink == Offers(ops[k])
  {
    hide Run, Launches, Releases, Offers;
    var e := Run(root, ops).value.sources[sid];
    HeldIff(root, ops, sid, e.handle.value, e.sink);
    var j :| HeldSince(root, ops, j, sid, e.handle.value) && e.sink == Offers(ops[j]);
    LaunchedOnce(root, ops, j, k, sid, a, e.handle.value);
    LaunchedOnce(root, ops, k, j, a, sid, e.handle.value);
  }

  /** A write after this run would reach a sink. */
  ghost predicate AcceptsWrite(s: State, sid: Sid, finished: set<Task>) {
    exists t :: HoldsAt(s, sid, t, true) && t !in finished
  }

  ghost predicate WritableSince(root: bool, ops: seq<Op>, k: int, sid: Sid, task: Task, finished: set<Task>) {
    HeldSince(root, ops, k, sid, task) && Offers(ops[k]) && task !in finished
  }

  /** The exact condition, on the operations, for a write to be accepted: one of them launched a task with a sink for
      `sid`, none since has taken it away, and it has not finished. */
  lemma WriteAcceptedIff(root: bool, ops: seq<Op>, sid: Sid, finished: set<Task>)
    requires Run(root, ops).Some?
    ensures AcceptsWrite(Run(root, ops).value, sid, finished) <==>
      exists k, t :: WritableSince(root, ops, k, sid, t, finished)
  {
    hide Run, LaunchedAt, ReleasedAt, HoldsAt, Offers;
    forall t: Task ensures HoldsAt(Run(root, ops).value, sid, t, true) <==> Kept(root, ops, sid, t, true) {
      HeldIff(root, ops, sid, t, true);
    }
    if AcceptsWrite(Run(root, ops).value, sid, finished) {
      var t :| HoldsAt(Run(root, ops).value, sid, t, true) && t !in finished;
      var k :| HeldSince(root, ops, k, sid, t) && true == Offers(ops[k]);
      assert WritableSince(root, ops, k, sid, t, finished);
    }
    if k, t :| WritableSince(root, ops, k, sid, t, finished) {
      assert HeldSince(root, ops, k, sid, t) && true == Offers(ops[k]);
    }
  }

  // ---- The manager ----

  datatype Problem = UnknownSid | AlreadyActive | NotResumable | OpenFailed | NotWritable

  class SourceManager {
    const root: bool
    var sources: map<Sid, Entry>
    var registry: set<Sid>
    ghost var used: set<Sid>
    ghost var started: set<Task>
    ghost var retired: set<Task>
    ghost var log: seq<Event>

    ghost function View(): State
      reads this
    {
      State(root, sources, registry, used, started, retired, log)
    }

    ghost predicate Valid()
      reads this
    {
      Tasks(View()) && Entries(View())
    }

    constructor (root: bool)
      ensures Valid() && View() == Init(root)
    {
      this.root, sources, registry := root, map[], {};
      used, started, retired, log := {}, {}, {}, [];
    }

    /** Records a task that has registered its session. */
    method Insert(sid: Sid, e: Entry, task: Task)
      modifies this
      ensures View() == Install(old(View()), sid, e, task)
    {
      sources := sources[sid := e.(handle := Some(task))];
      registry := registry + {sid};
      used, started := used + {sid}, started + {task};
    }

    method LaunchSpec(
      sid: Sid, spec: Spec, dir: Option<Dir>, name: Dir, options: Options, launch: Launch, ghost e: Event)
      returns (r: Result<Sid, Problem>)
      modifies this
      ensures View() == StartSpec(old(View()), sid, spec, dir, name, options, launch, e)
      ensures r == if launch.Runs? then Ok(sid) else Err(OpenFailed)
    {
      var sessionDir := DirFor(root, dir, name);
      match launch
      case Fails =>
        return Err(OpenFailed);
      case Runs(task, sink) =>
        Insert(sid, Entry(Some(spec), sessionDir, options, None, sink), task);
        log := log + [e];
        return Ok(sid);
    }

    method Start(sid: Sid, spec: Spec, name: Dir, options: Options, launch: Launch) returns (r: Result<Sid, Problem>)
      requires Valid() && Enabled(View(), Op.Start(sid, spec, name, options, launch))
      modifies this
      ensures Valid() && View() == Apply(old(View()), Op.Start(sid, spec, name, options, launch))
      ensures r == if launch.Runs? then Ok(sid) else Err(OpenFailed)
      ensures launch.Runs? ==> sid in registry && sources == old(sources)[sid :=
        Entry(Some(spec), if root then Some(name) else None, options, Some(launch.task), launch.sink)]
      ensures launch.Fails? ==> sources == old(sources) && registry == old(registry)
    {
      hide Tasks, Entries;
      OpKeeps(View(), Op.Start(sid, spec, name, options, launch));
      r := LaunchSpec(sid, spec, None, name, options, launch, Started(sid, spec, DirFor(root, None, name), options));
    }

    /** Only a known, spec-backed source without a running task is resumed; it keeps its options. */
    method Resume(sid: Sid, finished: set<Task>, name: Dir, launch: Launch) returns (r: Result<Sid, Problem>)
      requires Valid() && Enabled(View(), Op.Resume(sid, finished, name, launch))
      modifies this
      ensures Valid() && View() == Apply(old(View()), Op.Resume(sid, finished, name, launch))
      ensures r.Ok? <==> sid in old(sources) && old(sources)[sid].spec.Some? && launch.Runs?
                         && (old(sources)[sid].handle.Some? ==> old(sources)[sid].handle.value in finished)
      ensures r.Ok? ==> sources == old(sources)[sid :=
        old(sources)[sid].(handle := Some(launch.task), sink := launch.sink)]
    {
      hide Tasks, Entries;
      OpKeeps(View(), Op.Resume(sid, finished, name, launch));
      if sid !in sources {
        return Err(UnknownSid);
      }
      EntryKnown(View(), sid);
      DropIfFinished(sid, finished);
      var e := sources[sid];
      if e.handle.Some? {
        return Err(AlreadyActive);
      }
      if e.spec.None? {
        return Err(NotResumable);
      }
      r := LaunchSpec(sid, e.spec.value, e.dir, name, e.options, launch, Restarted(sid, DEFAULT_OPTIONS));
    }

    method DropIfFinished(sid: Sid, finished: set<Task>)
      requires sid in sources
      modifies this
      ensures View() == DropFinished(old(View()), sid, finished)
    {
      var e := sources[sid];
      if e.handle.Some? && e.handle.value in finished {
        sources := sources[sid := e.(handle := None, sink := false)];
        retired := retired + {e.handle.value};
      }
    }

    /** The running task, if any, is aborted even when the new start then fails; the options change only when it
        succeeds. */
    method Restart(sid: Sid, overrides: Options, name: Dir, launch: Launch) returns (r: Result<Sid, Problem>)
      requires Valid() && Enabled(View(), Op.Restart(sid, overrides, name, launch))
      modifies this
      ensures Valid() && View() == Apply(old(View()), Op.Restart(sid, overrides, name, launch))
      ensures r.Ok? <==> sid in old(sources) && old(sources)[sid].spec.Some? && launch.Runs?
      ensures sid in old(sources) && r.Err? ==> sid in sources && sources[sid].options == old(sources)[sid].options
      ensures r.Ok? ==> sid in sources && sources == old(sources)[sid :=
        old(sources)[sid].(options := sources[sid].options, handle := Some(launch.task), sink := launch.sink)]
      ensures r.Ok? ==> forall f: Field ::
        Get(sources[sid].options, f) ==
        (if Get(overrides, f).Some? then Get(overrides, f) else Get(old(sources)[sid].options, f))
    {
      hide Tasks, Entries, Merge;
      OpKeeps(View(), Op.Restart(sid, overrides, name, launch));
      if sid !in sources {
        return Err(UnknownSid);
      }
      EntryKnown(View(), sid);
      var e := sources[sid];
      if e.spec.None? {
        return Err(NotResumable);
      }
      sources := sources[sid := e.(handle := None, sink := false)];
      retired := retired + Held(e);
      r := LaunchSpec(sid, e.spec.value, e.dir, name, Merge(e.options, overrides), launch, Restarted(sid, overrides));
      if r.Err? {
        LaunchFailed(old(View()), sid, overrides, name, launch);
      } else {
        forall f: Field ensures Get(Merge(e.options, overrides), f) == Or(Get(overrides, f), Get(e.options, f)) {
          MergeGet(e.options, overrides, f);
        }
      }
    }

    /** Awaits the task; the entry of a source without a spec goes with it. */
    method Wait(sid: Sid) returns (waited: bool)
      requires Valid()
      modifies this
      ensures Valid() && View() == Apply(old(View()), Op.Wait(sid))
      ensures waited <==> sid in old(sources) && old(sources)[sid].handle.Some?
      ensures !waited ==> sources == old(sources)
      ensures waited && old(sources)[sid].spec.None? ==> sources == old(sources) - {sid}
      ensures waited && old(sources)[sid].spec.Some? ==>
        sources == old(sources)[sid := old(sources)[sid].(handle := None, sink := false)]
    {
      hide Tasks, Entries;
      OpKeeps(View(), Op.Wait(sid));
      if sid !in sources || sources[sid].handle.None? {
        return false;
      }
      var e := sources[sid];
      sources := sources[sid := e.(handle := None)];
      retired := retired + {e.handle.value};
      sources := sources[sid := e.(handle := None, sink := false)];
      assert sources == old(sources)[sid := Idle(e)];
      if e.spec.None? {
        sources := sources - {sid};
      }
      return true;
    }

    method Stop(sid: Sid) returns (stopped: bool)
      requires Valid()
      modifies this
      ensures Valid() && View() == Apply(old(View()), Op.Stop(sid))
      ensures stopped <==> sid in old(sources) && old(sources)[sid].handle.Some?
      ensures sid !in old(sources) ==> sources == old(sources)
      ensures sid in old(sources) ==>
        sources == old(sources)[sid := old(sources)[sid].(handle := None, sink := false)]
    {
      hide Tasks, Entries;
      OpKeeps(View(), Op.Stop(sid));
      if sid !in sources {
        return false;
      }
      var e := sources[sid];
      sources := sources[sid := e.(handle := None, sink := false)];
      retired := retired + Held(e);
      return e.handle.Some?;
    }

    method Remove(sid: Sid) returns (removed: bool)
      requires Valid()
      modifies this
      ensures Valid() && View() == Apply(old(View()), Op.Remove(sid))
      ensures sources == old(sources) - {sid} && registry == old(registry) - {sid}
      ensures removed <==> sid in old(sources) || sid in old(registry)
    {
      hide Tasks, Entries;
      OpKeeps(View(), Op.Remove(sid));
      var known := sid in sources;
      if known {
        retired := retired + Held(sources[sid]);
        sources := sources - {sid};
      }
      removed := known || sid in registry;
      registry := registry - {sid};
    }

    method ReapFinished(finished: set<Task>)
      requires Valid()
      modifies this
      ensures Valid() && View() == Apply(old(View()), Reap(finished))
      ensures forall sid :: sid in sources <==>
        sid in old(sources) && (old(sources)[sid].spec.Some?
                                || (old(sources)[sid].handle.Some? && old(sources)[sid].handle.value !in finished))
      ensures forall sid :: sid in sources ==>
        sources[sid] ==
        (if old(sources)[sid].handle.Some? && old(sources)[sid].handle.value in finished
         then old(sources)[sid].(handle := None, sink := false) else old(sources)[sid])
    {
      hide Tasks, Entries;
      OpKeeps(View(), Reap(finished));
      retired := ApplyReap(View(), finished).retired;
      sources := map sid | sid in sources && (sources[sid].spec.Some? || Reaped(sources[sid], finished).handle.Some?)
                   :: Reaped(sources[sid], finished);
    }

    /** A write reaches a sink exactly when the source has one and its task has not finished. */
    method Write(sid: Sid, finished: set<Task>) returns (r: Result<(), Problem>)
      requires Valid()
      modifies this
      ensures Valid() && View() == Apply(old(View()), Op.Write(sid, finished))
      ensures r.Ok? <==> sid in old(sources) && old(sources)[sid].sink && old(sources)[sid].handle.Some?
                         && old(sources)[sid].handle.value !in finished
      ensures r.Ok? <==> AcceptsWrite(old(View()), sid, finished)
    {
      OpKeeps(View(), Op.Write(sid, finished));
      if sid !in sources {
        return Err(UnknownSid);
      }
      EntryKnown(View(), sid);
      DropIfFinished(sid, finished);
      return if sources[sid].sink then Ok(()) else Err(NotWritable);
    }
  }

  lemma LaunchFailed(s: State, sid: Sid, overrides: Options, name: Dir, launch: Launch)
    requires sid in s.sources && launch.Fails?
    ensures sid in Apply(s, Restart(sid, overrides, name, launch)).sources
    ensures Apply(s, Restart(sid, overrides, name, launch)).sources[sid].options == s.sources[sid].options
  {
  }
}
