/**
 * The updaters of the task list kept by `useTasks` (a long-running "project
 * event" with a 0-100 progress and an optional change log). Each updater is
 * the function React applies to the previous list; the new id and the clock
 * readings (`Date.now()`, `new Date().toISOString()`) are parameters.
 */
module Tasks {
  import opened Wrappers
  import opened Lists

  /** One logged progress change. */
  datatype LogEntry = LogEntry(change: int, reason: string, timestamp: string)

  datatype ProjectEvent = ProjectEvent(
    id: string,
    title: string,
    description: string,
    progress: int,
    attributeRewards: Option<map<string, int>>,
    itemRewards: Option<seq<string>>,
    createdAt: string,
    completedAt: Option<string>,
    progressLog: Option<seq<LogEntry>>)

  /** `Omit<ProjectEvent, 'id' | 'createdAt'>`: what a caller of `addProjectEvent` supplies. */
  datatype ProjectEventData = ProjectEventData(
    title: string,
    description: string,
    progress: int,
    attributeRewards: Option<map<string, int>>,
    itemRewards: Option<seq<string>>,
    completedAt: Option<string>,
    progressLog: Option<seq<LogEntry>>)

  /** `Partial<ProjectEvent>`: a present field overrides the event's own. */
  datatype ProjectEventPatch = ProjectEventPatch(
    id: Option<string>,
    title: Option<string>,
    description: Option<string>,
    progress: Option<int>,
    attributeRewards: Option<map<string, int>>,
    itemRewards: Option<seq<string>>,
    createdAt: Option<string>,
    completedAt: Option<string>,
    progressLog: Option<seq<LogEntry>>)

  const EmptyPatch: ProjectEventPatch := ProjectEventPatch(None, None, None, None, None, None, None, None, None)

  function Override<T>(present: Option<T>, current: T): T {
    if present.Some? then present.value else current
  }

  /** An absent optional field overridden by a present one. */
  function OverrideOpt<T>(present: Option<T>, current: Option<T>): Option<T> {
    if present.Some? then present else current
  }

  // ---------------------------------------------------------------------------
  // The updaters
  // ---------------------------------------------------------------------------

  /** `{ id, ...data, createdAt }`. */
  function NewProjectEvent(data: ProjectEventData, id: string, createdAt: string): ProjectEvent {
    ProjectEvent(id, data.title, data.description, data.progress, data.attributeRewards,
                 data.itemRewards, createdAt, data.completedAt, data.progressLog)
  }

  /** `addProjectEvent`: the new event goes last; the existing ones are untouched. */
  function AddProjectEvent(events: seq<ProjectEvent>, data: ProjectEventData, id: string, createdAt: string): (r: seq<ProjectEvent>)
    ensures |r| == |events| + 1
    ensures r[..|events|] == events
    ensures r[|events|].id == id && r[|events|].createdAt == createdAt
    ensures r[|events|].title == data.title && r[|events|].description == data.description
    ensures r[|events|].progress == data.progress
    ensures r[|events|].attributeRewards == data.attributeRewards && r[|events|].itemRewards == data.itemRewards
    ensures r[|events|].completedAt == data.completedAt && r[|events|].progressLog == data.progressLog
  {
    events + [NewProjectEvent(data, id, createdAt)]
  }

  /** `{ ...event, ...updates }`. */
  function Merge(e: ProjectEvent, u: ProjectEventPatch): ProjectEvent {
    ProjectEvent(
      Override(u.id, e.id),
      Override(u.title, e.title),
      Override(u.description, e.description),
      Override(u.progress, e.progress),
      OverrideOpt(u.attributeRewards, e.attributeRewards),
      OverrideOpt(u.itemRewards, e.itemRewards),
      Override(u.createdAt, e.createdAt),
      OverrideOpt(u.completedAt, e.completedAt),
      OverrideOpt(u.progressLog, e.progressLog))
  }

  /** `editProjectEvent`. */
  function EditProjectEvent(events: seq<ProjectEvent>, id: string, updates: ProjectEventPatch): seq<ProjectEvent> {
    MapWhere(events, (e: ProjectEvent) => e.id == id, (e: ProjectEvent) => Merge(e, updates))
  }

  /** `reason || ''`. */
  function ReasonText(reason: Option<string>): string {
    if reason.Some? then reason.value else ""
  }

  /** The log an event has, `[]` when it has none. */
  function LogOf(e: ProjectEvent): seq<LogEntry> {
    if e.progressLog.Some? then e.progressLog.value else []
  }

  /** The branch of `updateProjectEvent` taken for a matching event whose progress changes. */
  function Progressed(e: ProjectEvent, progress: int, reason: Option<string>, timestamp: string): ProjectEvent {
    var entry := LogEntry(progress - e.progress, ReasonText(reason), timestamp);
    e.(progress := progress, progressLog := Some(LogOf(e) + [entry]))
  }

  /** `updateProjectEvent(id, progress, reason)`. */
  function UpdateProjectEvent(events: seq<ProjectEvent>, id: string, progress: int, reason: Option<string>, timestamp: string): seq<ProjectEvent> {
    MapWhere(events, (e: ProjectEvent) => e.id == id && e.progress != progress, (e: ProjectEvent) => Progressed(e, progress, reason, timestamp))
  }

  /** `completeProjectEvent(id)`. */
  function CompleteProjectEvent(events: seq<ProjectEvent>, id: string, completedAt: string): seq<ProjectEvent> {
    MapWhere(events, (e: ProjectEvent) => e.id == id, (e: ProjectEvent) => e.(completedAt := Some(completedAt), progress := 100))
  }

  /** `resetProjectEvent(id)`. */
  function ResetProjectEvent(events: seq<ProjectEvent>, id: string): seq<ProjectEvent> {
    MapWhere(events, (e: ProjectEvent) => e.id == id, (e: ProjectEvent) => e.(progress := 0, progressLog := Some([])))
  }

  /** `deleteProjectEvent(id)`. */
  function DeleteProjectEvent(events: seq<ProjectEvent>, id: string): seq<ProjectEvent> {
    Filter(events, (e: ProjectEvent) => e.id != id)
  }

  // ---------------------------------------------------------------------------
  // The progress log
  // ---------------------------------------------------------------------------

  function LogSum(log: seq<LogEntry>): int {
    if log == [] then 0 else log[0].change + LogSum(log[1..])
  }

  lemma {:induction false} LogSumAppend(log: seq<LogEntry>, entry: LogEntry)
    ensures LogSum(log + [entry]) == LogSum(log) + entry.change
  {
    if log != [] {
      assert (log + [entry])[1..] == log[1..] + [entry];
      LogSumAppend(log[1..], entry);
    }
  }

  /** The progress an event's log starts from: current progress minus the logged changes. */
  function Baseline(e: ProjectEvent): int {
    e.progress - LogSum(LogOf(e))
  }
}

/** What the task-list updaters promise. */
module TasksFacts {
  import opened Wrappers
  import opened Lists
  import opened Tasks

  predicate HasId(events: seq<ProjectEvent>, id: string) {
    exists i :: 0 <= i < |events| && events[i].id == id
  }

  /** Deleting a freshly added event gives back the original list. */
  lemma AddThenDelete(events: seq<ProjectEvent>, data: ProjectEventData, id: string, createdAt: string)
    requires !HasId(events, id)
    ensures DeleteProjectEvent(AddProjectEvent(events, data, id, createdAt), id) == events
  {
    var keep := (e: ProjectEvent) => e.id != id;
    FilterConcat(events, [NewProjectEvent(data, id, createdAt)], keep);
    FilterAllKept(events, keep);
  }

  /** Editing changes exactly the events with that id, each by merging the updates into it. */
  lemma EditEffect(events: seq<ProjectEvent>, id: string, updates: ProjectEventPatch)
    ensures var r := EditProjectEvent(events, id, updates);
      |r| == |events|
      && forall i :: 0 <= i < |events| ==>
           r[i] == if events[i].id == id then Merge(events[i], updates) else events[i]
  {
  }

  /** An edit with no fields is no change. */
  lemma EditEmptyIsIdentity(events: seq<ProjectEvent>, id: string)
    ensures EditProjectEvent(events, id, EmptyPatch) == events
  {
    var r := EditProjectEvent(events, id, EmptyPatch);
    assert forall i :: 0 <= i < |events| ==> r[i] == events[i];
  }

  /** Repeating an edit that keeps the id changes nothing more. */
  lemma EditIdempotent(events: seq<ProjectEvent>, id: string, updates: ProjectEventPatch)
    requires updates.id == None || updates.id == Some(id)
    ensures EditProjectEvent(EditProjectEvent(events, id, updates), id, updates) == EditProjectEvent(events, id, updates)
  {
    var once := EditProjectEvent(events, id, updates);
    var twice := EditProjectEvent(once, id, updates);
    forall i | 0 <= i < |events| ensures twice[i] == once[i] {
      if events[i].id == id {
        assert once[i] == Merge(events[i], updates);
      }
    }
  }

  /** A matching event whose progress changes gets the new progress and exactly one new log entry
      recording the difference, with the reason or `""`; nothing else about it changes. */
  lemma UpdateLogsOneEntry(events: seq<ProjectEvent>, id: string, progress: int, reason: Option<string>, timestamp: string, i: nat)
    requires i < |events| && events[i].id == id && events[i].progress != progress
    ensures var e, r := events[i], UpdateProjectEvent(events, id, progress, reason, timestamp)[i];
      r.progress == progress
      && LogOf(r) == LogOf(e) + [LogEntry(progress - e.progress, if reason.Some? then reason.value else "", timestamp)]
      && r.(progress := e.progress, progressLog := e.progressLog) == e
  {
  }

  /** No event with that id, or no change of progress: the list is returned as it was. */
  lemma UpdateUnchanged(events: seq<ProjectEvent>, id: string, progress: int, reason: Option<string>, timestamp: string)
    requires forall i :: 0 <= i < |events| && events[i].id == id ==> events[i].progress == progress
    ensures UpdateProjectEvent(events, id, progress, reason, timestamp) == events
  {
    var r := UpdateProjectEvent(events, id, progress, reason, timestamp);
    assert forall i :: 0 <= i < |events| ==> r[i] == events[i];
  }

  /** Updates keep every event's baseline: the logged changes always sum to the progress gained since the log began. */
  lemma UpdateKeepsBaseline(events: seq<ProjectEvent>, id: string, progress: int, reason: Option<string>, timestamp: string)
    ensures var r := UpdateProjectEvent(events, id, progress, reason, timestamp);
      |r| == |events| && forall i :: 0 <= i < |events| ==> Baseline(r[i]) == Baseline(events[i])
  {
    var r := UpdateProjectEvent(events, id, progress, reason, timestamp);
    forall i | 0 <= i < |events| ensures Baseline(r[i]) == Baseline(events[i]) {
      var e := events[i];
      if e.id == id && e.progress != progress {
        LogSumAppend(LogOf(e), LogEntry(progress - e.progress, ReasonText(reason), timestamp));
      }
    }
  }

  /** One call of `updateProjectEvent`. */
  datatype ProgressUpdate = ProgressUpdate(id: string, progress: int, reason: Option<string>, timestamp: string)

  function ApplyUpdates(events: seq<ProjectEvent>, us: seq<ProgressUpdate>): seq<ProjectEvent>
    decreases |us|
  {
    if us == [] then events
    else ApplyUpdates(UpdateProjectEvent(events, us[0].id, us[0].progress, us[0].reason, us[0].timestamp), us[1..])
  }

  /** Across any run of updates (and nothing else), each event's logged changes sum to its progress
      now minus its progress when its log was empty. */
  lemma {:induction false} UpdatesKeepBaseline(events: seq<ProjectEvent>, us: seq<ProgressUpdate>)
    ensures var r := ApplyUpdates(events, us);
      |r| == |events| && forall i :: 0 <= i < |events| ==> Baseline(r[i]) == Baseline(events[i])
    decreases |us|
  {
    if us != [] {
      var u := us[0];
      UpdateKeepsBaseline(events, u.id, u.progress, u.reason, u.timestamp);
      UpdatesKeepBaseline(UpdateProjectEvent(events, u.id, u.progress, u.reason, u.timestamp), us[1..]);
    }
  }

  /** Completing sets progress 100 and the completion time on the matching events only, without logging. */
  lemma CompleteEffect(events: seq<ProjectEvent>, id: string, completedAt: string)
    ensures var r := CompleteProjectEvent(events, id, completedAt);
      |r| == |events|
      && forall i :: 0 <= i < |events| ==>
           if events[i].id == id then
             r[i].progress == 100 && r[i].completedAt == Some(completedAt)
             && LogOf(r[i]) == LogOf(events[i])
             && Baseline(r[i]) == Baseline(events[i]) + 100 - events[i].progress
           else r[i] == events[i]
  {
  }

  /** Resetting zeroes progress and empties the log (baseline 0) but keeps the completion time. */
  lemma ResetEffect(events: seq<ProjectEvent>, id: string)
    ensures var r := ResetProjectEvent(events, id);
      |r| == |events|
      && forall i :: 0 <= i < |events| ==>
           if events[i].id == id then
             r[i].progress == 0 && r[i].progressLog == Some([]) && Baseline(r[i]) == 0
             && r[i].completedAt == events[i].completedAt
           else r[i] == events[i]
  {
  }

  /** Deleting removes every event with that id and keeps every other event; on a single event it is
      the empty list or that event, which with `DeleteConcat` fixes the order of the survivors. */
  lemma DeleteEffect(events: seq<ProjectEvent>, id: string)
    ensures var r := DeleteProjectEvent(events, id);
      (forall e :: e in r ==> e.id != id)
      && (forall e :: e in events && e.id != id ==> e in r)
      && !HasId(r, id)
    ensures forall e :: DeleteProjectEvent([e], id) == (if e.id == id then [] else [e])
  {
    var r := DeleteProjectEvent(events, id);
    forall e | e in r ensures e.id != id {
      var k :| 0 <= k < |r| && r[k] == e;
    }
    forall e | e in events && e.id != id ensures e in r {
      var k :| 0 <= k < |events| && events[k] == e;
    }
  }

  /** Deletion works piecewise: deleting from two lists joined is joining the two deletions. */
  lemma DeleteConcat(a: seq<ProjectEvent>, b: seq<ProjectEvent>, id: string)
    ensures DeleteProjectEvent(a + b, id) == DeleteProjectEvent(a, id) + DeleteProjectEvent(b, id)
  {
    FilterConcat(a, b, (e: ProjectEvent) => e.id != id);
  }

  /** Deleting an id nobody has changes nothing; deleting twice is deleting once. */
  lemma DeleteIdempotent(events: seq<ProjectEvent>, id: string)
    ensures !HasId(events, id) ==> DeleteProjectEvent(events, id) == events
    ensures DeleteProjectEvent(DeleteProjectEvent(events, id), id) == DeleteProjectEvent(events, id)
  {
    var keep := (e: ProjectEvent) => e.id != id;
    if !HasId(events, id) {
      FilterAllKept(events, keep);
    }
    FilterIdempotent(events, keep);
  }
}
