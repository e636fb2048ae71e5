/** The learning progress tracker (learning_progress_tracker.py): a map from
    task text to status for the active career, seeded from the saved file,
    kept in step with the current task list, summarised on the dashboard and
    merged back into the file on save. */
module Progress {
  import opened Wrappers

  /** The three statuses the tracker offers. Stored maps may hold any string. */
  const NotStarted: string := "Not Started"
  const InProgress: string := "In Progress"
  const Completed: string := "Completed"

  /** Task text to status, for one career. */
  type ProgressMap = map<string, string>

  /** The progress file's contents: career name to progress map. */
  type SavedProgress = map<string, ProgressMap>

  /** The progress file as the tracker finds it: absent, present but failing
      to open or parse, or holding a decoded mapping. */
  datatype ProgressFile = Missing | Unreadable | Stored(data: SavedProgress)

  /** `m.get(k, default)` */
  function Lookup(m: ProgressMap, k: string, default: string): (r: string)
    ensures k in m ==> r == m[k]
    ensures k !in m ==> r == default
  {
    Get(m, k).GetOr(default)
  }

  // ---------------------------------------------------------------- load

  /** Best-effort load (learning_progress_tracker.py:23-29): a missing or
      unreadable file reads as the empty mapping, never as an error. */
  function LoadSaved(file: ProgressFile): (r: SavedProgress)
    ensures file.Stored? ==> r == file.data
    ensures !file.Stored? ==> r == map[]
  {
    match file
    case Stored(data) => data
    case _ => map[]
  }

  /** `saved.get(career, {t: "Not Started" for t in tasks})`
      (learning_progress_tracker.py:32): the saved entry when there is one,
      otherwise every current task not started. */
  function InitialProgress(saved: SavedProgress, career: string, tasks: seq<string>): (r: ProgressMap)
    ensures career in saved ==> r == saved[career]
    ensures career !in saved ==> forall t :: t in r <==> t in tasks
    ensures career !in saved ==> forall t :: t in r ==> r[t] == NotStarted
  {
    if career in saved then saved[career]
    else map t | t in tasks :: NotStarted
  }

  // ---------------------------------------------------------------- session

  /** The map an existing session ends with after reconciliation: exactly the
      current tasks, keeping session values and filling new tasks from the
      initial progress. */
  ghost predicate Reconciled(session: ProgressMap, initial: ProgressMap, tasks: seq<string>, r: ProgressMap) {
    && (forall t :: t in r <==> t in tasks)
    && (forall t :: t in r && t in session ==> r[t] == session[t])
    && (forall t :: t in r && t !in session ==> r[t] == Lookup(initial, t, NotStarted))
  }

  /** Reconciling an existing session map with the current task list
      (learning_progress_tracker.py:38-45): first add every missing task,
      then delete every key that is no longer a task. */
  method Reconcile(session: ProgressMap, initial: ProgressMap, tasks: seq<string>) returns (r: ProgressMap)
    ensures Reconciled(session, initial, tasks, r)
  {
    r := session;
    var i := 0;
    while i < |tasks|
      invariant 0 <= i <= |tasks|
      invariant forall k :: k in r <==> k in session || k in tasks[..i]
      invariant forall k :: k in session ==> r[k] == session[k]
      invariant forall k :: k in r && k !in session ==> r[k] == Lookup(initial, k, NotStarted)
    {
      var t := tasks[i];
      if t !in r {
        r := r[t := Lookup(initial, t, NotStarted)];
      }
      assert tasks[..i + 1] == tasks[..i] + [t];
      i := i + 1;
    }
    assert tasks[..i] == tasks;
    ghost var added := r;
    var toRemove := set k | k in r && k !in tasks;
    while toRemove != {}
      invariant toRemove <= r.Keys
      invariant forall k :: k in r <==> k in added && (k in tasks || k in toRemove)
      invariant forall k :: k in r ==> r[k] == added[k]
      decreases toRemove
    {
      var k :| k in toRemove;
      r := r - {k};
      toRemove := toRemove - {k};
    }
  }

  /** Session initialisation (learning_progress_tracker.py:35-45): a first
      visit copies the initial progress as it is, possibly with keys outside
      the current tasks; a later visit reconciles the existing map. */
  method InitSession(session: Option<ProgressMap>, initial: ProgressMap, tasks: seq<string>)
    returns (r: ProgressMap)
    ensures session.None? ==> r == initial
    ensures session.Some? ==> Reconciled(session.value, initial, tasks, r)
  {
    match session
    case None =>
      r := initial;
    case Some(p) =>
      r := Reconcile(p, initial, tasks);
  }

  // ---------------------------------------------------------------- status change

  /** `_on_change_task_status` (learning_progress_tracker.py:48-56): write the
      widget's value for one task; no value leaves the map unchanged. Any
      status may replace any other, and the key need not exist beforehand. */
  function SetStatus(progress: ProgressMap, task: string, newVal: Option<string>): (r: ProgressMap)
    ensures newVal.None? ==> r == progress
    ensures newVal.Some? ==> task in r && r[task] == newVal.value
    ensures forall t :: t != task ==> (t in r <==> t in progress)
    ensures forall t :: t != task && t in r ==> r[t] == progress[t]
    ensures task in progress ==> r.Keys == progress.Keys
  {
    match newVal
    case None => progress
    case Some(v) => progress[task := v]
  }

  /** A status change can always be taken back: writing the old value again
      restores the map exactly. */
  lemma SetStatusUndo(progress: ProgressMap, task: string, v: string)
    requires task in progress
    ensures SetStatus(SetStatus(progress, task, Some(v)), task, Some(progress[task])) == progress
  {
    var r := SetStatus(SetStatus(progress, task, Some(v)), task, Some(progress[task]));
    assert r.Keys == progress.Keys;
  }

  // ---------------------------------------------------------------- dashboard

  /** The tuple `compute_stats` returns. */
  datatype Stats = Stats(total: nat, completed: nat, inProgress: nat, pending: int, percent: real)

  /** `sum(1 for t in tasks if progress.get(t) == status)` */
  function Count(tasks: seq<string>, progress: ProgressMap, status: string): (n: nat)
    ensures n <= |tasks|
  {
    if tasks == [] then 0
    else (if Get(progress, tasks[0]) == Some(status) then 1 else 0) + Count(tasks[1..], progress, status)
  }

  /** A task still to do: no status recorded, or one that is neither
      "Completed" nor "In Progress". */
  predicate IsPending(progress: ProgressMap, t: string) {
    t !in progress || (progress[t] != Completed && progress[t] != InProgress)
  }

  /** The number of pending tasks, counted directly. */
  function CountPending(tasks: seq<string>, progress: ProgressMap): (n: nat)
    ensures n <= |tasks|
  {
    if tasks == [] then 0
    else (if IsPending(progress, tasks[0]) then 1 else 0) + CountPending(tasks[1..], progress)
  }

  /** Every task is completed, pending or in progress, and only one of them. */
  lemma {:induction false} CountsPartition(tasks: seq<string>, progress: ProgressMap)
    ensures Count(tasks, progress, Completed) + Count(tasks, progress, InProgress)
            + CountPending(tasks, progress) == |tasks|
  {
    if tasks != [] {
      CountsPartition(tasks[1..], progress);
    }
  }

  /** `compute_stats` (learning_progress_tracker.py:61-67). The percentage is
      an exact rational here. */
  function ComputeStats(progress: ProgressMap, tasks: seq<string>): (r: Stats)
    ensures r.total == |tasks|
    ensures r.completed == Count(tasks, progress, Completed)
    ensures r.inProgress == Count(tasks, progress, InProgress)
    ensures r.completed + r.inProgress + r.pending == r.total
    ensures r.pending >= 0 && r.pending == CountPending(tasks, progress)
    ensures 0.0 <= r.percent <= 100.0
    ensures r.total == 0 ==> r.percent == 0.0
    ensures r.total > 0 ==> r.percent == (r.completed as real / r.total as real) * 100.0
  {
    var total := |tasks|;
    var completed := Count(tasks, progress, Completed);
    var inProgress := Count(tasks, progress, InProgress);
    CountsPartition(tasks, progress);
    var percent := if total != 0 then (completed as real / total as real) * 100.0 else 0.0;
    assert total != 0 ==> completed as real / total as real <= 1.0 by {
      if total != 0 {
        DivAtMostOne(completed as real, total as real);
      }
    }
    Stats(total, completed, inProgress, total - completed - inProgress, percent)
  }

  lemma DivAtMostOne(a: real, b: real)
    requires 0.0 <= a <= b && b > 0.0
    ensures 0.0 <= a / b <= 1.0
  {
  }

  /** The "all tasks completed" banner (learning_progress_tracker.py:74). */
  predicate AllCompleted(s: Stats) {
    s.total > 0 && s.completed == s.total
  }

  /** The completed count reaches the task count exactly when every task's
      status is "Completed". */
  lemma {:induction false} CountFull(tasks: seq<string>, progress: ProgressMap)
    ensures Count(tasks, progress, Completed) == |tasks|
            <==> forall i :: 0 <= i < |tasks| ==> tasks[i] in progress && progress[tasks[i]] == Completed
  {
    if tasks != [] {
      CountFull(tasks[1..], progress);
      assert forall i :: 1 <= i < |tasks| ==> tasks[i] == tasks[1..][i - 1];
    }
  }

  /** The banner shows exactly when there are tasks and every one of them is
      recorded as completed, which is also exactly when the bar is full. */
  lemma AllCompletedIff(progress: ProgressMap, tasks: seq<string>)
    ensures AllCompleted(ComputeStats(progress, tasks))
            <==> |tasks| > 0 && forall i :: 0 <= i < |tasks| ==> tasks[i] in progress && progress[tasks[i]] == Completed
    ensures AllCompleted(ComputeStats(progress, tasks)) <==> ComputeStats(progress, tasks).percent == 100.0
  {
    CountFull(tasks, progress);
    var s := ComputeStats(progress, tasks);
    if s.total > 0 && s.percent == 100.0 {
      var c := s.completed as real;
      var t := s.total as real;
      assert (c / t) * 100.0 == 100.0;
      assert c / t == 1.0;
      assert c == t;
    }
  }

  // ---------------------------------------------------------------- save

  /** Save (learning_progress_tracker.py:107-118): re-read the file (missing
      or unreadable counts as empty), replace the current career's entry with
      the session map, and write the whole mapping back. */
  function Save(file: ProgressFile, career: string, progress: ProgressMap): (r: SavedProgress)
    ensures career in r && r[career] == progress
    ensures forall c :: c != career ==> (c in r <==> c in LoadSaved(file))
    ensures forall c :: c != career && c in r ==> r[c] == LoadSaved(file)[c]
    ensures !file.Stored? ==> r == map[career := progress]
  {
    LoadSaved(file)[career := progress]
  }

  /** Loading the file a save wrote gives the session map back as that
      career's initial progress. */
  lemma SaveThenLoad(file: ProgressFile, career: string, progress: ProgressMap, tasks: seq<string>)
    ensures LoadSaved(Stored(Save(file, career, progress)))[career] == progress
    ensures InitialProgress(LoadSaved(Stored(Save(file, career, progress))), career, tasks) == progress
  {
  }

  /** Saving twice for one career keeps only the later map: last writer wins,
      and the other careers' entries are untouched by either save. */
  lemma SaveLastWins(file: ProgressFile, career: string, first: ProgressMap, second: ProgressMap)
    ensures Save(Stored(Save(file, career, first)), career, second) == Save(file, career, second)
  {
    var a := Save(Stored(Save(file, career, first)), career, second);
    var b := Save(file, career, second);
    assert a.Keys == b.Keys;
  }
}
