/** The life of a validation run: rows in the database, ids in a Redis list, and workers that pop them and run
    them with bounded concurrency.  Every step below is atomic; any interleaving of steps is a run of the
    system, including the loss of a request handler or of a worker at any moment. */
module Lifecycle {
  import opened Options

  type RunId = nat
  type DocId = nat

  datatype Status = Queued | Running | Done | Failed
  datatype Verdict = Pass | Fail | Error

  datatype RunRow = RunRow(doc: DocId, status: Status)
  datatype Database = Database(runs: map<RunId, RunRow>, docs: map<DocId, Status>, results: map<RunId, Verdict>)

  /** How far a validation task has come: started, with the run's status read, with its claim committed, or
      ended and about to give its slot back. */
  datatype Progress = Started | Saw(status: Status) | Claimed | Ended
  datatype Task = Task(run: RunId, progress: Progress)

  /** Where a worker's main loop stands. */
  datatype Main = Acquiring | Polling | Holding(run: RunId)
  datatype Worker = Worker(permits: nat, main: Main, tasks: seq<Task>)

  /** The system, with the history of pushes, pops and committed claims. */
  datatype System = System(
    db: Database,
    pending: seq<RunId>,
    queue: seq<RunId>,
    workers: seq<Worker>,
    finished: seq<RunId>,
    lost: seq<RunId>,
    pushed: seq<RunId>,
    popped: seq<RunId>,
    claims: seq<RunId>)

  datatype Step =
    | Submit(run: RunId, doc: DocId)
    | Enqueue(p: nat)
    | DropRequest(p: nat)
    | Acquire(w: nat)
    | PollNothing(w: nat)
    | Pop(w: nat)
    | Spawn(w: nat)
    | ReadRow(w: nat, i: nat)
    | CommitClaim(w: nat, i: nat)
    | Persist(w: nat, i: nat, verdict: Verdict)
    | Raise(w: nat, i: nat)
    | Release(w: nat, i: nat)
    | Crash(w: nat)

  function Init(concurrency: seq<nat>): System {
    System(Database(map[], map[], map[]), [], [], FreshWorkers(concurrency), [], [], [], [], [])
  }

  function FreshWorkers(concurrency: seq<nat>): (ws: seq<Worker>)
    ensures |ws| == |concurrency|
    ensures forall w :: 0 <= w < |ws| ==> ws[w] == Worker(concurrency[w], Acquiring, [])
  {
    seq(|concurrency|, w requires 0 <= w < |concurrency| => Worker(concurrency[w], Acquiring, []))
  }

  predicate IsTask(s: System, w: nat, i: nat) {
    w < |s.workers| && i < |s.workers[w].tasks|
  }

  predicate Enabled(s: System, step: Step) {
    match step
    case Submit(run, doc) => run !in s.db.runs && doc !in s.db.docs
    case Enqueue(p) => p < |s.pending|
    case DropRequest(p) => p < |s.pending|
    case Acquire(w) => w < |s.workers| && s.workers[w].main.Acquiring? && s.workers[w].permits > 0
    case PollNothing(w) => w < |s.workers| && s.workers[w].main.Polling?
    case Pop(w) => w < |s.workers| && s.workers[w].main.Polling? && s.queue != []
    case Spawn(w) => w < |s.workers| && s.workers[w].main.Holding?
    case ReadRow(w, i) => IsTask(s, w, i) && s.workers[w].tasks[i].progress.Started?
    case CommitClaim(w, i) =>
      IsTask(s, w, i) && s.workers[w].tasks[i].progress.Saw?
      && s.workers[w].tasks[i].run in s.db.runs
    case Persist(w, i, _) =>
      IsTask(s, w, i) && s.workers[w].tasks[i].progress.Claimed? && s.workers[w].tasks[i].run in s.db.runs
    case Raise(w, i) => IsTask(s, w, i) && !s.workers[w].tasks[i].progress.Ended?
    case Release(w, i) => IsTask(s, w, i) && s.workers[w].tasks[i].progress.Ended?
    case Crash(w) => w < |s.workers|
  }

  // ----- what the steps do -----

  function RemoveAt<T>(xs: seq<T>, i: nat): seq<T>
    requires i < |xs|
  {
    xs[..i] + xs[i + 1..]
  }

  function SetProgress(s: System, w: nat, i: nat, p: Progress): System
    requires IsTask(s, w, i)
  {
    var worker := s.workers[w];
    s.(workers := s.workers[w := worker.(tasks := worker.tasks[i := worker.tasks[i].(progress := p)])])
  }

  /** Both status columns of a run. */
  function SetStatus(db: Database, run: RunId, status: Status): Database
    requires run in db.runs
  {
    var row := db.runs[run];
    db.(runs := db.runs[run := row.(status := status)], docs := db.docs[row.doc := status])
  }

  /** The read that guards a run: missing, running and finished runs are left alone. */
  function AfterRead(db: Database, run: RunId): Progress {
    if run !in db.runs || db.runs[run].status != Queued then Ended else Saw(db.runs[run].status)
  }

  function StatusOf(verdict: Verdict): Status {
    if verdict == Pass || verdict == Fail then Done else Failed
  }

  /** The last transaction: the result row, whose run id is unique, and both status columns, or nothing. */
  function Stored(db: Database, run: RunId, verdict: Verdict): Database
    requires run in db.runs
  {
    if run in db.results then db
    else SetStatus(db, run, StatusOf(verdict)).(results := db.results[run := verdict])
  }

  /** The runs a worker holds in memory. */
  function InMemory(worker: Worker): seq<RunId> {
    (if worker.main.Holding? then [worker.main.run] else []) + TaskRuns(worker.tasks)
  }

  function TaskRuns(tasks: seq<Task>): (r: seq<RunId>)
    ensures |r| == |tasks|
  {
    if tasks == [] then [] else [tasks[0].run] + TaskRuns(tasks[1..])
  }

  function Apply(s: System, step: Step, concurrency: seq<nat>): System
    requires Enabled(s, step) && |concurrency| == |s.workers|
  {
    match step
    case Submit(run, doc) =>
      s.(db := s.db.(runs := s.db.runs[run := RunRow(doc, Queued)], docs := s.db.docs[doc := Queued]),
         pending := s.pending + [run])
    case Enqueue(p) =>
      s.(pending := RemoveAt(s.pending, p), queue := [s.pending[p]] + s.queue, pushed := s.pushed + [s.pending[p]])
    case DropRequest(p) =>
      s.(pending := RemoveAt(s.pending, p), lost := s.lost + [s.pending[p]])
    case Acquire(w) =>
      var worker := s.workers[w];
      s.(workers := s.workers[w := worker.(permits := worker.permits - 1, main := Polling)])
    case PollNothing(w) =>
      var worker := s.workers[w];
      s.(workers := s.workers[w := worker.(permits := worker.permits + 1, main := Acquiring)])
    case Pop(w) =>
      var worker, run := s.workers[w], s.queue[|s.queue| - 1];
      s.(queue := s.queue[..|s.queue| - 1], popped := s.popped + [run],
         workers := s.workers[w := worker.(main := Holding(run))])
    case Spawn(w) =>
      var worker := s.workers[w];
      var started := worker.tasks + [Task(worker.main.run, Started)];
      s.(workers := s.workers[w := worker.(main := Acquiring, tasks := started)])
    case ReadRow(w, i) =>
      SetProgress(s, w, i, AfterRead(s.db, s.workers[w].tasks[i].run))
    case CommitClaim(w, i) =>
      var run := s.workers[w].tasks[i].run;
      SetProgress(s, w, i, Claimed).(db := SetStatus(s.db, run, Running), claims := s.claims + [run])
    case Persist(w, i, verdict) =>
      SetProgress(s, w, i, Ended).(db := Stored(s.db, s.workers[w].tasks[i].run, verdict))
    case Raise(w, i) =>
      SetProgress(s, w, i, Ended)
    case Release(w, i) =>
      var worker := s.workers[w];
      s.(workers := s.workers[w := worker.(permits := worker.permits + 1, tasks := RemoveAt(worker.tasks, i))],
         finished := s.finished + [worker.tasks[i].run])
    case Crash(w) =>
      s.(workers := s.workers[w := Worker(concurrency[w], Acquiring, [])], lost := s.lost + InMemory(s.workers[w]))
  }

  // ----- where a run is -----

  datatype Place = InHand | Unclaimed | InWork | Over

  function PlaceOf(p: Progress): Place {
    match p
    case Started => Unclaimed
    case Saw(_) => Unclaimed
    case Claimed => InWork
    case Ended => Over
  }

  function One(b: bool): nat {
    if b then 1 else 0
  }

  function TaskCount(tasks: seq<Task>, k: Place, r: RunId): nat {
    if tasks == [] then 0
    else One(tasks[0].run == r && PlaceOf(tasks[0].progress) == k) + TaskCount(tasks[1..], k, r)
  }

  function WorkerCount(worker: Worker, k: Place, r: RunId): nat {
    if k == InHand then One(worker.main == Holding(r)) else TaskCount(worker.tasks, k, r)
  }

  /** How many times the workers together have the run in a place. */
  function Count(workers: seq<Worker>, k: Place, r: RunId): nat {
    if workers == [] then 0 else WorkerCount(workers[0], k, r) + Count(workers[1..], k, r)
  }

  /** How often a run occurs before it is claimed. */
  function Waiting(s: System, r: RunId): nat {
    multiset(s.pending)[r] + multiset(s.queue)[r] + Count(s.workers, InHand, r) + Count(s.workers, Unclaimed, r)
  }

  function Past(s: System, r: RunId): nat {
    Count(s.workers, Over, r) + multiset(s.finished)[r] + multiset(s.lost)[r]
  }

  lemma {:induction false} CountUpdate(workers: seq<Worker>, w: nat, worker: Worker, k: Place, r: RunId)
    requires w < |workers|
    ensures Count(workers[w := worker], k, r) + WorkerCount(workers[w], k, r)
         == Count(workers, k, r) + WorkerCount(worker, k, r)
  {
    var updated := workers[w := worker];
    if w == 0 {
      assert updated[1..] == workers[1..];
    } else {
      assert updated[1..] == workers[1..][w - 1 := worker];
      CountUpdate(workers[1..], w - 1, worker, k, r);
    }
  }

  lemma {:induction false} TaskCountConcat(a: seq<Task>, b: seq<Task>, k: Place, r: RunId)
    ensures TaskCount(a + b, k, r) == TaskCount(a, k, r) + TaskCount(b, k, r)
  {
    if a == [] {
      assert a + b == b;
    } else {
      assert (a + b)[1..] == a[1..] + b;
      TaskCountConcat(a[1..], b, k, r);
    }
  }

  lemma TaskCountAt(tasks: seq<Task>, i: nat, k: Place, r: RunId)
    requires i < |tasks|
    ensures TaskCount(tasks, k, r)
         == TaskCount(RemoveAt(tasks, i), k, r) + One(tasks[i].run == r && PlaceOf(tasks[i].progress) == k)
  {
    TaskCountConcat(tasks[..i], tasks[i + 1..], k, r);
    TaskCountConcat(tasks[..i], [tasks[i]], k, r);
    TaskCountConcat(tasks[..i] + [tasks[i]], tasks[i + 1..], k, r);
    assert tasks == tasks[..i] + [tasks[i]] + tasks[i + 1..];
  }

  lemma TaskCountSet(tasks: seq<Task>, i: nat, p: Progress, k: Place, r: RunId)
    requires i < |tasks|
    ensures TaskCount(tasks[i := tasks[i].(progress := p)], k, r)
            + One(tasks[i].run == r && PlaceOf(tasks[i].progress) == k)
         == TaskCount(tasks, k, r) + One(tasks[i].run == r && PlaceOf(p) == k)
  {
    var updated := tasks[i := tasks[i].(progress := p)];
    TaskCountAt(tasks, i, k, r);
    TaskCountAt(updated, i, k, r);
    assert RemoveAt(updated, i) == RemoveAt(tasks, i);
  }

  /** Moving a task on moves its run from one place to another. */
  lemma ProgressMoves(s: System, w: nat, i: nat, p: Progress, k: Place, r: RunId)
    requires IsTask(s, w, i)
    ensures var t := s.workers[w].tasks[i];
            Count(SetProgress(s, w, i, p).workers, k, r) + One(t.run == r && PlaceOf(t.progress) == k)
            == Count(s.workers, k, r) + One(t.run == r && PlaceOf(p) == k)
  {
    var worker := s.workers[w];
    var moved := worker.(tasks := worker.tasks[i := worker.tasks[i].(progress := p)]);
    CountUpdate(s.workers, w, moved, k, r);
    TaskCountSet(worker.tasks, i, p, k, r);
  }

  function Total(s: System, r: RunId): nat {
    Waiting(s, r) + Count(s.workers, InWork, r) + Past(s, r)
  }

  /** The run a step claims or stores, for the steps that do. */
  predicate ClaimsRun(s: System, step: Step, r: RunId)
    requires Enabled(s, step)
  {
    step.CommitClaim? && s.workers[step.w].tasks[step.i].run == r
  }

  predicate StoresRun(s: System, step: Step, r: RunId)
    requires Enabled(s, step)
  {
    step.Persist? && s.workers[step.w].tasks[step.i].run == r
  }

  /** A step moves occurrences of a run between places and creates one only when it submits the run. */
  ghost predicate Moves(s: System, step: Step, s': System, r: RunId)
    requires Enabled(s, step)
  {
    && Total(s', r) == Total(s, r) + One(step.Submit? && step.run == r)
    && Waiting(s', r) + One(ClaimsRun(s, step, r)) <= Waiting(s, r) + One(step.Submit? && step.run == r)
    && Count(s'.workers, InWork, r) + One(StoresRun(s, step, r))
       <= Count(s.workers, InWork, r) + One(ClaimsRun(s, step, r))
  }

  lemma RemoveAtCount<T>(xs: seq<T>, i: nat, x: T)
    requires i < |xs|
    ensures multiset(xs)[x] == multiset(RemoveAt(xs, i))[x] + One(xs[i] == x)
  {
    assert xs == xs[..i] + [xs[i]] + xs[i + 1..];
  }

  lemma MovesEnqueue(s: System, step: Step, concurrency: seq<nat>, r: RunId)
    requires |concurrency| == |s.workers| && Enabled(s, step) && step.Enqueue?
    ensures Moves(s, step, Apply(s, step, concurrency), r)
  {
    RemoveAtCount(s.pending, step.p, r);
  }

  lemma MovesDrop(s: System, step: Step, concurrency: seq<nat>, r: RunId)
    requires |concurrency| == |s.workers| && Enabled(s, step) && step.DropRequest?
    ensures Moves(s, step, Apply(s, step, concurrency), r)
  {
    RemoveAtCount(s.pending, step.p, r);
  }

  /** The counts after one worker changed. */
  lemma WorkerChanged(workers: seq<Worker>, w: nat, worker: Worker, r: RunId)
    requires w < |workers|
    ensures forall k :: Count(workers[w := worker], k, r) + WorkerCount(workers[w], k, r)
                     == Count(workers, k, r) + WorkerCount(worker, k, r)
  {
    forall k ensures Count(workers[w := worker], k, r) + WorkerCount(workers[w], k, r)
                  == Count(workers, k, r) + WorkerCount(worker, k, r) {
      CountUpdate(workers, w, worker, k, r);
    }
  }

  lemma MovesPoll(s: System, step: Step, concurrency: seq<nat>, r: RunId)
    requires |concurrency| == |s.workers| && Enabled(s, step) && (step.Acquire? || step.PollNothing?)
    ensures Moves(s, step, Apply(s, step, concurrency), r)
  {
    WorkerChanged(s.workers, step.w, Apply(s, step, concurrency).workers[step.w], r);
  }

  lemma MovesPop(s: System, step: Step, concurrency: seq<nat>, r: RunId)
    requires |concurrency| == |s.workers| && Enabled(s, step) && step.Pop?
    ensures Moves(s, step, Apply(s, step, concurrency), r)
  {
    WorkerChanged(s.workers, step.w, Apply(s, step, concurrency).workers[step.w], r);
    assert s.queue == s.queue[..|s.queue| - 1] + [s.queue[|s.queue| - 1]];
  }

  lemma TaskAdded(tasks: seq<Task>, t: Task, r: RunId)
    ensures forall k ::
            TaskCount(tasks + [t], k, r) == TaskCount(tasks, k, r) + One(t.run == r && PlaceOf(t.progress) == k)
  {
    forall k
      ensures TaskCount(tasks + [t], k, r) == TaskCount(tasks, k, r) + One(t.run == r && PlaceOf(t.progress) == k) {
      TaskCountConcat(tasks, [t], k, r);
    }
  }

  lemma MovesSpawn(s: System, step: Step, concurrency: seq<nat>, r: RunId)
    requires |concurrency| == |s.workers| && Enabled(s, step) && step.Spawn?
    ensures Moves(s, step, Apply(s, step, concurrency), r)
  {
    var worker := s.workers[step.w];
    WorkerChanged(s.workers, step.w, Apply(s, step, concurrency).workers[step.w], r);
    TaskAdded(worker.tasks, Task(worker.main.run, Started), r);
  }

  /** All counts after a task moved on. */
  lemma TaskMoved(s: System, w: nat, i: nat, p: Progress, r: RunId)
    requires IsTask(s, w, i)
    ensures var t, ws := s.workers[w].tasks[i], SetProgress(s, w, i, p).workers;
            forall k :: Count(ws, k, r) + One(t.run == r && PlaceOf(t.progress) == k)
                     == Count(s.workers, k, r) + One(t.run == r && PlaceOf(p) == k)
  {
    var t, ws := s.workers[w].tasks[i], SetProgress(s, w, i, p).workers;
    forall k ensures Count(ws, k, r) + One(t.run == r && PlaceOf(t.progress) == k)
                  == Count(s.workers, k, r) + One(t.run == r && PlaceOf(p) == k) {
      ProgressMoves(s, w, i, p, k, r);
    }
  }

  lemma MovesRead(s: System, step: Step, concurrency: seq<nat>, r: RunId)
    requires |concurrency| == |s.workers| && Enabled(s, step) && step.ReadRow?
    ensures Moves(s, step, Apply(s, step, concurrency), r)
  {
    TaskMoved(s, step.w, step.i, AfterRead(s.db, s.workers[step.w].tasks[step.i].run), r);
  }

  lemma MovesClaim(s: System, step: Step, concurrency: seq<nat>, r: RunId)
    requires |concurrency| == |s.workers| && Enabled(s, step) && step.CommitClaim?
    ensures Moves(s, step, Apply(s, step, concurrency), r)
  {
    TaskMoved(s, step.w, step.i, Claimed, r);
  }

  lemma MovesPersist(s: System, step: Step, concurrency: seq<nat>, r: RunId)
    requires |concurrency| == |s.workers| && Enabled(s, step) && step.Persist?
    ensures Moves(s, step, Apply(s, step, concurrency), r)
  {
    TaskMoved(s, step.w, step.i, Ended, r);
  }

  lemma MovesRaise(s: System, step: Step, concurrency: seq<nat>, r: RunId)
    requires |concurrency| == |s.workers| && Enabled(s, step) && step.Raise?
    ensures Moves(s, step, Apply(s, step, concurrency), r)
  {
    TaskMoved(s, step.w, step.i, Ended, r);
  }

  lemma TaskRemoved(tasks: seq<Task>, i: nat, r: RunId)
    requires i < |tasks|
    ensures forall k ::
            TaskCount(tasks, k, r)
            == TaskCount(RemoveAt(tasks, i), k, r) + One(tasks[i].run == r && PlaceOf(tasks[i].progress) == k)
  {
    forall k ensures TaskCount(tasks, k, r)
                  == TaskCount(RemoveAt(tasks, i), k, r) + One(tasks[i].run == r && PlaceOf(tasks[i].progress) == k) {
      TaskCountAt(tasks, i, k, r);
    }
  }

  lemma MovesRelease(s: System, step: Step, concurrency: seq<nat>, r: RunId)
    requires |concurrency| == |s.workers| && Enabled(s, step) && step.Release?
    ensures Moves(s, step, Apply(s, step, concurrency), r)
  {
    WorkerChanged(s.workers, step.w, Apply(s, step, concurrency).workers[step.w], r);
    TaskRemoved(s.workers[step.w].tasks, step.i, r);
  }

  lemma {:induction false} TaskRunsCount(tasks: seq<Task>, r: RunId)
    ensures multiset(TaskRuns(tasks))[r]
         == TaskCount(tasks, Unclaimed, r) + TaskCount(tasks, InWork, r) + TaskCount(tasks, Over, r)
  {
    if tasks != [] {
      TaskRunsCount(tasks[1..], r);
    }
  }

  lemma MovesCrash(s: System, step: Step, concurrency: seq<nat>, r: RunId)
    requires |concurrency| == |s.workers| && Enabled(s, step) && step.Crash?
    ensures Moves(s, step, Apply(s, step, concurrency), r)
  {
    WorkerChanged(s.workers, step.w, Worker(concurrency[step.w], Acquiring, []), r);
    InMemoryCount(s.workers[step.w], r);
  }

  lemma InMemoryCount(worker: Worker, r: RunId)
    ensures multiset(InMemory(worker))[r]
         == WorkerCount(worker, InHand, r) + WorkerCount(worker, Unclaimed, r) + WorkerCount(worker, InWork, r)
           + WorkerCount(worker, Over, r)
  {
    TaskRunsCount(worker.tasks, r);
  }

  lemma StepMoves(s: System, step: Step, concurrency: seq<nat>, r: RunId)
    requires |concurrency| == |s.workers| && Enabled(s, step)
    ensures Moves(s, step, Apply(s, step, concurrency), r)
  {
    match step
    case Submit(_, _) =>
    case Enqueue(_) => MovesEnqueue(s, step, concurrency, r);
    case DropRequest(_) => MovesDrop(s, step, concurrency, r);
    case Acquire(_) => MovesPoll(s, step, concurrency, r);
    case PollNothing(_) => MovesPoll(s, step, concurrency, r);
    case Pop(_) => MovesPop(s, step, concurrency, r);
    case Spawn(_) => MovesSpawn(s, step, concurrency, r);
    case ReadRow(_, _) => MovesRead(s, step, concurrency, r);
    case CommitClaim(_, _) => MovesClaim(s, step, concurrency, r);
    case Persist(_, _, _) => MovesPersist(s, step, concurrency, r);
    case Raise(_, _) => MovesRaise(s, step, concurrency, r);
    case Release(_, _) => MovesRelease(s, step, concurrency, r);
    case Crash(_) => MovesCrash(s, step, concurrency, r);
  }

  // ----- the invariant -----

  predicate Terminal(status: Status) {
    status == Done || status == Failed
  }

  /** Rows of the database that agree with each other. */
  ghost predicate RowsAgree(db: Database) {
    && (forall r :: r in db.runs ==> db.runs[r].doc in db.docs && db.docs[db.runs[r].doc] == db.runs[r].status)
    && (forall r, q :: r in db.runs && q in db.runs && r != q ==> db.runs[r].doc != db.runs[q].doc)
    && (forall r :: r in db.results <==> r in db.runs && Terminal(db.runs[r].status))
    && (forall r :: r in db.results ==> (db.runs[r].status == Done <==> db.results[r] != Error))
  }

  /** Every submitted run is in exactly one place, and its status is that of the place. */
  ghost predicate Accounted(s: System) {
    && (forall r :: Total(s, r) == One(r in s.db.runs))
    && (forall r :: Waiting(s, r) > 0 ==> r in s.db.runs && s.db.runs[r].status == Queued)
    && (forall r :: Count(s.workers, InWork, r) > 0 ==> r in s.db.runs && s.db.runs[r].status == Running)
  }

  /** What a task has read is that its run was queued. */
  ghost predicate ReadsQueued(workers: seq<Worker>) {
    forall w, i :: 0 <= w < |workers| && 0 <= i < |workers[w].tasks| && workers[w].tasks[i].progress.Saw?
                   ==> workers[w].tasks[i].progress.status == Queued
  }

  /** A worker's permits: free ones, the main loop's, and one for each live task. */
  ghost predicate SlotsKept(workers: seq<Worker>, concurrency: seq<nat>) {
    && |workers| == |concurrency|
    && forall w :: 0 <= w < |workers| ==>
         workers[w].permits + One(!workers[w].main.Acquiring?) + |workers[w].tasks| == concurrency[w]
  }

  function Reverse(xs: seq<RunId>): seq<RunId> {
    if xs == [] then [] else Reverse(xs[1..]) + [xs[0]]
  }

  /** Runs leave the queue in the order in which they entered it. */
  ghost predicate FirstInFirstOut(s: System) {
    s.pushed == s.popped + Reverse(s.queue)
  }

  /** Each run's claim has been committed once if its status has left `Queued`, and never otherwise. */
  ghost predicate ClaimedOnce(s: System) {
    forall r :: multiset(s.claims)[r] == One(r in s.db.runs && s.db.runs[r].status != Queued)
  }

  ghost predicate Inv(s: System, concurrency: seq<nat>) {
    && SlotsKept(s.workers, concurrency)
    && ReadsQueued(s.workers)
    && FirstInFirstOut(s)
    && RowsAgree(s.db)
    && Accounted(s)
    && ClaimedOnce(s)
  }

  lemma {:induction false} FreshCount(workers: seq<Worker>, k: Place, r: RunId)
    requires forall w :: 0 <= w < |workers| ==> workers[w].main.Acquiring? && workers[w].tasks == []
    ensures Count(workers, k, r) == 0
  {
    if workers != [] {
      FreshCount(workers[1..], k, r);
    }
  }

  lemma InitInv(concurrency: seq<nat>)
    ensures Inv(Init(concurrency), concurrency)
  {
    var s := Init(concurrency);
    forall r ensures Total(s, r) == 0 {
      FreshCount(s.workers, InHand, r);
      FreshCount(s.workers, Unclaimed, r);
      FreshCount(s.workers, InWork, r);
      FreshCount(s.workers, Over, r);
    }
  }

  lemma {:induction false} ReverseSnoc(xs: seq<RunId>, x: RunId)
    ensures Reverse(xs + [x]) == [x] + Reverse(xs)
  {
    if xs == [] {
      assert xs + [x] == [x] && [x][1..] == [];
    } else {
      assert (xs + [x])[1..] == xs[1..] + [x];
      ReverseSnoc(xs[1..], x);
    }
  }

  lemma FifoKept(s: System, step: Step, concurrency: seq<nat>)
    requires |concurrency| == |s.workers| && Enabled(s, step) && FirstInFirstOut(s)
    ensures FirstInFirstOut(Apply(s, step, concurrency))
  {
    if step.Enqueue? {
      var queue' := [s.pending[step.p]] + s.queue;
      assert queue'[1..] == s.queue;
    } else if step.Pop? {
      var init, last := s.queue[..|s.queue| - 1], s.queue[|s.queue| - 1];
      assert s.queue == init + [last];
      ReverseSnoc(init, last);
    }
  }

  lemma SlotsStay(s: System, step: Step, concurrency: seq<nat>)
    requires SlotsKept(s.workers, concurrency) && Enabled(s, step)
    ensures SlotsKept(Apply(s, step, concurrency).workers, concurrency)
  {
  }

  lemma ReadsStay(s: System, step: Step, concurrency: seq<nat>)
    requires |concurrency| == |s.workers| && Enabled(s, step) && ReadsQueued(s.workers)
    ensures ReadsQueued(Apply(s, step, concurrency).workers)
  {
  }

  /** A task's run is counted in the place of its task. */
  lemma TaskIsCounted(s: System, w: nat, i: nat)
    requires IsTask(s, w, i)
    ensures var t := s.workers[w].tasks[i]; Count(s.workers, PlaceOf(t.progress), t.run) > 0
  {
    var t := s.workers[w].tasks[i];
    TaskCountAt(s.workers[w].tasks, i, PlaceOf(t.progress), t.run);
    CountUpdate(s.workers, w, Worker(0, Acquiring, []), PlaceOf(t.progress), t.run);
  }

  /** The status of a run only goes from queued to running and from there to done or failed. */
  predicate Advances(a: Status, b: Status) {
    a == b || (a == Queued && b == Running) || (a == Running && Terminal(b))
  }

  /** Runs are only added, their status only advances, and results stay as they are. */
  ghost predicate DbAdvances(db: Database, db': Database) {
    && (forall r :: r in db.runs ==>
          (r in db'.runs && db'.runs[r].doc == db.runs[r].doc && Advances(db.runs[r].status, db'.runs[r].status)))
    && (forall r :: r in db.results ==> r in db'.results && db'.results[r] == db.results[r])
  }

  lemma SubmitRows(db: Database, run: RunId, doc: DocId)
    requires RowsAgree(db) && run !in db.runs && doc !in db.docs
    ensures var db' := db.(runs := db.runs[run := RunRow(doc, Queued)], docs := db.docs[doc := Queued]);
            RowsAgree(db') && DbAdvances(db, db')
  {
  }

  lemma ClaimRows(db: Database, run: RunId)
    requires RowsAgree(db) && run in db.runs && db.runs[run].status == Queued
    ensures RowsAgree(SetStatus(db, run, Running)) && DbAdvances(db, SetStatus(db, run, Running))
  {
  }

  /** Storing the result of a running run never meets an earlier result. */
  lemma StoreRows(db: Database, run: RunId, verdict: Verdict)
    requires RowsAgree(db) && run in db.runs && db.runs[run].status == Running
    ensures run !in db.results
    ensures RowsAgree(Stored(db, run, verdict)) && DbAdvances(db, Stored(db, run, verdict))
    ensures Stored(db, run, verdict).results[run] == verdict
  {
  }

  /** The claim a task is about to commit is based on a read that is still true: its run is queued. */
  lemma ClaimNeverRaces(s: System, w: nat, i: nat)
    requires Accounted(s) && ReadsQueued(s.workers) && IsTask(s, w, i) && s.workers[w].tasks[i].progress.Saw?
    ensures var t := s.workers[w].tasks[i];
            t.run in s.db.runs && s.db.runs[t.run].status == Queued == t.progress.status
  {
    TaskIsCounted(s, w, i);
  }

  lemma ClaimedIsRunning(s: System, w: nat, i: nat)
    requires Accounted(s) && IsTask(s, w, i) && s.workers[w].tasks[i].progress.Claimed?
    ensures var t := s.workers[w].tasks[i]; t.run in s.db.runs && s.db.runs[t.run].status == Running
  {
    TaskIsCounted(s, w, i);
  }

  lemma DatabaseStep(s: System, step: Step, concurrency: seq<nat>)
    requires Inv(s, concurrency) && Enabled(s, step)
    ensures RowsAgree(Apply(s, step, concurrency).db) && DbAdvances(s.db, Apply(s, step, concurrency).db)
  {
    match step
    case Submit(run, doc) => SubmitRows(s.db, run, doc);
    case CommitClaim(w, i) =>
      ClaimNeverRaces(s, w, i);
      ClaimRows(s.db, s.workers[w].tasks[i].run);
    case Persist(w, i, verdict) =>
      ClaimedIsRunning(s, w, i);
      StoreRows(s.db, s.workers[w].tasks[i].run, verdict);
    case _ => assert Apply(s, step, concurrency).db == s.db;
  }

  /** How a step changes the row of one run. */
  ghost predicate RowMoves(s: System, step: Step, runs': map<RunId, RunRow>, r: RunId)
    requires Enabled(s, step)
  {
    var runs := s.db.runs;
    && (r in runs' <==> r in runs || (step.Submit? && step.run == r))
    && (step.Submit? && step.run == r ==> r !in runs && runs'[r].status == Queued)
    && (ClaimsRun(s, step, r) ==> r in runs && runs[r].status == Queued && runs'[r].status == Running)
    && (StoresRun(s, step, r) ==> r in runs && runs[r].status == Running && Terminal(runs'[r].status))
    && (r in runs && !ClaimsRun(s, step, r) && !StoresRun(s, step, r) ==> runs'[r] == runs[r])
  }

  lemma ClaimMovesRow(s: System, w: nat, i: nat, concurrency: seq<nat>, r: RunId)
    requires Inv(s, concurrency) && Enabled(s, CommitClaim(w, i))
    ensures RowMoves(s, CommitClaim(w, i), Apply(s, CommitClaim(w, i), concurrency).db.runs, r)
  {
    ClaimNeverRaces(s, w, i);
  }

  lemma StoreMovesRow(s: System, w: nat, i: nat, verdict: Verdict, concurrency: seq<nat>, r: RunId)
    requires Inv(s, concurrency) && Enabled(s, Persist(w, i, verdict))
    ensures RowMoves(s, Persist(w, i, verdict), Apply(s, Persist(w, i, verdict), concurrency).db.runs, r)
  {
    ClaimedIsRunning(s, w, i);
  }

  lemma RowStep(s: System, step: Step, concurrency: seq<nat>, r: RunId)
    requires Inv(s, concurrency) && Enabled(s, step)
    ensures RowMoves(s, step, Apply(s, step, concurrency).db.runs, r)
  {
    if step.CommitClaim? {
      ClaimMovesRow(s, step.w, step.i, concurrency, r);
    } else if step.Persist? {
      StoreMovesRow(s, step.w, step.i, step.verdict, concurrency, r);
    }
  }

  lemma AccountedStep(s: System, step: Step, concurrency: seq<nat>, r: RunId)
    requires Inv(s, concurrency) && Enabled(s, step)
    ensures var s' := Apply(s, step, concurrency);
            && Total(s', r) == One(r in s'.db.runs)
            && (Waiting(s', r) > 0 ==> r in s'.db.runs && s'.db.runs[r].status == Queued)
            && (Count(s'.workers, InWork, r) > 0 ==> r in s'.db.runs && s'.db.runs[r].status == Running)
            && multiset(s'.claims)[r] == One(r in s'.db.runs && s'.db.runs[r].status != Queued)
  {
    StepMoves(s, step, concurrency, r);
    RowStep(s, step, concurrency, r);
    assert Total(s, r) == One(r in s.db.runs);
    ClaimsStep(s, step, concurrency, r);
  }

  lemma ClaimsStep(s: System, step: Step, concurrency: seq<nat>, r: RunId)
    requires |concurrency| == |s.workers| && Enabled(s, step)
    ensures multiset(Apply(s, step, concurrency).claims)[r] == multiset(s.claims)[r] + One(ClaimsRun(s, step, r))
  {
  }

  /** Every step keeps the invariant. */
  lemma StepKeepsInv(s: System, step: Step, concurrency: seq<nat>)
    requires Inv(s, concurrency) && Enabled(s, step)
    ensures Inv(Apply(s, step, concurrency), concurrency)
  {
    SlotsStay(s, step, concurrency);
    ReadsStay(s, step, concurrency);
    FifoKept(s, step, concurrency);
    DatabaseStep(s, step, concurrency);
    var s' := Apply(s, step, concurrency);
    forall r ensures
      && Total(s', r) == One(r in s'.db.runs)
      && (Waiting(s', r) > 0 ==> r in s'.db.runs && s'.db.runs[r].status == Queued)
      && (Count(s'.workers, InWork, r) > 0 ==> r in s'.db.runs && s'.db.runs[r].status == Running)
      && multiset(s'.claims)[r] == One(r in s'.db.runs && s'.db.runs[r].status != Queued)
    {
      AccountedStep(s, step, concurrency, r);
    }
  }

  // ----- whole runs of the system -----

  /** A finite run of the system from its start: any interleaving of enabled steps. */
  ghost predicate Execution(concurrency: seq<nat>, states: seq<System>, steps: seq<Step>) {
    && |states| == |steps| + 1
    && states[0] == Init(concurrency)
    && forall i :: 0 <= i < |steps| ==> Follows(states[i], steps[i], states[i + 1], concurrency)
  }

  ghost predicate Follows(s: System, step: Step, s': System, concurrency: seq<nat>) {
    |s.workers| == |concurrency| && Enabled(s, step) && s' == Apply(s, step, concurrency)
  }

  lemma {:induction false} AlwaysInv(concurrency: seq<nat>, states: seq<System>, steps: seq<Step>, i: nat)
    requires Execution(concurrency, states, steps) && i < |states|
    ensures Inv(states[i], concurrency)
  {
    if i == 0 {
      InitInv(concurrency);
    } else {
      AlwaysInv(concurrency, states, steps, i - 1);
      assert Follows(states[i - 1], steps[i - 1], states[i], concurrency);
      StepKeepsInv(states[i - 1], steps[i - 1], concurrency);
    }
  }

  /** In every interleaving each submitted run is in exactly one place: waiting for its push, queued, held by a
      main loop, in an unclaimed, working or ending task, finished or lost. */
  lemma ExactlyOnePlace(concurrency: seq<nat>, states: seq<System>, steps: seq<Step>, i: nat, r: RunId)
    requires Execution(concurrency, states, steps) && i < |states|
    ensures var s := states[i];
            multiset(s.pending)[r] + multiset(s.queue)[r] + Count(s.workers, InHand, r) + Count(s.workers, Unclaimed, r)
            + Count(s.workers, InWork, r) + Count(s.workers, Over, r) + multiset(s.finished)[r] + multiset(s.lost)[r]
            == if r in s.db.runs then 1 else 0
  {
    AlwaysInv(concurrency, states, steps, i);
    assert Total(states[i], r) == One(r in states[i].db.runs);
  }

  /** A worker never has more live tasks than its concurrency, pops follow pushes in order, and a crash loses no
      more runs than the worker's concurrency. */
  lemma BoundedWork(concurrency: seq<nat>, states: seq<System>, steps: seq<Step>, i: nat, w: nat)
    requires Execution(concurrency, states, steps) && i < |states| && w < |concurrency|
    ensures var s := states[i];
            && |s.workers| == |concurrency|
            && s.workers[w].permits + One(!s.workers[w].main.Acquiring?) + |s.workers[w].tasks| == concurrency[w]
            && s.popped <= s.pushed
            && |Apply(s, Crash(w), concurrency).lost| <= |s.lost| + concurrency[w]
  {
    AlwaysInv(concurrency, states, steps, i);
  }

  function LiveTasks(workers: seq<Worker>): nat {
    if workers == [] then 0 else |workers[0].tasks| + LiveTasks(workers[1..])
  }

  function Sum(concurrency: seq<nat>): nat {
    if concurrency == [] then 0 else concurrency[0] + Sum(concurrency[1..])
  }

  lemma {:induction false} SlotsBoundTasks(workers: seq<Worker>, concurrency: seq<nat>)
    requires SlotsKept(workers, concurrency)
    ensures LiveTasks(workers) <= Sum(concurrency)
  {
    if workers != [] {
      assert SlotsKept(workers[1..], concurrency[1..]) by {
        assert forall w :: 0 <= w < |workers| - 1 ==>
               workers[1..][w] == workers[w + 1] && concurrency[1..][w] == concurrency[w + 1];
      }
      SlotsBoundTasks(workers[1..], concurrency[1..]);
      assert workers[0].permits + One(!workers[0].main.Acquiring?) + |workers[0].tasks| == concurrency[0];
    }
  }

  /** All workers together never run more validations than their concurrencies add up to; as each awaits its
      model calls one at a time, this bounds the calls in flight. */
  lemma CallsInFlightBounded(concurrency: seq<nat>, states: seq<System>, steps: seq<Step>, i: nat)
    requires Execution(concurrency, states, steps) && i < |states|
    ensures LiveTasks(states[i].workers) <= Sum(concurrency)
  {
    AlwaysInv(concurrency, states, steps, i);
    SlotsBoundTasks(states[i].workers, concurrency);
  }

  /** A result stays, and a status is the same or later. */
  ghost predicate NoStepBack(db: Database, db': Database, r: RunId) {
    && (r in db.results ==> r in db'.results && db'.results[r] == db.results[r])
    && (r in db.runs ==> r in db'.runs && Later(db.runs[r].status, db'.runs[r].status))
  }

  lemma OneAdvance(concurrency: seq<nat>, states: seq<System>, steps: seq<Step>, i: nat, r: RunId)
    requires Execution(concurrency, states, steps) && i < |steps|
    ensures NoStepBack(states[i].db, states[i + 1].db, r)
  {
    AlwaysInv(concurrency, states, steps, i);
    assert Follows(states[i], steps[i], states[i + 1], concurrency);
    DatabaseStep(states[i], steps[i], concurrency);
  }

  lemma NoStepBackTransitive(a: Database, b: Database, c: Database, r: RunId)
    requires NoStepBack(a, b, r) && NoStepBack(b, c, r)
    ensures NoStepBack(a, c, r)
  {
  }

  lemma {:induction false} ChainNeverGoesBack(dbs: seq<Database>, r: RunId)
    requires dbs != [] && forall k :: 0 <= k < |dbs| - 1 ==> NoStepBack(dbs[k], dbs[k + 1], r)
    ensures NoStepBack(dbs[0], dbs[|dbs| - 1], r)
    decreases |dbs|
  {
    var n := |dbs| - 1;
    if n > 0 {
      ChainNeverGoesBack(dbs[..n], r);
      assert dbs[..n][n - 1] == dbs[n - 1];
      NoStepBackTransitive(dbs[0], dbs[n - 1], dbs[n], r);
    }
  }

  lemma NeverGoesBack(concurrency: seq<nat>, states: seq<System>, steps: seq<Step>, i: nat, j: nat, r: RunId)
    requires Execution(concurrency, states, steps) && i <= j < |states|
    ensures NoStepBack(states[i].db, states[j].db, r)
  {
    var dbs := seq(j - i + 1, k requires 0 <= k < j - i + 1 => states[i + k].db);
    forall k | 0 <= k < j - i ensures NoStepBack(dbs[k], dbs[k + 1], r) {
      OneAdvance(concurrency, states, steps, i + k, r);
    }
    ChainNeverGoesBack(dbs, r);
  }

  /** What a status can become over any number of steps. */
  predicate Later(a: Status, b: Status) {
    a == b || a == Queued || (a == Running && Terminal(b))
  }

  /** Over every run of the system: statuses only go from queued to running to done or failed; the document's
      status is its run's; a result exists exactly when the status is terminal and never changes; done means a
      verdict of pass or fail; and each run is claimed at most once. */
  lemma LifecycleTheorem(concurrency: seq<nat>, states: seq<System>, steps: seq<Step>, i: nat, j: nat, r: RunId)
    requires Execution(concurrency, states, steps) && i <= j < |states| && r in states[i].db.runs
    ensures r in states[j].db.runs && Later(states[i].db.runs[r].status, states[j].db.runs[r].status)
    ensures var db := states[j].db; var row := db.runs[r];
            && row.doc in db.docs && db.docs[row.doc] == row.status
            && (r in db.results <==> Terminal(row.status))
            && (r in db.results ==> (row.status == Done <==> db.results[r] in {Pass, Fail}))
    ensures r in states[i].db.results ==>
            r in states[j].db.results && states[j].db.results[r] == states[i].db.results[r]
    ensures multiset(states[j].claims)[r] == if states[j].db.runs[r].status == Queued then 0 else 1
  {
    NeverGoesBack(concurrency, states, steps, i, j, r);
    AlwaysInv(concurrency, states, steps, j);
  }

  /** The unlocked read-then-commit never races: whenever a task commits its claim the row still says queued, and
      whenever it stores a result there is none yet. */
  lemma NoRace(concurrency: seq<nat>, states: seq<System>, steps: seq<Step>, i: nat)
    requires Execution(concurrency, states, steps) && i < |steps|
    ensures Enabled(states[i], steps[i])
    ensures forall r :: ClaimsRun(states[i], steps[i], r) ==>
            r in states[i].db.runs && states[i].db.runs[r].status == Queued
    ensures forall r :: StoresRun(states[i], steps[i], r) ==> r !in states[i].db.results
  {
    AlwaysInv(concurrency, states, steps, i);
    assert Follows(states[i], steps[i], states[i + 1], concurrency);
    var s := states[i];
    match steps[i]
    case CommitClaim(w, t) => ClaimNeverRaces(s, w, t);
    case Persist(w, t, verdict) =>
      ClaimedIsRunning(s, w, t);
      StoreRows(s.db, s.workers[w].tasks[t].run, verdict);
    case _ =>
  }

  /** A poll reads the run's row and, some steps later, its result row.  It may report a result under a status
      read before, but it never reports a terminal status without a result, nor a result for an unfinished run. */
  lemma PollIsNeverEmptyHanded(concurrency: seq<nat>, states: seq<System>, steps: seq<Step>, i: nat, j: nat, r: RunId)
    requires Execution(concurrency, states, steps) && i <= j < |states| && r in states[i].db.runs
    ensures Terminal(states[i].db.runs[r].status) ==> r in states[j].db.results
    ensures r in states[j].db.results ==> r in states[j].db.runs && Terminal(states[j].db.runs[r].status)
  {
    LifecycleTheorem(concurrency, states, steps, i, i, r);
    LifecycleTheorem(concurrency, states, steps, i, j, r);
  }
}
