/** Which runs can still get a result: from every reachable state exactly those that are neither lost nor ended, and
    those with any verdict. */
module Completion {
  import opened Options
  import opened Lifecycle

  // ----- what a read decides -----

  /** Reading a queued row lets the task claim its run and nothing else; reading any other row, or none, ends it. */
  lemma ReadDecides(s: System, w: nat, i: nat, concurrency: seq<nat>)
    requires |concurrency| == |s.workers| && Enabled(s, ReadRow(w, i))
    ensures var run, s' := s.workers[w].tasks[i].run, Apply(s, ReadRow(w, i), concurrency);
            && s'.db == s.db
            && (if run in s.db.runs && s.db.runs[run].status == Queued
                then Enabled(s', CommitClaim(w, i)) && !Enabled(s', Release(w, i))
                else Enabled(s', Release(w, i)) && !Enabled(s', CommitClaim(w, i)))
  {
  }

  /** In every reachable state a task that is about to read will find its run queued, so the claim follows. */
  lemma ReadLeadsToClaim(concurrency: seq<nat>, states: seq<System>, steps: seq<Step>, k: nat, w: nat, i: nat)
    requires Execution(concurrency, states, steps) && k < |states| && Enabled(states[k], ReadRow(w, i))
    ensures |concurrency| == |states[k].workers|
    ensures Enabled(Apply(states[k], ReadRow(w, i), concurrency), CommitClaim(w, i))
  {
    AlwaysInv(concurrency, states, steps, k);
    TaskIsCounted(states[k], w, i);
    ReadDecides(states[k], w, i, concurrency);
  }

  // ----- reaching one state from another -----

  ghost predicate Path(concurrency: seq<nat>, states: seq<System>, steps: seq<Step>) {
    && |states| == |steps| + 1
    && forall k :: 0 <= k < |steps| ==> Follows(states[k], steps[k], states[k + 1], concurrency)
  }

  /** Some steps lead from `s` to `s'`. */
  ghost predicate Reaches(concurrency: seq<nat>, s: System, s': System) {
    exists states, steps :: Path(concurrency, states, steps) && states[0] == s && states[|steps|] == s'
  }

  lemma ReachesSelf(concurrency: seq<nat>, s: System)
    ensures Reaches(concurrency, s, s)
  {
    assert Path(concurrency, [s], []);
  }

  lemma PathConcat(concurrency: seq<nat>, states: seq<System>, steps: seq<Step>,
                   states': seq<System>, steps': seq<Step>)
    requires Path(concurrency, states, steps) && Path(concurrency, states', steps') && states[|steps|] == states'[0]
    ensures Path(concurrency, states + states'[1..], steps + steps')
    ensures (states + states'[1..])[|steps + steps'|] == states'[|steps'|]
  {
    var all, moves := states + states'[1..], steps + steps';
    forall k | 0 <= k < |moves| ensures Follows(all[k], moves[k], all[k + 1], concurrency) {
      if k < |steps| {
        assert Follows(states[k], steps[k], states[k + 1], concurrency);
      } else {
        assert Follows(states'[k - |steps|], steps'[k - |steps|], states'[k - |steps| + 1], concurrency);
      }
    }
  }

  lemma ReachesOn(concurrency: seq<nat>, a: System, b: System, c: System)
    requires Reaches(concurrency, a, b) && Reaches(concurrency, b, c)
    ensures Reaches(concurrency, a, c)
  {
    var states, steps :| Path(concurrency, states, steps) && states[0] == a && states[|steps|] == b;
    var states', steps' :| Path(concurrency, states', steps') && states'[0] == b && states'[|steps'|] == c;
    PathConcat(concurrency, states, steps, states', steps');
  }

  lemma FollowsKeepsInv(s: System, step: Step, s': System, concurrency: seq<nat>)
    requires Follows(s, step, s', concurrency) && Inv(s, concurrency)
    ensures Inv(s', concurrency)
  {
    StepKeepsInv(s, step, concurrency);
  }

  lemma FollowsReaches(s: System, step: Step, s': System, concurrency: seq<nat>)
    requires Follows(s, step, s', concurrency)
    ensures Reaches(concurrency, s, s')
  {
    PathFirst(concurrency, s, step, s');
  }

  /** Taking one more step. */
  lemma TakeStep(concurrency: seq<nat>, first: System, s: System, step: Step) returns (s': System)
    requires Reaches(concurrency, first, s) && Inv(s, concurrency) && Enabled(s, step)
    ensures s' == Apply(s, step, concurrency) && Reaches(concurrency, first, s') && Inv(s', concurrency)
  {
    s' := Apply(s, step, concurrency);
    assert Follows(s, step, s', concurrency);
    FollowsKeepsInv(s, step, s', concurrency);
    FollowsReaches(s, step, s', concurrency);
    ReachesOn(concurrency, first, s, s');
  }

  // ----- bringing a run to its end -----

  /** The run is done with: its verdict is stored, its status and its document's follow, its task is over, and it has
      been claimed once. */
  ghost predicate Completed(s: System, r: RunId, verdict: Verdict) {
    && r in s.db.results && s.db.results[r] == verdict
    && r in s.db.runs && s.db.runs[r].status == (if verdict == Error then Failed else Done)
    && s.db.runs[r].doc in s.db.docs && s.db.docs[s.db.runs[r].doc] == s.db.runs[r].status
    && r in s.finished && multiset(s.claims)[r] == 1
  }

  /** Of a finished run with a result the invariant knows the rest. */
  lemma ResultCompletes(concurrency: seq<nat>, s: System, r: RunId, verdict: Verdict)
    requires Inv(s, concurrency) && r in s.finished && r in s.db.results && s.db.results[r] == verdict
    ensures Completed(s, r, verdict)
  {
    assert r in s.db.runs && Terminal(s.db.runs[r].status);
  }

  lemma Stores(concurrency: seq<nat>, s: System, w: nat, i: nat, verdict: Verdict) returns (s': System)
    requires Inv(s, concurrency) && IsTask(s, w, i) && s.workers[w].tasks[i].progress.Claimed?
    ensures Reaches(concurrency, s, s') && Inv(s', concurrency)
    ensures var run := s.workers[w].tasks[i].run;
            && IsTask(s', w, i) && s'.workers[w].tasks[i] == Task(run, Ended)
            && run in s'.db.results && s'.db.results[run] == verdict
  {
    var run := s.workers[w].tasks[i].run;
    ClaimedIsRunning(s, w, i);
    StoreRows(s.db, run, verdict);
    ReachesSelf(concurrency, s);
    s' := TakeStep(concurrency, s, s, Persist(w, i, verdict));
  }

  lemma Releases(concurrency: seq<nat>, s: System, w: nat, i: nat) returns (s': System)
    requires Inv(s, concurrency) && IsTask(s, w, i) && s.workers[w].tasks[i].progress.Ended?
    ensures Reaches(concurrency, s, s') && Inv(s', concurrency)
    ensures s'.db == s.db && s.workers[w].tasks[i].run in s'.finished
  {
    ReachesSelf(concurrency, s);
    s' := TakeStep(concurrency, s, s, Release(w, i));
    assert s'.finished[|s'.finished| - 1] == s.workers[w].tasks[i].run;
  }

  /** A task that has claimed its run stores a verdict and is over. */
  lemma StoreAndRelease(concurrency: seq<nat>, s: System, w: nat, i: nat, verdict: Verdict) returns (s': System)
    requires Inv(s, concurrency) && IsTask(s, w, i) && s.workers[w].tasks[i].progress.Claimed?
    ensures Reaches(concurrency, s, s') && Inv(s', concurrency) && Completed(s', s.workers[w].tasks[i].run, verdict)
  {
    var stored := Stores(concurrency, s, w, i, verdict);
    s' := Releases(concurrency, stored, w, i);
    ReachesOn(concurrency, s, stored, s');
    ResultCompletes(concurrency, s', s.workers[w].tasks[i].run, verdict);
  }

  /** A task that has not ended can bring its run to any verdict. */
  lemma TaskCompletes(concurrency: seq<nat>, s: System, w: nat, i: nat, verdict: Verdict) returns (s': System)
    requires Inv(s, concurrency) && IsTask(s, w, i) && !s.workers[w].tasks[i].progress.Ended?
    ensures Reaches(concurrency, s, s') && Inv(s', concurrency) && Completed(s', s.workers[w].tasks[i].run, verdict)
  {
    ReachesSelf(concurrency, s);
    var t := s;
    if t.workers[w].tasks[i].progress.Started? {
      TaskIsCounted(t, w, i);
      t := TakeStep(concurrency, s, t, ReadRow(w, i));
    }
    if t.workers[w].tasks[i].progress.Saw? {
      ClaimNeverRaces(t, w, i);
      t := TakeStep(concurrency, s, t, CommitClaim(w, i));
    }
    s' := StoreAndRelease(concurrency, t, w, i, verdict);
    ReachesOn(concurrency, s, t, s');
  }

  lemma HeldCompletes(concurrency: seq<nat>, s: System, w: nat, verdict: Verdict) returns (s': System)
    requires Inv(s, concurrency) && w < |s.workers| && s.workers[w].main.Holding?
    ensures Reaches(concurrency, s, s') && Inv(s', concurrency) && Completed(s', s.workers[w].main.run, verdict)
  {
    ReachesSelf(concurrency, s);
    var spawned := TakeStep(concurrency, s, s, Spawn(w));
    s' := TaskCompletes(concurrency, spawned, w, |s.workers[w].tasks|, verdict);
    ReachesOn(concurrency, s, spawned, s');
  }

  /** A worker without a free permit gets one back from a task that ends. */
  lemma PermitComesBack(concurrency: seq<nat>, s: System, w: nat) returns (s': System)
    requires Inv(s, concurrency) && w < |s.workers| && concurrency[w] > 0 && s.workers[w].main.Acquiring?
    ensures Reaches(concurrency, s, s') && Inv(s', concurrency)
    ensures s'.queue == s.queue && s'.workers[w].main.Acquiring? && s'.workers[w].permits > 0
  {
    ReachesSelf(concurrency, s);
    s' := s;
    if s.workers[w].permits == 0 {
      assert |s.workers[w].tasks| == concurrency[w];
      if !s.workers[w].tasks[0].progress.Ended? {
        s' := TakeStep(concurrency, s, s', Raise(w, 0));
      }
      s' := TakeStep(concurrency, s, s', Release(w, 0));
    }
  }

  /** Every worker gets round to polling again. */
  lemma PollsAgain(concurrency: seq<nat>, s: System, w: nat) returns (s': System)
    requires Inv(s, concurrency) && w < |s.workers| && concurrency[w] > 0
    ensures Reaches(concurrency, s, s') && Inv(s', concurrency)
    ensures s'.queue == s.queue && s'.workers[w].main.Polling?
  {
    ReachesSelf(concurrency, s);
    s' := s;
    if s'.workers[w].main.Holding? {
      s' := TakeStep(concurrency, s, s', Spawn(w));
    }
    if s'.workers[w].main.Acquiring? {
      var free := PermitComesBack(concurrency, s', w);
      ReachesOn(concurrency, s, s', free);
      s' := TakeStep(concurrency, s, free, Acquire(w));
    }
  }

  /** A worker can always pop the oldest queued run. */
  lemma PopsOldest(concurrency: seq<nat>, s: System, w: nat) returns (s': System)
    requires Inv(s, concurrency) && w < |s.workers| && concurrency[w] > 0 && s.queue != []
    ensures Reaches(concurrency, s, s') && Inv(s', concurrency) && w < |s'.workers|
    ensures s'.queue == s.queue[..|s.queue| - 1] && s'.workers[w].main == Holding(s.queue[|s.queue| - 1])
  {
    var polling := PollsAgain(concurrency, s, w);
    s' := TakeStep(concurrency, s, polling, Pop(w));
  }

  lemma StillQueued(queue: seq<RunId>, r: RunId)
    requires r in queue && queue[|queue| - 1] != r
    ensures r in queue[..|queue| - 1]
  {
  }

  /** A queued run is popped once those in front of it are. */
  lemma {:induction false} QueuedIsPopped(concurrency: seq<nat>, s: System, w: nat, r: RunId) returns (s': System)
    requires Inv(s, concurrency) && w < |s.workers| && concurrency[w] > 0 && r in s.queue
    ensures Reaches(concurrency, s, s') && Inv(s', concurrency)
    ensures w < |s'.workers| && s'.workers[w].main == Holding(r)
    decreases |s.queue|
  {
    var n := |s.queue| - 1;
    var popped := PopsOldest(concurrency, s, w);
    if s.queue[n] == r {
      s' := popped;
    } else {
      StillQueued(s.queue, r);
      s' := QueuedIsPopped(concurrency, popped, w, r);
      ReachesOn(concurrency, s, popped, s');
    }
  }

  lemma QueuedCompletes(concurrency: seq<nat>, s: System, w: nat, r: RunId, verdict: Verdict) returns (s': System)
    requires Inv(s, concurrency) && w < |s.workers| && concurrency[w] > 0 && r in s.queue
    ensures Reaches(concurrency, s, s') && Inv(s', concurrency) && Completed(s', r, verdict)
  {
    var held := QueuedIsPopped(concurrency, s, w, r);
    s' := HeldCompletes(concurrency, held, w, verdict);
    ReachesOn(concurrency, s, held, s');
  }

  lemma PendingCompletes(concurrency: seq<nat>, s: System, w: nat, r: RunId, verdict: Verdict) returns (s': System)
    requires Inv(s, concurrency) && w < |s.workers| && concurrency[w] > 0 && r in s.pending
    ensures Reaches(concurrency, s, s') && Inv(s', concurrency) && Completed(s', r, verdict)
  {
    var p :| 0 <= p < |s.pending| && s.pending[p] == r;
    ReachesSelf(concurrency, s);
    var queued := TakeStep(concurrency, s, s, Enqueue(p));
    assert queued.queue[0] == r;
    s' := QueuedCompletes(concurrency, queued, w, r, verdict);
    ReachesOn(concurrency, s, queued, s');
  }

  // ----- finding the run -----

  lemma {:induction false} TaskOf(tasks: seq<Task>, k: Place, r: RunId) returns (i: nat)
    requires TaskCount(tasks, k, r) > 0
    ensures i < |tasks| && tasks[i].run == r && PlaceOf(tasks[i].progress) == k
  {
    if tasks[0].run == r && PlaceOf(tasks[0].progress) == k {
      i := 0;
    } else {
      i := TaskOf(tasks[1..], k, r);
      i := i + 1;
    }
  }

  lemma {:induction false} WorkerOf(workers: seq<Worker>, k: Place, r: RunId) returns (w: nat)
    requires Count(workers, k, r) > 0
    ensures w < |workers| && WorkerCount(workers[w], k, r) > 0
  {
    if WorkerCount(workers[0], k, r) > 0 {
      w := 0;
    } else {
      w := WorkerOf(workers[1..], k, r);
      w := w + 1;
    }
  }

  /** Neither lost nor ended: the run waits for its push, is queued, held, or in an unclaimed or working task. */
  ghost predicate Alive(s: System, r: RunId) {
    Waiting(s, r) > 0 || Count(s.workers, InWork, r) > 0
  }

  lemma WorkerCompletes(concurrency: seq<nat>, s: System, k: Place, r: RunId, verdict: Verdict) returns (s': System)
    requires Inv(s, concurrency) && k != Over && Count(s.workers, k, r) > 0
    ensures Reaches(concurrency, s, s') && Inv(s', concurrency) && Completed(s', r, verdict)
  {
    var w := WorkerOf(s.workers, k, r);
    if k == InHand {
      s' := HeldCompletes(concurrency, s, w, verdict);
    } else {
      var i := TaskOf(s.workers[w].tasks, k, r);
      s' := TaskCompletes(concurrency, s, w, i, verdict);
    }
  }

  lemma AliveCompletes(concurrency: seq<nat>, s: System, w: nat, r: RunId, verdict: Verdict) returns (s': System)
    requires Inv(s, concurrency) && w < |concurrency| && concurrency[w] > 0 && Alive(s, r)
    ensures Reaches(concurrency, s, s') && Inv(s', concurrency) && Completed(s', r, verdict)
  {
    if Count(s.workers, InWork, r) > 0 {
      s' := WorkerCompletes(concurrency, s, InWork, r, verdict);
    } else if Count(s.workers, Unclaimed, r) > 0 {
      s' := WorkerCompletes(concurrency, s, Unclaimed, r, verdict);
    } else if Count(s.workers, InHand, r) > 0 {
      s' := WorkerCompletes(concurrency, s, InHand, r, verdict);
    } else if r in s.queue {
      s' := QueuedCompletes(concurrency, s, w, r, verdict);
    } else {
      assert multiset(s.pending)[r] > 0;
      s' := PendingCompletes(concurrency, s, w, r, verdict);
    }
  }

  // ----- exactly the runs that are alive -----

  /** The run has no result and will get none. */
  ghost predicate Dead(s: System, r: RunId) {
    r in s.db.runs && r !in s.db.results && !Alive(s, r)
  }

  /** A run that is lost or has ended without a result stays so. */
  lemma DeadStep(s: System, step: Step, s': System, concurrency: seq<nat>, r: RunId)
    requires Follows(s, step, s', concurrency) && Inv(s, concurrency) && Dead(s, r)
    ensures Dead(s', r)
  {
    StepMoves(s, step, concurrency, r);
    RowStep(s, step, concurrency, r);
    StepKeepsInv(s, step, concurrency);
  }

  /** What steps keep of one run: its document, and that it will get no result. */
  ghost predicate Keeps(s: System, s': System, concurrency: seq<nat>, r: RunId) {
    Inv(s, concurrency) ==>
      && Inv(s', concurrency)
      && (r in s.db.runs ==> r in s'.db.runs && s'.db.runs[r].doc == s.db.runs[r].doc)
      && (Dead(s, r) ==> Dead(s', r))
  }

  lemma FollowsKeeps(s: System, step: Step, s': System, concurrency: seq<nat>, r: RunId)
    requires Follows(s, step, s', concurrency)
    ensures Keeps(s, s', concurrency, r)
  {
    if Inv(s, concurrency) {
      FollowsKeepsInv(s, step, s', concurrency);
      DatabaseStep(s, step, concurrency);
      if Dead(s, r) {
        DeadStep(s, step, s', concurrency, r);
      }
    }
  }

  lemma KeepsOn(a: System, b: System, c: System, concurrency: seq<nat>, r: RunId)
    requires Keeps(a, b, concurrency, r) && Keeps(b, c, concurrency, r)
    ensures Keeps(a, c, concurrency, r)
  {
  }

  lemma {:induction false} ChainKeeps(states: seq<System>, concurrency: seq<nat>, k: nat, r: RunId)
    requires k < |states|
    requires forall i, j :: 0 <= i < j < |states| && j == i + 1 ==> Keeps(states[i], states[j], concurrency, r)
    ensures Keeps(states[0], states[k], concurrency, r)
  {
    if k > 0 {
      ChainKeeps(states, concurrency, k - 1, r);
      KeepsOn(states[0], states[k - 1], states[k], concurrency, r);
    }
  }

  lemma ReachesKeeps(concurrency: seq<nat>, s: System, s': System, r: RunId)
    requires Reaches(concurrency, s, s')
    ensures Keeps(s, s', concurrency, r)
  {
    var states, steps :| Path(concurrency, states, steps) && states[0] == s && states[|steps|] == s';
    forall i, j | 0 <= i < j < |states| && j == i + 1 ensures Keeps(states[i], states[j], concurrency, r) {
      FollowsKeeps(states[i], steps[i], states[j], concurrency, r);
    }
    ChainKeeps(states, concurrency, |steps|, r);
  }

  /** In every reachable state of a system with a worker that has a slot, a submitted run without a result can still
      get one, and then any verdict, if and only if it is neither lost nor ended. */
  lemma CompletableIff(concurrency: seq<nat>, states: seq<System>, steps: seq<Step>, k: nat, w: nat, r: RunId,
                       verdict: Verdict)
    requires Execution(concurrency, states, steps) && k < |states| && w < |concurrency| && concurrency[w] > 0
    requires r in states[k].db.runs && r !in states[k].db.results
    ensures (exists s' :: Reaches(concurrency, states[k], s') && r in s'.db.results) <==> Alive(states[k], r)
    ensures Alive(states[k], r) ==> exists s' :: Reaches(concurrency, states[k], s') && Completed(s', r, verdict)
  {
    var s := states[k];
    AlwaysInv(concurrency, states, steps, k);
    if Alive(s, r) {
      var s' := AliveCompletes(concurrency, s, w, r, verdict);
    } else {
      forall s' | Reaches(concurrency, s, s') ensures r !in s'.db.results {
        ReachesKeeps(concurrency, s, s', r);
      }
    }
  }

  lemma PathFirst(concurrency: seq<nat>, s: System, step: Step, s': System)
    requires Follows(s, step, s', concurrency)
    ensures Path(concurrency, [s, s'], [step])
  {
  }

  lemma Submitted(concurrency: seq<nat>, r: RunId, doc: DocId) returns (s: System)
    ensures Follows(Init(concurrency), Submit(r, doc), s, concurrency)
    ensures Inv(s, concurrency) && r in s.pending && r in s.db.runs && s.db.runs[r].doc == doc
  {
    s := Apply(Init(concurrency), Submit(r, doc), concurrency);
    InitInv(concurrency);
    StepKeepsInv(Init(concurrency), Submit(r, doc), concurrency);
    assert s.pending == [r];
  }

  /** Some run of the system brings a fresh submission to the verdict. */
  lemma FreshRunCompletes(concurrency: seq<nat>, w: nat, r: RunId, doc: DocId, verdict: Verdict)
    returns (states: seq<System>, steps: seq<Step>)
    requires w < |concurrency| && concurrency[w] > 0
    ensures Execution(concurrency, states, steps)
    ensures Completed(states[|steps|], r, verdict) && states[|steps|].db.runs[r].doc == doc
  {
    var s := Init(concurrency);
    var submitted := Submitted(concurrency, r, doc);
    var last := PendingCompletes(concurrency, submitted, w, r, verdict);
    ReachesKeeps(concurrency, submitted, last, r);
    var after, more :| Path(concurrency, after, more) && after[0] == submitted && after[|more|] == last;
    PathFirst(concurrency, s, Submit(r, doc), submitted);
    PathConcat(concurrency, [s, submitted], [Submit(r, doc)], after, more);
    states, steps := [s, submitted] + after[1..], [Submit(r, doc)] + more;
  }
}
