/** spdlog's asynchronous thread pool: producers, workers and the destructor interleaving over the
    bounded queue, one critical section of the queue at a time. */
module ThreadPool {
  import opened Core
  import opened CircularQueue

  /** A log or flush request. */
  type Job = nat

  datatype Item = Work(job: Job) | Terminate

  /** A worker waits in dequeue, runs a job, or has left its loop. */
  datatype Worker = Idle | Busy(job: Job) | Exited

  /** The destructor posts one token per worker, then joins the workers in order. */
  datatype Phase = Open | Posting(sent: nat) | Joining(joined: nat) | Gone

  /** A job that left the queue: taken by a worker, or overrun by a newer one. */
  datatype Removal = Removal(job: Job, overrun: bool)

  datatype Pool = Pool(
    capacity: nat,
    queue: seq<Item>,
    workers: seq<Worker>,
    phase: Phase,
    posted: seq<Job>,
    removed: seq<Removal>,
    processed: multiset<Job>)

  datatype Event =
    | Post(job: Job)         // async_overflow_policy::block
    | PostNowait(job: Job)   // async_overflow_policy::overrun_oldest
    | Take(worker: nat)
    | Finish(worker: nat)
    | BeginDestroy
    | PostToken
    | Join

  /** The constructor refuses other numbers of threads. */
  predicate ValidThreads(n: nat) { 1 <= n <= 1000 }

  function Init(capacity: nat, threads: nat): Pool {
    Pool(capacity, [], seq(threads, i => Idle), Open, [], [], multiset{})
  }

  predicate Enabled(e: Event, s: Pool) {
    match e
    case Post(_) => s.phase.Open? && |s.queue| < s.capacity
    case PostNowait(_) => s.phase.Open? && |s.queue| <= s.capacity
    case Take(w) => w < |s.workers| && s.workers[w].Idle? && s.queue != []
    case Finish(w) => w < |s.workers| && s.workers[w].Busy?
    case BeginDestroy => s.phase.Open?
    case PostToken => s.phase.Posting? && s.phase.sent < |s.workers| && |s.queue| < s.capacity
    case Join => s.phase.Joining? && s.phase.joined < |s.workers| && s.workers[s.phase.joined].Exited?
  }

  function Apply(e: Event, s: Pool): Pool
    requires Enabled(e, s)
  {
    match e
    case Post(job) => s.(queue := s.queue + [Work(job)], posted := s.posted + [job])
    case PostNowait(job) =>
      var full := s.queue + [Work(job)];
      s.(queue := Pushed(s.queue, Work(job), s.capacity),
         posted := s.posted + [job],
         removed := if |s.queue| == s.capacity && full[0].Work? then s.removed + [Removal(full[0].job, true)]
                    else s.removed)
    case Take(w) =>
      var rest := s.(queue := s.queue[1..]);
      if s.queue[0].Work? then
        rest.(workers := s.workers[w := Busy(s.queue[0].job)], removed := s.removed + [Removal(s.queue[0].job, false)])
      else rest.(workers := s.workers[w := Exited])
    case Finish(w) => s.(workers := s.workers[w := Idle], processed := s.processed + multiset{s.workers[w].job})
    case BeginDestroy => s.(phase := Posting(0))
    case PostToken =>
      s.(queue := s.queue + [Terminate],
         phase := if s.phase.sent + 1 == |s.workers| then Joining(0) else Posting(s.phase.sent + 1))
    case Join =>
      s.(phase := if s.phase.joined + 1 == |s.workers| then Gone else Joining(s.phase.joined + 1))
  }

  /** The state after a run, if every event was possible. */
  function Exec(s: Pool, run: seq<Event>): Option<Pool>
    decreases |run|
  {
    if run == [] then Some(s)
    else if Enabled(run[0], s) then Exec(Apply(run[0], s), run[1..])
    else None
  }

  // ----- what is in the queue and in the workers -----

  function JobsOf(queue: seq<Item>): seq<Job> {
    if queue == [] then []
    else if queue[0].Work? then [queue[0].job] + JobsOf(queue[1..])
    else JobsOf(queue[1..])
  }

  function TokensIn(queue: seq<Item>): nat {
    if queue == [] then 0 else (if queue[0].Terminate? then 1 else 0) + TokensIn(queue[1..])
  }

  function ExitedIn(workers: seq<Worker>): nat {
    if workers == [] then 0 else (if workers[0].Exited? then 1 else 0) + ExitedIn(workers[1..])
  }

  function Running(workers: seq<Worker>): multiset<Job> {
    if workers == [] then multiset{}
    else JobOf(workers[0]) + Running(workers[1..])
  }

  function RemovedJobs(removed: seq<Removal>): seq<Job> {
    if removed == [] then []
    else RemovedJobs(removed[..|removed| - 1]) + [removed[|removed| - 1].job]
  }

  /** The removed jobs with the given fate. */
  function Fate(removed: seq<Removal>, overrun: bool): multiset<Job> {
    if removed == [] then multiset{}
    else
      var last := removed[|removed| - 1];
      Fate(removed[..|removed| - 1], overrun) + (if last.overrun == overrun then multiset{last.job} else multiset{})
  }

  function Sent(s: Pool): nat {
    match s.phase
    case Open => 0
    case Posting(sent) => sent
    case _ => |s.workers|
  }

  predicate TokensLast(queue: seq<Item>) {
    forall i, j :: 0 <= i < j < |queue| && queue[i].Terminate? ==> queue[j].Terminate?
  }

  ghost predicate Inv(s: Pool) {
    && |s.workers| > 0
    && |s.queue| <= s.capacity
    && TokensLast(s.queue)
    && TokensIn(s.queue) + ExitedIn(s.workers) == Sent(s)
    && (ExitedIn(s.workers) > 0 ==> JobsOf(s.queue) == [])
    && s.posted == RemovedJobs(s.removed) + JobsOf(s.queue)
    && Fate(s.removed, false) == s.processed + Running(s.workers)
    && PhaseInv(s)
  }

  ghost predicate PhaseInv(s: Pool) {
    match s.phase
    case Open => true
    case Posting(sent) => sent < |s.workers|
    case Joining(joined) => joined < |s.workers| && forall i :: 0 <= i < joined ==> s.workers[i].Exited?
    case Gone => forall i :: 0 <= i < |s.workers| ==> s.workers[i].Exited?
  }

  // ----- list lemmas -----

  lemma {:induction false} JobsSnoc(queue: seq<Item>, item: Item)
    ensures JobsOf(queue + [item]) == JobsOf(queue) + (if item.Work? then [item.job] else [])
    ensures TokensIn(queue + [item]) == TokensIn(queue) + (if item.Terminate? then 1 else 0)
  {
    if queue == [] {
      assert queue + [item] == [item];
      assert [item][1..] == [];
    } else {
      assert (queue + [item])[1..] == queue[1..] + [item];
      JobsSnoc(queue[1..], item);
    }
  }

  lemma {:induction false} NoTokens(queue: seq<Item>)
    requires TokensIn(queue) == 0
    ensures forall i :: 0 <= i < |queue| ==> queue[i].Work?
  {
    if queue != [] {
      NoTokens(queue[1..]);
    }
  }

  lemma {:induction false} OnlyTokens(queue: seq<Item>)
    requires forall i :: 0 <= i < |queue| ==> queue[i].Terminate?
    ensures JobsOf(queue) == [] && TokensIn(queue) == |queue|
  {
    if queue != [] {
      OnlyTokens(queue[1..]);
    }
  }

  lemma {:induction false} QueueLength(queue: seq<Item>)
    ensures |queue| == |JobsOf(queue)| + TokensIn(queue)
  {
    if queue != [] {
      QueueLength(queue[1..]);
    }
  }

  /** The job a worker runs, if any. */
  function JobOf(w: Worker): multiset<Job> {
    if w.Busy? then multiset{w.job} else multiset{}
  }

  lemma Shift(a: multiset<Job>, r: multiset<Job>, x: multiset<Job>, r': multiset<Job>, y: multiset<Job>)
    requires r + x == r' + y
    ensures a + r + x == a + r' + y
  {
    assert a + r + x == a + (r + x);
    assert a + r' + y == a + (r' + y);
  }

  lemma {:induction false} WorkerChange(workers: seq<Worker>, w: nat, next: Worker)
    requires w < |workers|
    ensures var changed := workers[w := next];
            && ExitedIn(changed) + (if workers[w].Exited? then 1 else 0)
               == ExitedIn(workers) + (if next.Exited? then 1 else 0)
            && Running(changed) + JobOf(workers[w]) == Running(workers) + JobOf(next)
    decreases w
  {
    hide JobOf;
    var changed := workers[w := next];
    if w == 0 {
      assert changed[1..] == workers[1..];
    } else {
      assert changed[1..] == workers[1..][w - 1 := next];
      WorkerChange(workers[1..], w - 1, next);
      Shift(JobOf(workers[0]), Running(changed[1..]), JobOf(workers[w]), Running(workers[1..]), JobOf(next));
    }
  }

  lemma {:induction false} AllIdle(n: nat)
    ensures ExitedIn(seq(n, i => Idle)) == 0 && Running(seq(n, i => Idle)) == multiset{}
  {
    if n > 0 {
      assert seq(n, i => Idle)[1..] == seq(n - 1, i => Idle);
      AllIdle(n - 1);
    }
  }

  lemma {:induction false} AllExited(workers: seq<Worker>)
    requires forall i :: 0 <= i < |workers| ==> workers[i].Exited?
    ensures ExitedIn(workers) == |workers| && Running(workers) == multiset{}
  {
    if workers != [] {
      AllExited(workers[1..]);
    }
  }

  lemma {:induction false} ExitedAtMost(workers: seq<Worker>)
    ensures ExitedIn(workers) <= |workers|
    ensures ExitedIn(workers) == |workers| ==> forall i :: 0 <= i < |workers| ==> workers[i].Exited?
    ensures ExitedIn(workers) < |workers| ==> exists i :: 0 <= i < |workers| && !workers[i].Exited?
  {
    if workers != [] {
      ExitedAtMost(workers[1..]);
      if ExitedIn(workers[1..]) < |workers[1..]| {
        var i :| 0 <= i < |workers[1..]| && !workers[1..][i].Exited?;
        assert !workers[i + 1].Exited?;
      }
    }
  }

  lemma RemovalSnoc(removed: seq<Removal>, r: Removal)
    ensures RemovedJobs(removed + [r]) == RemovedJobs(removed) + [r.job]
    ensures Fate(removed + [r], r.overrun) == Fate(removed, r.overrun) + multiset{r.job}
    ensures Fate(removed + [r], !r.overrun) == Fate(removed, !r.overrun)
  {
    assert (removed + [r])[..|removed|] == removed;
  }

  // ----- the invariant -----

  lemma InitInv(capacity: nat, threads: nat)
    requires ValidThreads(threads)
    ensures Inv(Init(capacity, threads))
  {
    AllIdle(threads);
  }

  lemma PostKeeps(s: Pool, job: Job)
    requires Inv(s) && Enabled(Post(job), s)
    ensures Inv(Apply(Post(job), s))
  {
    JobsSnoc(s.queue, Work(job));
    NoTokens(s.queue);
  }

  lemma PostNowaitKeeps(s: Pool, job: Job)
    requires Inv(s) && Enabled(PostNowait(job), s)
    ensures Inv(Apply(PostNowait(job), s))
  {
    hide RemovedJobs, Fate, Running;
    JobsSnoc(s.queue, Work(job));
    NoTokens(s.queue);
    if |s.queue| == s.capacity {
      var full := s.queue + [Work(job)];
      assert full[0].Work? && JobsOf(full) == [full[0].job] + JobsOf(full[1..]);
      RemovalSnoc(s.removed, Removal(full[0].job, true));
      assert s.posted + [job] == RemovedJobs(s.removed) + JobsOf(full);
      assert Apply(PostNowait(job), s).queue == full[1..];
    }
  }

  lemma TakeKeeps(s: Pool, w: nat)
    requires Inv(s) && Enabled(Take(w), s)
    ensures Inv(Apply(Take(w), s))
  {
    hide Inv, Apply;
    if s.queue[0].Work? {
      TakeWorkKeeps(s, w);
    } else {
      TakeTokenKeeps(s, w);
    }
  }

  lemma TakeWorkKeeps(s: Pool, w: nat)
    requires Inv(s) && Enabled(Take(w), s) && s.queue[0].Work?
    ensures Inv(Apply(Take(w), s))
  {
    hide RemovedJobs, Fate, Running, ExitedIn, PhaseInv;
    var first := s.queue[0];
    WorkerChange(s.workers, w, Busy(first.job));
    RemovalSnoc(s.removed, Removal(first.job, false));
    assert s.posted == RemovedJobs(s.removed) + [first.job] + JobsOf(s.queue[1..]);
    var running := Running(s.workers[w := Busy(first.job)]);
    assert running + JobOf(Idle) == running;
    assert s.processed + Running(s.workers) + multiset{first.job} == s.processed + running;
    TakePhase(s, w);
  }

  lemma TakeTokenKeeps(s: Pool, w: nat)
    requires Inv(s) && Enabled(Take(w), s) && s.queue[0].Terminate?
    ensures Inv(Apply(Take(w), s))
  {
    hide RemovedJobs, Fate, Running, ExitedIn, PhaseInv;
    WorkerChange(s.workers, w, Exited);
    assert forall i :: 0 < i < |s.queue| ==> s.queue[0].Terminate? && s.queue[i].Terminate?;
    var running := Running(s.workers[w := Exited]);
    assert running + JobOf(Idle) == running;
    OnlyTokens(s.queue[1..]);
    OnlyTokens(s.queue);
    TakePhase(s, w);
  }

  lemma TakePhase(s: Pool, w: nat)
    requires PhaseInv(s) && Enabled(Take(w), s)
    ensures PhaseInv(Apply(Take(w), s))
  {
  }

  lemma FinishKeeps(s: Pool, w: nat)
    requires Inv(s) && Enabled(Finish(w), s)
    ensures Inv(Apply(Finish(w), s))
  {
    hide RemovedJobs, Fate, Running, ExitedIn, JobsOf, TokensIn, TokensLast;
    WorkerChange(s.workers, w, Idle);
    Regroup(s.processed, Running(s.workers), JobOf(s.workers[w]), Running(s.workers[w := Idle]));
  }

  lemma Regroup(processed: multiset<Job>, running: multiset<Job>, job: multiset<Job>, running': multiset<Job>)
    requires running' + job == running
    ensures processed + running == processed + job + running'
  {
  }

  lemma PostTokenKeeps(s: Pool)
    requires Inv(s) && Enabled(PostToken, s)
    ensures Inv(Apply(PostToken, s))
  {
    hide RemovedJobs, Fate, Running, ExitedIn;
    JobsSnoc(s.queue, Terminate);
  }

  lemma DestroyAndJoinKeep(s: Pool, e: Event)
    requires Inv(s) && Enabled(e, s) && (e.BeginDestroy? || e.Join?)
    ensures Inv(Apply(e, s))
  {
    hide RemovedJobs, Fate, Running, JobsOf, TokensIn;
    ExitedAtMost(s.workers);
  }

  lemma StepKeeps(s: Pool, e: Event)
    requires Inv(s) && Enabled(e, s)
    ensures Inv(Apply(e, s))
  {
    hide Inv, Apply, Enabled;
    match e
    case Post(job) => PostKeeps(s, job);
    case PostNowait(job) => PostNowaitKeeps(s, job);
    case Take(w) => TakeKeeps(s, w);
    case Finish(w) => FinishKeeps(s, w);
    case PostToken => PostTokenKeeps(s);
    case BeginDestroy => DestroyAndJoinKeep(s, e);
    case Join => DestroyAndJoinKeep(s, e);
  }

  lemma {:induction false} RunKeeps(s: Pool, run: seq<Event>)
    requires Inv(s)
    ensures Exec(s, run).Some? ==> Inv(Exec(s, run).value)
    decreases |run|
  {
    hide Inv, Apply, Enabled;
    if run != [] && Enabled(run[0], s) {
      StepKeeps(s, run[0]);
      RunKeeps(Apply(run[0], s), run[1..]);
    }
  }

  // ----- shutdown -----

  /** In every run of every pool: the queue is first in, first out (jobs leave it in the order they were
      posted, overrun or not), no job is lost or run twice, and once the destructor has joined its last
      worker the queue is empty, each worker has taken its one token, and every job that was not overrun
      has been processed exactly once. */
  lemma ShutdownIsComplete(capacity: nat, threads: nat, run: seq<Event>)
    requires ValidThreads(threads)
    ensures var r := Exec(Init(capacity, threads), run);
            r.Some? ==>
              var s := r.value;
              && s.posted == RemovedJobs(s.removed) + JobsOf(s.queue)
              && Fate(s.removed, false) == s.processed + Running(s.workers)
              && TokensIn(s.queue) + ExitedIn(s.workers) == Sent(s)
              && (s.phase.Gone? ==>
                   && s.queue == [] && ExitedIn(s.workers) == |s.workers| == Sent(s)
                   && s.posted == RemovedJobs(s.removed)
                   && s.processed == Fate(s.removed, false)
                   && multiset(s.posted) == s.processed + Fate(s.removed, true))
  {
    hide Exec, Init;
    InitInv(capacity, threads);
    RunKeeps(Init(capacity, threads), run);
    var r := Exec(Init(capacity, threads), run);
    if r.Some? && r.value.phase.Gone? {
      GoneIsComplete(r.value);
    }
  }

  lemma GoneIsComplete(s: Pool)
    requires Inv(s) && s.phase.Gone?
    ensures s.queue == [] && s.posted == RemovedJobs(s.removed) && s.processed == Fate(s.removed, false)
    ensures ExitedIn(s.workers) == |s.workers|
    ensures multiset(s.posted) == s.processed + Fate(s.removed, true)
  {
    hide RemovedJobs, Fate, Running, ExitedIn;
    AllExited(s.workers);
    assert TokensIn(s.queue) == 0;
    QueueLength(s.queue);
    FatesPartition(s.removed);
  }

  lemma {:induction false} FatesPartition(removed: seq<Removal>)
    ensures multiset(RemovedJobs(removed)) == Fate(removed, false) + Fate(removed, true)
    decreases |removed|
  {
    if removed != [] {
      FatesPartition(removed[..|removed| - 1]);
    }
  }

  // ----- what is posted and what is overrun -----

  /** The jobs that the events of a run post, in order. */
  function PostedIn(run: seq<Event>): seq<Job> {
    if run == [] then []
    else (if run[0].Post? || run[0].PostNowait? then [run[0].job] else []) + PostedIn(run[1..])
  }

  /** The posts of a run that do not wait and meet a full queue. */
  function CrowdedPosts(s: Pool, run: seq<Event>): nat
    decreases |run|
  {
    if run == [] || !Enabled(run[0], s) then 0
    else (if run[0].PostNowait? && |s.queue| == s.capacity then 1 else 0) + CrowdedPosts(Apply(run[0], s), run[1..])
  }

  function Overruns(removed: seq<Removal>): nat {
    if removed == [] then 0
    else Overruns(removed[..|removed| - 1]) + (if removed[|removed| - 1].overrun then 1 else 0)
  }

  /** As many jobs as the queue holds were posted after any job that was overrun. */
  ghost predicate OldOverrun(s: Pool) {
    forall i :: 0 <= i < |s.removed| && s.removed[i].overrun ==> i + s.capacity < |s.posted|
  }

  lemma OverrunsSnoc(removed: seq<Removal>, r: Removal)
    ensures Overruns(removed + [r]) == Overruns(removed) + (if r.overrun then 1 else 0)
  {
    assert (removed + [r])[..|removed|] == removed;
  }

  lemma {:induction false} RemovedLength(removed: seq<Removal>)
    ensures |RemovedJobs(removed)| == |removed|
    decreases |removed|
  {
    if removed != [] {
      RemovedLength(removed[..|removed| - 1]);
    }
  }

  /** A post that does not wait and meets a full queue overruns the oldest job; nothing else overruns any. */
  lemma StepOverruns(s: Pool, e: Event)
    requires Inv(s) && OldOverrun(s) && Enabled(e, s)
    ensures var s' := Apply(e, s);
            && s'.capacity == s.capacity && OldOverrun(s')
            && s'.posted == s.posted + PostedIn([e])
            && Overruns(s'.removed) ==
               Overruns(s.removed) + (if e.PostNowait? && |s.queue| == s.capacity then 1 else 0)
  {
    hide RemovedJobs, Fate, Running, JobsOf, Inv, TokensIn, Overruns;
    assert [e][1..] == [];
    match e
    case PostNowait(job) => NowaitOverruns(s, job);
    case Take(w) => if s.queue[0].Work? { OverrunsSnoc(s.removed, Removal(s.queue[0].job, false)); }
    case _ =>
  }

  lemma NowaitOverruns(s: Pool, job: Job)
    requires Inv(s) && OldOverrun(s) && Enabled(PostNowait(job), s)
    ensures var s' := Apply(PostNowait(job), s);
            && OldOverrun(s')
            && Overruns(s'.removed) == Overruns(s.removed) + (if |s.queue| == s.capacity then 1 else 0)
  {
    hide RemovedJobs, Fate, Running, Overruns, JobsOf;
    NoTokens(s.queue);
    if |s.queue| == s.capacity {
      var full := s.queue + [Work(job)];
      assert full[0].Work?;
      OverrunsSnoc(s.removed, Removal(full[0].job, true));
      QueueLength(s.queue);
      RemovedLength(s.removed);
    }
  }

  lemma {:induction false} RunOverruns(s: Pool, run: seq<Event>)
    requires Inv(s) && OldOverrun(s) && Exec(s, run).Some?
    ensures var s' := Exec(s, run).value;
            && s'.capacity == s.capacity && OldOverrun(s')
            && s'.posted == s.posted + PostedIn(run)
            && Overruns(s'.removed) == Overruns(s.removed) + CrowdedPosts(s, run)
    decreases |run|
  {
    hide Inv, Apply, Enabled, OldOverrun, Overruns;
    if run != [] {
      StepKeeps(s, run[0]);
      StepOverruns(s, run[0]);
      RunOverruns(Apply(run[0], s), run[1..]);
      assert PostedIn([run[0]]) + PostedIn(run[1..]) == PostedIn(run) by { assert [run[0]][1..] == []; }
    }
  }

  /** In every run of every pool: the jobs posted are those of the run's events; as many jobs are overrun as posts
      that do not wait met a full queue; and none of the newest jobs, as many as the queue holds, is overrun. */
  lemma OverrunExactly(capacity: nat, threads: nat, run: seq<Event>)
    requires ValidThreads(threads)
    ensures var r := Exec(Init(capacity, threads), run);
            r.Some? ==>
              var s := r.value;
              && s.posted == PostedIn(run)
              && Overruns(s.removed) == CrowdedPosts(Init(capacity, threads), run)
              && (forall i :: 0 <= i < |s.removed| && s.removed[i].overrun ==> i + capacity < |s.posted|)
  {
    hide Exec, CrowdedPosts, PostedIn;
    InitInv(capacity, threads);
    if Exec(Init(capacity, threads), run).Some? {
      RunOverruns(Init(capacity, threads), run);
    }
  }

  // ----- the destructor returns -----

  /** The steps still to be taken once the destructor has started. */
  function StepsLeft(s: Pool): int {
    2 * |JobsOf(s.queue)| + TokensIn(s.queue) + |Running(s.workers)| + 2 * (|s.workers| - Sent(s)) + JoinsLeft(s)
  }

  function JoinsLeft(s: Pool): int {
    match s.phase
    case Joining(joined) => |s.workers| - joined
    case Gone => 0
    case _ => |s.workers|
  }

  lemma TakeCountsDown(s: Pool, w: nat)
    requires Inv(s) && Enabled(Take(w), s)
    ensures StepsLeft(Apply(Take(w), s)) == StepsLeft(s) - 1
  {
    hide RemovedJobs, Fate, Running, ExitedIn, Inv, TokensLast;
    var next := if s.queue[0].Work? then Busy(s.queue[0].job) else Exited;
    WorkerChange(s.workers, w, next);
    assert |Running(s.workers[w := next]) + JobOf(s.workers[w])| == |Running(s.workers) + JobOf(next)|;
  }

  lemma FinishCountsDown(s: Pool, w: nat)
    requires Inv(s) && Enabled(Finish(w), s)
    ensures StepsLeft(Apply(Finish(w), s)) == StepsLeft(s) - 1
  {
    hide RemovedJobs, Fate, Running, ExitedIn, Inv, TokensLast, JobsOf, TokensIn;
    WorkerChange(s.workers, w, Idle);
    assert |Running(s.workers[w := Idle]) + JobOf(s.workers[w])| == |Running(s.workers) + JobOf(Idle)|;
  }

  /** Whatever is scheduled, each step brings the end one step closer. */
  lemma StepCountsDown(s: Pool, e: Event)
    requires Inv(s) && Enabled(e, s) && !s.phase.Open?
    ensures StepsLeft(Apply(e, s)) == StepsLeft(s) - 1
  {
    hide RemovedJobs, Fate, Running, ExitedIn, Inv, JobsOf, TokensIn;
    match e
    case Take(w) => TakeCountsDown(s, w);
    case Finish(w) => FinishCountsDown(s, w);
    case PostToken => JobsSnoc(s.queue, Terminate);
    case _ =>
  }

  lemma StepsLeftBounds(s: Pool)
    requires Inv(s)
    ensures StepsLeft(s) >= 0
    ensures !s.phase.Open? && !s.phase.Gone? ==> StepsLeft(s) > 0
    ensures s.phase.Gone? ==> StepsLeft(s) == 0
  {
    hide RemovedJobs, Fate, Running, JobsOf, TokensIn;
    ExitedAtMost(s.workers);
    if s.phase.Gone? {
      GoneIsComplete(s);
      AllExited(s.workers);
      OnlyTokens(s.queue);
    }
  }

  /** With room for one item there is always something left to do. */
  lemma NeverStuck(s: Pool) returns (e: Event)
    requires Inv(s) && s.capacity > 0 && !s.phase.Open? && !s.phase.Gone?
    ensures Enabled(e, s)
  {
    hide RemovedJobs, Fate, Running, JobsOf;
    ExitedAtMost(s.workers);
    if s.phase.Posting? && |s.queue| < s.capacity {
      return PostToken;
    }
    var w := if s.phase.Posting? then NotExited(s.workers) else s.phase.joined;
    match s.workers[w]
    case Exited => e := Join;
    case Busy(_) => e := Finish(w);
    case Idle =>
      if s.phase.Joining? {
        NotAllExited(s.workers, w);
      }
      e := Take(w);
  }

  function NotExited(workers: seq<Worker>): (w: nat)
    requires ExitedIn(workers) < |workers|
    ensures w < |workers| && !workers[w].Exited?
  {
    if !workers[0].Exited? then 0 else 1 + NotExited(workers[1..])
  }

  lemma NotAllExited(workers: seq<Worker>, w: nat)
    requires w < |workers| && !workers[w].Exited?
    ensures ExitedIn(workers) < |workers|
  {
    ExitedAtMost(workers);
  }

  /** Every schedule of a started destructor has at most StepsLeft steps, and a schedule that takes all
      of them has joined every worker. */
  lemma {:induction false} DestructorEnds(s: Pool, run: seq<Event>)
    requires Inv(s) && !s.phase.Open?
    ensures var r := Exec(s, run);
            r.Some? ==>
              && |run| <= StepsLeft(s)
              && (s.capacity > 0 && |run| == StepsLeft(s) ==> r.value.phase.Gone?)
    decreases |run|
  {
    hide Inv, Apply, Enabled, StepsLeft;
    StepsLeftBounds(s);
    if run != [] && Enabled(run[0], s) {
      StepKeeps(s, run[0]);
      StepCountsDown(s, run[0]);
      StaysClosed(s, run[0]);
      DestructorEnds(Apply(run[0], s), run[1..]);
    }
  }

  lemma StaysClosed(s: Pool, e: Event)
    requires Enabled(e, s) && !s.phase.Open?
    ensures !Apply(e, s).phase.Open? && Apply(e, s).capacity == s.capacity
  {
  }

  lemma {:induction false} CompleteSchedule(s: Pool) returns (run: seq<Event>)
    requires Inv(s) && s.capacity > 0 && !s.phase.Open?
    ensures var r := Exec(s, run);
            r.Some? && r.value.phase.Gone?
    decreases StepsLeft(s)
  {
    hide Inv, Apply, Enabled, StepsLeft;
    run := [];
    if !s.phase.Gone? {
      StepsLeftBounds(s);
      var e := NeverStuck(s);
      StepKeeps(s, e);
      StepCountsDown(s, e);
      StaysClosed(s, e);
      var rest := CompleteSchedule(Apply(e, s));
      run := [e] + rest;
      assert run[1..] == rest;
    }
  }

  lemma {:induction false} NoRoomNoEnd(s: Pool, run: seq<Event>)
    requires Inv(s) && s.capacity == 0 && (s.phase.Open? || s.phase == Posting(0))
    ensures var r := Exec(s, run);
            r.Some? ==> !r.value.phase.Gone?
    decreases |run|
  {
    hide Inv, StepsLeft;
    if run != [] && Enabled(run[0], s) {
      StepKeeps(s, run[0]);
      assert |s.queue| == 0 by { NoRoom(s); }
      NoRoomNoEnd(Apply(run[0], s), run[1..]);
    }
  }

  lemma NoRoom(s: Pool)
    requires Inv(s)
    ensures |s.queue| <= s.capacity
  {
  }

  /** A pool can be destroyed exactly when its queue has room for an item. */
  lemma DestructorCanEnd(s: Pool)
    requires Inv(s) && s.phase == Posting(0)
    ensures (exists run :: Exec(s, run).Some? && Exec(s, run).value.phase.Gone?) <==> s.capacity > 0
  {
    hide Exec, Inv;
    if s.capacity > 0 {
      var run := CompleteSchedule(s);
    } else {
      forall run ensures !(Exec(s, run).Some? && Exec(s, run).value.phase.Gone?) {
        NoRoomNoEnd(s, run);
      }
    }
  }

  /** Such a pool is one constructor and one destructor call away. */
  lemma PoolWithoutRoom()
    ensures var r := Exec(Init(0, 1), [BeginDestroy]);
            r.Some? && r.value.phase == Posting(0) && r.value.capacity == 0 && Inv(r.value)
  {
    hide Inv;
    InitInv(0, 1);
    StepKeeps(Init(0, 1), BeginDestroy);
    assert [BeginDestroy][1..] == [];
    assert Exec(Init(0, 1), [BeginDestroy]) == Exec(Apply(BeginDestroy, Init(0, 1)), []);
  }

  // ----- the code of the steps -----

  class AsyncPool {
    const q: MpmcBlockingQueue<Item>

    /** The pool as the interleaving semantics sees it. */
    ghost var state: Pool

    ghost predicate Valid()
      reads this, q, q.q, q.q.v
    {
      && q.Valid()
      && q.q.Contents() == state.queue && q.q.Capacity() == state.capacity
      && Inv(state)
    }

    constructor (maxItems: nat, threads: nat)
      requires ValidThreads(threads)
      ensures Valid() && state == Init(maxItems, threads)
      ensures fresh(q) && fresh(q.q) && fresh(q.q.v)
    {
      InitInv(maxItems, threads);
      q := new MpmcBlockingQueue<Item>(maxItems);
      state := Init(maxItems, threads);
    }

    method PostAsyncMsg(job: Job, overrunOldest: bool)
      requires Valid() && Enabled(if overrunOldest then PostNowait(job) else Post(job), state)
      modifies this, q.q, q.q.v
      ensures Valid() && q.q.v == old(q.q.v)
      ensures state == Apply(if overrunOldest then PostNowait(job) else Post(job), old(state))
    {
      hide Inv;
      ghost var e := if overrunOldest then PostNowait(job) else Post(job);
      StepKeeps(state, e);
      if overrunOldest {
        q.EnqueueNowait(Work(job));
      } else {
        q.Enqueue(Work(job));
      }
      state := Apply(e, state);
    }

    method PostTerminate()
      requires Valid() && Enabled(PostToken, state)
      modifies this, q.q, q.q.v
      ensures Valid() && q.q.v == old(q.q.v) && state == Apply(PostToken, old(state))
    {
      hide Inv;
      StepKeeps(state, PostToken);
      q.Enqueue(Terminate);
      state := Apply(PostToken, state);
    }

    /** True while the worker should go on. */
    method ProcessNextMsg(w: nat) returns (active: bool)
      requires Valid() && Enabled(Take(w), state)
      modifies this, q.q
      ensures Valid() && q.q.v == old(q.q.v)
      ensures Enabled(Take(w), old(state)) && active == Apply(Take(w), old(state)).workers[w].Busy?
      ensures state == if active then Apply(Finish(w), Apply(Take(w), old(state))) else Apply(Take(w), old(state))
    {
      hide Inv;
      StepKeeps(state, Take(w));
      var msg := q.Dequeue();
      assert state.queue[0] == msg;
      state := Apply(Take(w), state);
      match msg
      case Work(job) =>
        StepKeeps(state, Finish(w));
        state := Apply(Finish(w), state);
        return true;
      case Terminate =>
        return false;
    }
  }
}
