/** Shutdown of the recorder under every interleaving of its control thread and its polling thread,
    one load or store of a shared variable at a time. */
module RecorderThreads {
  import opened Core

  /** Where the control thread stands; Ready is between two calls. */
  datatype Control =
    | Ready
    | Opening | StartingDiscovery | Spawning | GoRunning         // start
    | PauseStore | ResumeStore                                    // pause, resume
    | Joining | StopLoad | StopStore | StopDiscovery | StopClose  // stop

  /** Where the polling thread stands; a round still has some samples to record. */
  datatype Poller =
    | NoThread
    | Test | Load(samples: nat) | Round(samples: nat) | Limits | Reopening
    | ExitLoad | ExitDiscovery | ExitClose | ExitStore
    | Ended

  datatype World = World(
    state: RecordingState,
    pollingActive: bool,
    discovering: bool,
    fileOpen: bool,
    control: Control,
    poller: Poller,
    /** A start has opened its file. */
    started: bool,
    /** stop() was the last call, and it has returned. */
    stopped: bool,
    /** Messages accepted by the writer. */
    accepted: nat)

  const INIT: World := World(Stopped, false, false, false, Ready, NoThread, false, false, 0)

  datatype Limit = NoLimit | StopRecording | Split

  datatype Event =
    | CallStart | CallPause | CallResume | CallStop
    | Ctl(ok: bool)                            // the control thread's next step; ok: the file opens
    | Poll(samples: nat, limit: Limit, ok: bool)  // the polling thread's next step

  predicate Enabled(e: Event, w: World) {
    match e
    case CallStart => w.control.Ready? && !w.started
    case CallPause => w.control.Ready?
    case CallResume => w.control.Ready?
    case CallStop => w.control.Ready?
    case Ctl(_) => !w.control.Ready? && (w.control.Joining? ==> w.poller.NoThread? || w.poller.Ended?)
    case Poll(_, _, _) => !w.poller.NoThread? && !w.poller.Ended?
  }

  function CtlStep(w: World, ok: bool): World
    requires !w.control.Ready?
  {
    match w.control
    case Opening =>
      if ok then w.(started := true, fileOpen := true, control := StartingDiscovery) else w.(control := Ready)
    case StartingDiscovery => w.(discovering := true, control := Spawning)
    case Spawning => w.(pollingActive := true, poller := Test, control := GoRunning)
    case GoRunning => w.(state := Running, control := Ready)
    case PauseStore => w.(state := Paused, control := Ready)
    case ResumeStore => w.(state := Running, control := Ready)
    case Joining => w.(poller := NoThread, control := StopLoad)
    case StopLoad => if w.state.Stopped? then w.(control := Ready, stopped := true) else w.(control := StopStore)
    case StopStore => w.(state := Stopped, control := StopDiscovery)
    case StopDiscovery => w.(discovering := false, control := StopClose)
    case StopClose => w.(fileOpen := false, control := Ready, stopped := true)
  }

  function PollStep(w: World, samples: nat, limit: Limit, ok: bool): World
    requires !w.poller.NoThread? && !w.poller.Ended?
  {
    match w.poller
    case Test => w.(poller := if w.pollingActive then Load(samples) else ExitLoad)
    case Load(n) => w.(poller := if w.state.Running? then Round(n) else Test)
    case Round(n) =>
      if n == 0 then w.(poller := Limits)
      else w.(poller := Round(n - 1), accepted := if w.fileOpen && ok then w.accepted + 1 else w.accepted)
    case Limits =>
      (match limit
       case NoLimit => w.(poller := Test)
       case StopRecording => w.(pollingActive := false, poller := Test)
       case Split => w.(fileOpen := false, poller := Reopening))
    case Reopening => if ok then w.(fileOpen := true, poller := Test) else w.(pollingActive := false, poller := Test)
    case ExitLoad => w.(poller := if w.state.Running? then ExitDiscovery else Ended)
    case ExitDiscovery => w.(discovering := false, poller := ExitClose)
    case ExitClose => w.(fileOpen := false, poller := ExitStore)
    case ExitStore => w.(state := Stopped, poller := Ended)
  }

  function Apply(e: Event, w: World): World
    requires Enabled(e, w)
  {
    match e
    case CallStart => w.(stopped := false, control := if w.state.Stopped? then Opening else Ready)
    case CallPause => w.(control := if w.state.Running? then PauseStore else Ready)
    case CallResume => w.(control := if w.state.Paused? then ResumeStore else Ready)
    case CallStop => w.(pollingActive := false, stopped := false, control := Joining)
    case Ctl(ok) => CtlStep(w, ok)
    case Poll(samples, limit, ok) => PollStep(w, samples, limit, ok)
  }

  function Exec(w: World, run: seq<Event>): Option<World>
    decreases |run|
  {
    if run == [] then Some(w)
    else if Enabled(run[0], w) then Exec(Apply(run[0], w), run[1..])
    else None
  }

  // ----- the invariant -----

  predicate InStart(c: Control) { c.Opening? || c.StartingDiscovery? || c.Spawning? || c.GoRunning? }

  predicate InStop(c: Control) { c.Joining? || c.StopLoad? || c.StopStore? || c.StopDiscovery? || c.StopClose? }

  predicate IsDown(w: World) {
    w.state.Stopped? && w.poller.NoThread? && !w.discovering && !w.fileOpen && !w.pollingActive
  }

  predicate Inv(w: World) {
    && (!w.started ==> IsDown(w) && (w.control.Ready? || w.control.Opening? || InStop(w.control)))
    // While start is under way nothing but the new thread's idle loop runs.
    && (InStart(w.control) ==>
         && w.state.Stopped?
         && (w.poller.NoThread? || (w.control.GoRunning? && (w.poller.Test? || w.poller.Load?))))
    && (w.control.GoRunning? ==> w.pollingActive)
    && (w.control.Opening? ==> !w.discovering && !w.fileOpen)
    // Elsewhere a stopped recorder has closed its file and ended its threads, except inside stop itself.
    && (w.state.Stopped? && !InStart(w.control) && !w.control.StopDiscovery? && !w.control.StopClose? ==>
          !w.discovering && !w.fileOpen && (w.poller.NoThread? || w.poller.Ended?))
    && (w.poller.ExitClose? ==> !w.discovering)
    && (w.poller.ExitStore? ==> !w.discovering && !w.fileOpen)
    && (InStop(w.control) ==> !w.pollingActive)
    && (InStop(w.control) && !w.control.Joining? ==> w.poller.NoThread?)
    && (w.control.StopDiscovery? || w.control.StopClose? ==> w.state.Stopped?)
    && (w.control.StopClose? ==> !w.discovering)
    && (w.stopped ==> w.control.Ready? && IsDown(w))
  }

  lemma CtlKeeps(w: World, ok: bool)
    requires Inv(w) && Enabled(Ctl(ok), w)
    ensures Inv(CtlStep(w, ok))
  {
  }

  lemma PollKeeps(w: World, samples: nat, limit: Limit, ok: bool)
    requires Inv(w) && Enabled(Poll(samples, limit, ok), w)
    ensures Inv(PollStep(w, samples, limit, ok))
  {
  }

  lemma StepKeeps(w: World, e: Event)
    requires Inv(w) && Enabled(e, w)
    ensures Inv(Apply(e, w))
  {
    match e
    case Ctl(ok) => CtlKeeps(w, ok);
    case Poll(samples, limit, ok) => PollKeeps(w, samples, limit, ok);
    case _ =>
  }

  lemma {:induction false} RunKeeps(w: World, run: seq<Event>)
    requires Inv(w)
    ensures Exec(w, run).Some? ==> Inv(Exec(w, run).value)
    decreases |run|
  {
    hide Inv, Apply, Enabled;
    if run != [] && Enabled(run[0], w) {
      StepKeeps(w, run[0]);
      RunKeeps(Apply(run[0], w), run[1..]);
    }
  }

  // ----- stop -----

  /** Whatever pauses, resumes, limits and splits came before and in between: once stop has returned the
      state is Stopped, the polling thread is joined, discovery is stopped and the file is closed. */
  lemma StopIsSafe(run: seq<Event>)
    ensures var r := Exec(INIT, run);
            r.Some? && r.value.stopped ==> IsDown(r.value)
  {
    hide Exec;
    RunKeeps(INIT, run);
  }

  /** And it stays so: no later call short of a new start opens the file again or gets a message accepted. */
  lemma {:induction false} StoppedForGood(w: World, run: seq<Event>)
    requires Inv(w) && IsDown(w) && (w.control.Ready? || InStop(w.control))
    requires forall i :: 0 <= i < |run| ==> !run[i].CallStart?
    ensures var r := Exec(w, run);
            r.Some? ==> IsDown(r.value) && r.value.accepted == w.accepted
    decreases |run|
  {
    hide Inv;
    if run != [] && Enabled(run[0], w) {
      StepKeeps(w, run[0]);
      assert !run[0].CallStart?;
      StoppedForGood(Apply(run[0], w), run[1..]);
    }
  }

  /** In a reachable state a message is accepted only by a polling round over an open file, before any stop has
      joined the thread, and never in a recorder that is stopped. */
  lemma AcceptedInRound(w: World, e: Event)
    requires Inv(w) && Enabled(e, w)
    ensures Apply(e, w).accepted != w.accepted ==>
              && w.started && w.fileOpen && w.poller.Round? && Apply(e, w).accepted == w.accepted + 1
              && !w.state.Stopped? && !w.stopped && (InStop(w.control) ==> w.control.Joining?)
  {
    match e
    case Ctl(ok) => CtlAcceptsNothing(w, ok);
    case Poll(samples, limit, ok) => PollAccepts(w, samples, limit, ok);
    case _ =>
  }

  lemma CtlAcceptsNothing(w: World, ok: bool)
    requires Enabled(Ctl(ok), w)
    ensures CtlStep(w, ok).accepted == w.accepted
  {
  }

  lemma PollAccepts(w: World, samples: nat, limit: Limit, ok: bool)
    requires Enabled(Poll(samples, limit, ok), w)
    ensures PollStep(w, samples, limit, ok).accepted ==
            if w.poller.Round? && w.poller.samples > 0 && w.fileOpen && ok then w.accepted + 1 else w.accepted
  {
  }

  // ----- stop returns -----

  function PollerLeft(p: Poller): nat {
    match p
    case NoThread => 0
    case Ended => 0
    case ExitStore => 1
    case ExitClose => 2
    case ExitDiscovery => 3
    case ExitLoad => 4
    case Test => 5
    case Reopening => 6
    case Limits => 7
    case Round(n) => n + 8
    case Load(n) => n + 9
  }

  function ControlLeft(c: Control): nat {
    match c
    case Joining => 5
    case StopLoad => 4
    case StopStore => 3
    case StopDiscovery => 2
    case StopClose => 1
    case _ => 0
  }

  /** Steps left until stop returns, at most. */
  function StopLeft(w: World): nat { PollerLeft(w.poller) + ControlLeft(w.control) }

  lemma StopAdvances(w: World, e: Event)
    requires Inv(w) && InStop(w.control) && Enabled(e, w)
    ensures StopLeft(Apply(e, w)) < StopLeft(w)
    ensures InStop(Apply(e, w).control) || Apply(e, w).stopped
  {
  }

  lemma StopNeverStuck(w: World)
    requires Inv(w) && InStop(w.control)
    ensures Enabled(Ctl(true), w) || Enabled(Poll(0, NoLimit, true), w)
  {
  }

  /** Under every schedule stop returns: as long as it has not, some thread can move, and no schedule makes
      more than StopLeft moves before it has. */
  lemma {:induction false} StopReturns(w: World, run: seq<Event>)
    requires Inv(w) && InStop(w.control) && |run| > StopLeft(w) && Exec(w, run).Some?
    ensures exists k :: 0 < k <= StopLeft(w) && Exec(w, run[..k]).Some? && Exec(w, run[..k]).value.stopped
    decreases |run|
  {
    hide Inv, Apply, Enabled, StopLeft, IsDown;
    var next := Apply(run[0], w);
    StepKeeps(w, run[0]);
    StopAdvances(w, run[0]);
    if InStop(next.control) {
      StopReturns(next, run[1..]);
      var k :| 0 < k <= StopLeft(next) && Exec(next, run[1..][..k]).Some? && Exec(next, run[1..][..k]).value.stopped;
      assert run[..k + 1][1..] == run[1..][..k];
      assert Exec(w, run[..k + 1]) == Exec(next, run[1..][..k]);
    } else {
      assert run[..1][1..] == [];
      assert Exec(w, run[..1]) == Some(next);
    }
  }

  // ----- the polling thread's own end -----

  /** What an end by a limit should leave behind. */
  predicate IsClean(w: World) {
    w.state.Stopped? && !w.discovering && !w.fileOpen
  }

  /** What decides about it: whether the thread's last load of the state saw Running, and whether a pause or a
      resume stored its own state after the thread had stored Stopped. */
  datatype Exit = Exit(sawRunning: bool, overwritten: bool)

  function Watch(w: World, e: Event, x: Exit): Exit {
    match e
    case Poll(_, _, _) => if w.poller.ExitLoad? then x.(sawRunning := w.state.Running?) else x
    case Ctl(_) =>
      if w.poller.Ended? && (w.control.PauseStore? || w.control.ResumeStore?) then x.(overwritten := true) else x
    case _ => x
  }

  /** The exit of a whole run. */
  function ExitOf(w: World, run: seq<Event>, x: Exit): Exit
    decreases |run|
  {
    if run == [] || !Enabled(run[0], w) then x
    else ExitOf(Apply(run[0], w), run[1..], Watch(w, run[0], x))
  }

  const NOT_YET: Exit := Exit(false, false)

  predicate Watched(w: World, x: Exit) {
    && (!w.started ==> x == NOT_YET)
    && (w.started && InStart(w.control) ==> x == NOT_YET)
    && (match w.poller
        case Test => x == NOT_YET
        case Load(_) => x == NOT_YET
        case Round(_) => x == NOT_YET
        case Limits => x == NOT_YET
        case Reopening => x == NOT_YET
        case ExitLoad => x == NOT_YET
        case ExitDiscovery => x == Exit(true, false)
        case ExitClose => x == Exit(true, false)
        case ExitStore => x == Exit(true, false)
        case Ended => InStop(w.control) || (w.state.Stopped? <==> x == Exit(true, false))
        case NoThread => true)
    && (w.control.ResumeStore? ==> !w.state.Running?)
  }

  lemma PollWatched(w: World, samples: nat, limit: Limit, ok: bool, x: Exit)
    requires Inv(w) && Watched(w, x) && Enabled(Poll(samples, limit, ok), w)
    ensures Watched(PollStep(w, samples, limit, ok), Watch(w, Poll(samples, limit, ok), x))
  {
  }

  lemma CtlWatched(w: World, ok: bool, x: Exit)
    requires Inv(w) && Watched(w, x) && Enabled(Ctl(ok), w)
    ensures Watched(CtlStep(w, ok), Watch(w, Ctl(ok), x))
  {
  }

  lemma {:induction false} RunWatched(w: World, run: seq<Event>, x: Exit)
    requires Inv(w) && Watched(w, x)
    ensures var r := Exec(w, run);
            r.Some? ==> Inv(r.value) && Watched(r.value, ExitOf(w, run, x))
    decreases |run|
  {
    hide Inv, CtlStep, PollStep;
    if run != [] && Enabled(run[0], w) {
      StepKeeps(w, run[0]);
      match run[0] {
        case Poll(samples, limit, ok) => PollWatched(w, samples, limit, ok, x);
        case Ctl(ok) => CtlWatched(w, ok, x);
        case _ => CallWatched(w, run[0], x);
      }
      RunWatched(Apply(run[0], w), run[1..], Watch(w, run[0], x));
    }
  }

  lemma CallWatched(w: World, e: Event, x: Exit)
    requires Inv(w) && Watched(w, x) && Enabled(e, w) && !e.Poll? && !e.Ctl?
    ensures Watched(Apply(e, w), Watch(w, e, x))
  {
  }

  /** In every run that leaves the thread ended and the control thread between two calls: the end is clean, with
      the state Stopped, the file closed and discovery off, exactly when the thread's last load saw Running and
      no pause or resume stored after it. */
  lemma EndExactly(run: seq<Event>)
    ensures var r := Exec(INIT, run);
            r.Some? && r.value.poller.Ended? && r.value.control.Ready? ==>
              (IsClean(r.value) <==> ExitOf(INIT, run, NOT_YET) == Exit(true, false))
  {
    hide Exec, ExitOf;
    RunWatched(INIT, run, NOT_YET);
  }

  /** Seen from the exit: if nobody calls anything more, what counts is the state just then. */
  lemma {:induction false} ExitDecides(w: World, run: seq<Event>, running: bool)
    requires Inv(w) && w.control.Ready? && forall i :: 0 <= i < |run| ==> run[i].Ctl? || run[i].Poll?
    requires Exiting(w, running)
    ensures var r := Exec(w, run);
            r.Some? && r.value.poller.Ended? ==> (IsClean(r.value) <==> running)
    decreases |run|
  {
    if run != [] && Enabled(run[0], w) {
      StepKeeps(w, run[0]);
      assert run[0].Poll?;
      ExitDecides(Apply(run[0], w), run[1..], running);
    }
  }

  /** On its way out, with the last load still to come or with its outcome known. */
  predicate Exiting(w: World, running: bool) {
    match w.poller
    case ExitLoad => w.state.Running? == running
    case ExitDiscovery => running
    case ExitClose => running
    case ExitStore => running
    case Ended => w.state.Stopped? == running
    case _ => false
  }

  /** Without pauses and stops every end by a limit is clean. */
  lemma EndWithoutPause(run: seq<Event>)
    requires forall i :: 0 <= i < |run| ==> !run[i].CallPause? && !run[i].CallStop?
    ensures var r := Exec(INIT, run);
            r.Some? && r.value.poller.Ended? ==> IsClean(r.value)
  {
    hide Exec;
    NeverPaused(INIT, run);
  }

  predicate Unpaused(w: World) {
    && !w.state.Paused? && !w.control.PauseStore? && !w.control.ResumeStore? && !InStop(w.control)
    && (InStart(w.control) || w.poller.NoThread? || w.poller.Ended? || w.state.Running?)
    && (w.poller.Ended? ==> w.state.Stopped?)
    && (w.poller.Test? || w.poller.Load? ==> InStart(w.control) || w.state.Running?)
  }

  lemma {:induction false} NeverPaused(w: World, run: seq<Event>)
    requires Inv(w) && Unpaused(w)
    requires forall i :: 0 <= i < |run| ==> !run[i].CallPause? && !run[i].CallStop?
    ensures var r := Exec(w, run);
            r.Some? ==> Inv(r.value) && Unpaused(r.value)
    decreases |run|
  {
    hide Inv, Apply, Unpaused;
    if run != [] && Enabled(run[0], w) {
      StepKeeps(w, run[0]);
      StepUnpaused(w, run[0]);
      NeverPaused(Apply(run[0], w), run[1..]);
    }
  }

  lemma StepUnpaused(w: World, e: Event)
    requires Inv(w) && Unpaused(w) && Enabled(e, w) && !e.CallPause? && !e.CallStop?
    ensures Unpaused(Apply(e, w))
  {
  }

  // ----- two ends that are not clean -----

  /** A pause that has seen Running may store Paused after the thread has closed the file and stored Stopped, and
      then nobody sees that recording is over. */
  lemma PauseHidesTheEnd()
    ensures exists run :: Exec(INIT, run).Some? &&
              var w := Exec(INIT, run).value;
              w.control.Ready? && w.poller.Ended? && !w.fileOpen && w.state.Paused?
  {
    var start := [CallStart, Ctl(true), Ctl(true), Ctl(true), Ctl(true)];
    var p := Poll(0, StopRecording, true);
    var w0 := World(Running, true, true, true, Ready, Test, true, false, 0);
    StartRuns();
    var w1 := w0.(poller := ExitLoad, pollingActive := false);
    var limit := [p, p, p, p, p];
    LimitRuns(w0);
    var race := [CallPause, p, p, p, p, Ctl(true)];
    RaceRuns(w1);
    ExecConcat(INIT, start, limit + race);
    ExecConcat(w0, limit, race);
    var run := start + (limit + race);
    assert Exec(INIT, run).Some?;
  }

  /** A pause before the thread's last load leaves the file open and discovery on, with nobody polling; a resume
      then even says Running. */
  lemma PauseLeavesFileOpen()
    ensures exists run :: Exec(INIT, run).Some? &&
              var w := Exec(INIT, run).value;
              w.control.Ready? && w.poller.Ended? && w.fileOpen && w.discovering && w.state.Paused?
    ensures exists run :: Exec(INIT, run).Some? &&
              var w := Exec(INIT, run).value;
              w.control.Ready? && w.poller.Ended? && w.fileOpen && w.discovering && w.state.Running?
  {
    hide Exec;
    var start := [CallStart, Ctl(true), Ctl(true), Ctl(true), Ctl(true)];
    var p := Poll(0, StopRecording, true);
    var w0 := World(Running, true, true, true, Ready, Test, true, false, 0);
    StartRuns();
    var w1 := w0.(poller := ExitLoad, pollingActive := false);
    var limit := [p, p, p, p, p];
    LimitRuns(w0);
    var w2 := w1.(state := Paused);
    TwoSteps(w1, CallPause, Ctl(true), w1.(control := PauseStore), w2);
    var w3, w4 := w2.(poller := Ended), w2.(poller := Ended, control := ResumeStore);
    TwoSteps(w2, p, CallResume, w3, w4);
    OneStep(w2, p, w3);
    OneStep(w4, Ctl(true), w4.(state := Running, control := Ready));
    var paused := [CallPause, Ctl(true)];
    ExecConcat(INIT, start, limit);
    ExecConcat(INIT, start + limit, paused);
    ExecConcat(INIT, start + limit + paused, [p]);
    ExecConcat(INIT, start + limit + paused, [p, CallResume]);
    ExecConcat(INIT, start + limit + paused + [p, CallResume], [Ctl(true)]);
    assert Exec(INIT, start + limit + paused + [p]) == Some(w3);
    assert Exec(INIT, start + limit + paused + [p, CallResume] + [Ctl(true)]) ==
           Some(w4.(state := Running, control := Ready));
  }

  lemma OneStep(w: World, e: Event, next: World)
    requires Enabled(e, w) && next == Apply(e, w)
    ensures Exec(w, [e]) == Some(next)
  {
    hide Apply, Enabled;
    assert [e][1..] == [];
  }

  lemma StartRuns()
    ensures Exec(INIT, [CallStart, Ctl(true), Ctl(true), Ctl(true), Ctl(true)]) ==
            Some(World(Running, true, true, true, Ready, Test, true, false, 0))
  {
    var c := Ctl(true);
    var a := INIT.(control := Opening);
    var b := a.(started := true, fileOpen := true, control := StartingDiscovery);
    var d := b.(discovering := true, control := Spawning);
    var e := d.(pollingActive := true, poller := Test, control := GoRunning);
    ExecStep(INIT, CallStart, [c, c, c, c]);
    ExecStep(a, c, [c, c, c]);
    ExecStep(b, c, [c, c]);
    ExecStep(d, c, [c]);
    ExecStep(e, c, []);
  }

  lemma LimitRuns(w: World)
    requires w.poller == Test && w.pollingActive && w.state.Running?
    ensures var p := Poll(0, StopRecording, true);
            Exec(w, [p, p, p, p, p]) == Some(w.(poller := ExitLoad, pollingActive := false))
  {
    var p := Poll(0, StopRecording, true);
    ExecStep(w, p, [p, p, p, p]);
    ExecStep(w.(poller := Load(0)), p, [p, p, p]);
    ExecStep(w.(poller := Round(0)), p, [p, p]);
    ExecStep(w.(poller := Limits), p, [p]);
    ExecStep(w.(poller := Test, pollingActive := false), p, []);
  }

  lemma RaceRuns(w: World)
    requires w.poller == ExitLoad && w.state.Running? && w.control.Ready?
    ensures Enabled(CallPause, w)
    ensures var p := Poll(0, StopRecording, true);
            Exec(w, [CallPause, p, p, p, p, Ctl(true)]) ==
            Some(w.(poller := Ended, discovering := false, fileOpen := false, state := Paused))
  {
    hide Exec, Apply, Enabled;
    var p := Poll(0, StopRecording, true);
    RaceBegins(w);
    var b := w.(control := PauseStore, poller := ExitDiscovery);
    RaceCloses(b);
    var c := b.(poller := ExitStore, discovering := false, fileOpen := false);
    RaceEnds(c);
    ExecConcat(w, [CallPause, p], [p, p] + [p, Ctl(true)]);
    ExecConcat(b, [p, p], [p, Ctl(true)]);
    assert [CallPause, p] + ([p, p] + [p, Ctl(true)]) == [CallPause, p, p, p, p, Ctl(true)];
  }

  lemma RaceBegins(w: World)
    requires w.poller == ExitLoad && w.state.Running? && w.control.Ready?
    ensures Enabled(CallPause, w)
    ensures Exec(w, [CallPause, Poll(0, StopRecording, true)]) ==
            Some(w.(control := PauseStore, poller := ExitDiscovery))
  {
    hide Exec;
    TwoSteps(w, CallPause, Poll(0, StopRecording, true), w.(control := PauseStore),
             w.(control := PauseStore, poller := ExitDiscovery));
  }

  lemma RaceCloses(w: World)
    requires w.poller == ExitDiscovery
    ensures Exec(w, [Poll(0, StopRecording, true), Poll(0, StopRecording, true)]) ==
            Some(w.(poller := ExitStore, discovering := false, fileOpen := false))
  {
    hide Exec;
    var p := Poll(0, StopRecording, true);
    TwoSteps(w, p, p, w.(poller := ExitClose, discovering := false),
             w.(poller := ExitStore, discovering := false, fileOpen := false));
  }

  lemma RaceEnds(w: World)
    requires w.poller == ExitStore && w.control == PauseStore
    ensures Exec(w, [Poll(0, StopRecording, true), Ctl(true)]) ==
            Some(w.(poller := Ended, state := Paused, control := Ready))
  {
    hide Exec;
    var p := Poll(0, StopRecording, true);
    TwoSteps(w, p, Ctl(true), w.(poller := Ended, state := Stopped),
             w.(poller := Ended, state := Paused, control := Ready));
  }

  lemma TwoSteps(w: World, e: Event, f: Event, mid: World, end: World)
    requires Enabled(e, w) && mid == Apply(e, w) && Enabled(f, mid) && end == Apply(f, mid)
    ensures Exec(w, [e, f]) == Some(end)
  {
    hide Apply, Enabled;
    assert [e, f][1..] == [f] && [f][1..] == [];
    assert Exec(end, []) == Some(end);
    assert Exec(mid, [f]) == Some(end);
  }

  lemma ExecStep(w: World, e: Event, rest: seq<Event>)
    requires Enabled(e, w)
    ensures Exec(w, [e] + rest) == Exec(Apply(e, w), rest)
  {
    assert ([e] + rest)[1..] == rest;
  }

  lemma {:induction false} ExecConcat(w: World, a: seq<Event>, b: seq<Event>)
    ensures Exec(w, a + b) == if Exec(w, a).Some? then Exec(Exec(w, a).value, b) else None
    decreases |a|
  {
    hide Apply, Enabled;
    if a == [] {
      assert a + b == b;
    } else {
      assert (a + b)[1..] == a[1..] + b;
      if Enabled(a[0], w) {
        ExecConcat(Apply(a[0], w), a[1..], b);
      }
    }
  }
}
