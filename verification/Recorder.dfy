/** The recorder as a state machine over readers, types and the MCAP writer: discovery, the samples of a polling
    round and the limit check behind them are steps of their own. */
module Recorder {
  import opened Core
  import opened McapWriter
  import opened TypesCollection

  datatype Config = Config(prefix: string, appendDate: bool, maxFileSize: nat, split: bool, maxSplits: nat)

  datatype Endpoint = Endpoint(isWriter: bool, accepted: bool, topic: string, typeName: string, schemaData: string,
                               readerOk: bool)

  /** `disk` is what a due disk check finds: enough space, too little, or (None) nothing was checked. */
  datatype Sample = Sample(logTime: nat, data: seq<int>, disk: Option<bool>, outputOk: bool)

  datatype Batch = Batch(topic: string, samples: seq<Sample>)

  /** What a limit check meets: the clock, the time stamp and outcome of opening the next file, and the
      order in which the reader table is walked. */
  datatype Limits = Limits(durationReached: bool, stamp: string, created: bool, order: seq<string>)

  datatype Stats = Stats(discovered: nat, received: nat, recorded: nat, bytes: nat)

  datatype Dropped = Dropped(disabled: nat, noChannel: nat, failed: nat)

  /** A closed file with its final counters and the number of readers in the last round that could write to it. */
  datatype Archived = Archived(file: File, counters: Counters, polled: nat)

  datatype Rec = Rec(
    config: Config,
    started: bool,
    state: RecordingState,
    pollingActive: bool,
    discovering: bool,
    types: Types,
    readers: set<string>,
    writer: Writer,
    splitCount: nat,
    splitFiles: seq<string>,
    writingEnabled: bool,
    stats: Stats,
    log: History)

  /** What has happened so far, beyond what the recorder itself remembers. */
  datatype History = History(archive: seq<Archived>, paths: seq<string>, deleted: seq<string>, dropped: Dropped,
                             polled: nat)

  function Init(config: Config): Rec {
    Rec(config, false, Stopped, false, false, EMPTY, {}, INITIAL, 0, [], true, Stats(0, 0, 0, 0),
        History([], [], [], Dropped(0, 0, 0), 0))
  }

  /** Before a start has opened its file, only the path of the last attempt is remembered. */
  predicate Fresh(r: Rec) {
    r == Init(r.config).(writer := INITIAL.(currentPath := r.writer.currentPath))
  }

  /** At most this many samples are taken from a reader in one round. */
  const MAX_SAMPLES: nat := 100

  const TWO31: nat := 0x8000_0000

  function ToInt32(n: nat): int { if n >= TWO31 then n - TWO32 else n }

  function PathOf(config: Config, stamp: string, index: int): string {
    GenerateFilename(config.prefix, if config.appendDate then Some(stamp) else None, index)
  }

  // ----- registration -----

  function Announce(w: Writer, types: Types, topic: string, typeName: string): Writer
    requires typeName in types.types
  {
    var t := types.types[typeName];
    var w1 := RegisterSchema(w, Schema(typeName, t.schemaEncoding, t.schemaData));
    RegisterChannel(w1, topic, typeName, IdOf(w1.schemaIds, typeName))
  }

  function Discover(r: Rec, ep: Endpoint): Rec {
    if !ep.isWriter || !ep.accepted then r
    else
      var types := RegisterTopic(AddType(r.types, ep.typeName, ep.schemaData), ep.topic, ep.typeName);
      r.(stats := r.stats.(discovered := r.stats.discovered + 1),
         types := types,
         writer := Announce(r.writer, types, ep.topic, ep.typeName),
         readers := if ep.readerOk then r.readers + {ep.topic} else r.readers)
  }

  function ReRegister(w: Writer, types: Types, order: seq<string>): Writer
    decreases |order|
  {
    if order == [] then w
    else
      var topic := order[0];
      var typeName := TypeForTopic(types, topic);
      var next := if typeName != "" && typeName in types.types then Announce(w, types, topic, typeName) else w;
      ReRegister(next, types, order[1..])
  }

  // ----- samples -----

  function RecordSample(r: Rec, topic: string, s: Sample): Rec {
    var enabled := if s.disk.Some? then s.disk.value else r.writingEnabled;
    var r1 := r.(stats := r.stats.(received := r.stats.received + 1), writingEnabled := enabled);
    var d := r.log.dropped;
    if !enabled then r1.(log := r.log.(dropped := d.(disabled := d.disabled + 1)))
    else
      var id := IdOf(r.writer.channelIds, topic);
      if id == 0 then r1.(log := r.log.(dropped := d.(noChannel := d.noChannel + 1)))
      else Deliver(r1, topic, id, s)
  }

  /** The sample has a channel: it is written and counted, or the write fails. */
  function Deliver(r: Rec, topic: string, id: nat, s: Sample): Rec {
    var r1 := r.(writer := WriteMessage(r.writer, Message(topic, id, s.logTime, s.data), s.outputOk));
    var d := r.log.dropped;
    if Writes(r.writer, id, s.outputOk) then
      r1.(stats := r.stats.(recorded := r.stats.recorded + 1, bytes := r.stats.bytes + |s.data|))
    else r1.(log := r.log.(dropped := d.(failed := d.failed + 1)))
  }

  function RecordAll(r: Rec, topic: string, samples: seq<Sample>): Rec
    decreases |samples|
  {
    if samples == [] then r else RecordAll(RecordSample(r, topic, samples[0]), topic, samples[1..])
  }

  function RecordBatches(r: Rec, batches: seq<Batch>): Rec
    decreases |batches|
  {
    if batches == [] then r else RecordBatches(RecordAll(r, batches[0].topic, batches[0].samples), batches[1..])
  }

  // ----- limits and splits -----

  /** Closing the writer files the current file away. */
  function CloseFile(r: Rec): Rec {
    if r.writer.isOpen then
      r.(writer := Close(r.writer),
         log := r.log.(archive := r.log.archive + [Archived(r.writer.file, r.writer.counters, r.log.polled)]))
    else r
  }

  function Trim(files: seq<string>, n: nat): seq<string> {
    if |files| <= n then files else files[|files| - n..]
  }

  function Trimmed(files: seq<string>, n: nat): seq<string> {
    if |files| <= n then [] else files[..|files| - n]
  }

  function DoSplit(r: Rec, l: Limits): Rec {
    var count := (r.splitCount + 1) % TWO32;
    var path := PathOf(r.config, l.stamp, ToInt32(count));
    var closed := CloseFile(r).(splitCount := count);
    var reopened := closed.(writer := Reopen(r.writer, path, l.created));
    if l.created then Continue(reopened, path, l.order) else reopened.(pollingActive := false)
  }

  /** The next file is open: it gets its channels and joins the list. */
  function Continue(r: Rec, path: string, order: seq<string>): Rec {
    var files := r.splitFiles + [path];
    var n := r.config.maxSplits;
    r.(writer := ReRegister(r.writer, r.types, order),
       splitFiles := if n == 0 then files else Trim(files, n),
       log := r.log.(paths := r.log.paths + [path],
                     deleted := r.log.deleted + (if n == 0 then [] else Trimmed(files, n)),
                     polled := 0))
  }

  predicate LimitReached(r: Rec, l: Limits) {
    l.durationReached || (r.config.maxFileSize > 0 && r.writer.counters.bytes >= r.config.maxFileSize)
  }

  function CheckLimits(r: Rec, l: Limits): Rec {
    if !LimitReached(r, l) then r
    else if r.config.split then DoSplit(r, l)
    else r.(pollingActive := false)
  }

  /** One iteration of the polling loop, with nothing in between. */
  function PollRound(r: Rec, batches: seq<Batch>, l: Limits): Rec {
    CheckLimits(RecordBatches(Polled(r, |batches|), batches), l)
  }

  function Polled(r: Rec, readers: nat): Rec { r.(log := r.log.(polled := readers)) }

  // ----- control -----

  function Start(r: Rec, stamp: string, created: bool): Rec {
    var path := PathOf(r.config, stamp, if r.config.split then 0 else -1);
    var r1 := r.(splitCount := 0, splitFiles := [], writer := Open(r.writer, path, created));
    if r1.writer.isOpen then Live(r1, path) else r1
  }

  /** The file is open: discovery, polling and recording begin. */
  function Live(r: Rec, path: string): Rec {
    r.(started := true, splitFiles := if r.config.split then [path] else [],
       discovering := true, pollingActive := true, writingEnabled := true, state := Running,
       log := r.log.(paths := r.log.paths + [path], polled := 0))
  }

  function Shut(r: Rec): Rec {
    CloseFile(r).(state := Stopped, discovering := false)
  }

  function Stop(r: Rec): Rec {
    var r1 := r.(pollingActive := false);
    if r.state.Stopped? then r1 else Shut(r1)
  }

  function Pause(r: Rec): Rec { if r.state.Running? then r.(state := Paused) else r }

  function Resume(r: Rec): Rec { if r.state.Paused? then r.(state := Running) else r }

  // ----- the steps of the threads -----

  /** Where the polling thread is: between two rounds, or in one over these readers with some samples to come. */
  datatype Round = NoRound | InRound(readers: set<string>, left: nat)

  datatype World = World(rec: Rec, round: Round)

  function Begin(config: Config): World { World(Init(config), NoRound) }

  datatype Event =
    | EStart(stamp: string, created: bool)
    | EPause
    | EResume
    | ERequestStop   // the first store of stop, before it waits for the polling thread
    | EStop          // the rest of it, once that has left its loop
    | EDiscover(ep: Endpoint)
    | EBegin         // a polling round takes its snapshot of the readers
    | ESample(topic: string, sample: Sample)
    | ELimits(limits: Limits)
    | EFinish        // the polling thread ends after a limit

  predicate IsWalk(order: seq<string>, readers: set<string>) {
    && (forall i :: 0 <= i < |order| ==> order[i] in readers)
    && (forall t :: t in readers ==> t in order)
  }

  predicate Enabled(e: Event, w: World) {
    match e
    case EStart(_, _) => !w.rec.started && w.rec.state.Stopped?
    case EDiscover(_) => w.rec.discovering
    case EBegin => w.rec.pollingActive && w.rec.state.Running? && w.round.NoRound?
    case ESample(topic, _) => w.round.InRound? && w.round.left > 0 && topic in w.round.readers
    case ELimits(l) => w.round.InRound? && IsWalk(l.order, w.rec.readers)
    case EStop => w.round.NoRound?
    case EFinish => w.rec.started && !w.rec.pollingActive && w.rec.state.Running? && w.round.NoRound?
    case _ => true
  }

  function Step(w: World, e: Event): World
    requires Enabled(e, w)
  {
    var r := w.rec;
    match e
    case EStart(stamp, created) => w.(rec := Start(r, stamp, created))
    case EPause => w.(rec := Pause(r))
    case EResume => w.(rec := Resume(r))
    case ERequestStop => w.(rec := r.(pollingActive := false))
    case EStop => w.(rec := Stop(r))
    case EDiscover(ep) => w.(rec := Discover(r, ep))
    case EBegin => World(Polled(r, |r.readers|), InRound(r.readers, MAX_SAMPLES * |r.readers|))
    case ESample(topic, s) => World(RecordSample(r, topic, s), w.round.(left := w.round.left - 1))
    case ELimits(l) => World(CheckLimits(r, l), NoRound)
    case EFinish => w.(rec := Shut(r))
  }

  function Exec(w: World, run: seq<Event>): Option<World>
    decreases |run|
  {
    if run == [] then Some(w)
    else if Enabled(run[0], w) then Exec(Step(w, run[0]), run[1..])
    else None
  }
}
