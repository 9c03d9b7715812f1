/** What every run of the recorder keeps: conservation, integrity of each file, retention, size. */
module RecorderRuns {
  import opened Core
  import opened McapWriter
  import opened TypesCollection
  import opened Recorder

  // ----- what recording samples leaves alone -----

  ghost predicate SameBut(w: Writer, r: Rec, r': Rec) {
    r' == r.(writer := r'.writer, writingEnabled := r'.writingEnabled, stats := r'.stats,
             log := r.log.(dropped := r'.log.dropped))
  }

  /** Only messages are added to the file, and only counters change besides. */
  ghost predicate SameTables(w: Writer, w': Writer) {
    w' == w.(file := w.file.(messages := w'.file.messages), counters := w'.counters)
  }

  lemma WriteFrame(w: Writer, m: Message, outputOk: bool)
    ensures SameTables(w, WriteMessage(w, m, outputOk)) && SameTables(w, w)
  {
    hide WriteSucceeds;
  }

  lemma RecordSampleFrame(r: Rec, topic: string, s: Sample)
    ensures var r' := RecordSample(r, topic, s);
            SameBut(r.writer, r, r') && SameTables(r.writer, r'.writer) && r'.stats.discovered == r.stats.discovered
  {
    hide IdOf, Writes, WriteMessage, SameTables;
    WriteFrame(r.writer, Message(topic, IdOf(r.writer.channelIds, topic), s.logTime, s.data), s.outputOk);
  }

  // ----- registration -----

  lemma AnnounceEffect(w: Writer, types: Types, topic: string, typeName: string)
    requires typeName in types.types
    ensures var w' := Announce(w, types, topic, typeName);
            && w'.isOpen == w.isOpen && w'.counters == w.counters && w'.currentPath == w.currentPath
            && w'.file.path == w.file.path && w'.file.messages == w.file.messages
            && (!w.isOpen ==> w' == w)
            && (w.isOpen ==>
                 topic in w'.channelIds && w.channelIds.Keys <= w'.channelIds.Keys <= w.channelIds.Keys + {topic})
  {
  }

  lemma {:induction false} ReRegisterEffect(w: Writer, types: Types, order: seq<string>)
    ensures var w' := ReRegister(w, types, order);
            && w'.isOpen == w.isOpen && w'.counters == w.counters && w'.currentPath == w.currentPath
            && w'.file.path == w.file.path && w'.file.messages == w.file.messages
            && (w.isOpen ==> forall t :: t in w'.channelIds <==>
                 || t in w.channelIds
                 || (t in order && TypeForTopic(types, t) != "" && TypeForTopic(types, t) in types.types))
    decreases |order|
  {
    hide Announce, TypeForTopic;
    if order != [] {
      var topic := order[0];
      var typeName := TypeForTopic(types, topic);
      var next := if typeName != "" && typeName in types.types then Announce(w, types, topic, typeName) else w;
      if typeName != "" && typeName in types.types {
        AnnounceEffect(w, types, topic, typeName);
      }
      ReRegisterEffect(next, types, order[1..]);
      assert order == [topic] + order[1..];
    }
  }

  lemma StepConfig(w: World, e: Event)
    requires Enabled(e, w)
    ensures Step(w, e).rec.config == w.rec.config
  {
    hide ReRegister, Announce, PathOf, RecordSample;
    if e.ESample? {
      RecordSampleFrame(w.rec, e.topic, e.sample);
    }
  }

  lemma {:induction false} ExecConfig(w: World, run: seq<Event>)
    ensures Exec(w, run).Some? ==> Exec(w, run).value.rec.config == w.rec.config
    decreases |run|
  {
    hide Step, Enabled;
    if run != [] && Enabled(run[0], w) {
      StepConfig(w, run[0]);
      ExecConfig(Step(w, run[0]), run[1..]);
    }
  }

  // ----- conservation -----

  function Payload(messages: seq<Message>): nat {
    if messages == [] then 0 else Payload(messages[..|messages| - 1]) + |messages[|messages| - 1].data|
  }

  /** The writer's counters are those of the file. */
  predicate Counted(file: File, c: Counters) {
    c.messages == |file.messages| && c.bytes == Payload(file.messages)
  }

  function SumMessages(archive: seq<Archived>): nat {
    if archive == [] then 0 else SumMessages(archive[..|archive| - 1]) + archive[|archive| - 1].counters.messages
  }

  function SumBytes(archive: seq<Archived>): nat {
    if archive == [] then 0 else SumBytes(archive[..|archive| - 1]) + archive[|archive| - 1].counters.bytes
  }

  function OpenMessages(r: Rec): nat { if r.writer.isOpen then r.writer.counters.messages else 0 }

  function OpenBytes(r: Rec): nat { if r.writer.isOpen then r.writer.counters.bytes else 0 }

  ghost predicate Conserved(r: Rec) {
    && (!r.started ==> Fresh(r))
    && (forall i :: 0 <= i < |r.log.archive| ==> Counted(r.log.archive[i].file, r.log.archive[i].counters))
    && (r.writer.isOpen ==> Counted(r.writer.file, r.writer.counters))
    && r.stats.recorded == SumMessages(r.log.archive) + OpenMessages(r)
    && r.stats.bytes == SumBytes(r.log.archive) + OpenBytes(r)
    && r.stats.received == r.stats.recorded + r.log.dropped.disabled + r.log.dropped.noChannel + r.log.dropped.failed
  }

  lemma WriteCounted(w: Writer, m: Message, outputOk: bool)
    requires Counted(w.file, w.counters)
    ensures var w' := WriteMessage(w, m, outputOk);
            && Counted(w'.file, w'.counters) && w'.isOpen == w.isOpen
            && w'.counters.messages == w.counters.messages + (if Writes(w, m.channelId, outputOk) then 1 else 0)
            && w'.counters.bytes == w.counters.bytes + (if Writes(w, m.channelId, outputOk) then |m.data| else 0)
  {
    hide WriteSucceeds;
    var ms := w.file.messages + [m];
    assert ms[..|ms| - 1] == w.file.messages;
  }

  lemma RecordSampleConserves(r: Rec, topic: string, s: Sample)
    requires Conserved(r) && r.started
    ensures Conserved(RecordSample(r, topic, s))
  {
    hide SumMessages, SumBytes, WriteSucceeds, Payload;
    if r.writer.isOpen {
      hide Counted, WriteMessage;
      WriteCounted(r.writer, Message(topic, IdOf(r.writer.channelIds, topic), s.logTime, s.data), s.outputOk);
    }
  }

  lemma CloseConserves(r: Rec)
    requires Conserved(r) && r.started
    ensures Conserved(CloseFile(r)) && CloseFile(r).started && !CloseFile(r).writer.isOpen
  {
    if r.writer.isOpen {
      var a := CloseFile(r).log.archive;
      assert a[..|a| - 1] == r.log.archive;
    }
  }

  lemma DoSplitConserves(r: Rec, l: Limits)
    requires Conserved(r) && r.started
    ensures Conserved(DoSplit(r, l))
  {
    hide SumMessages, SumBytes, PathOf, ReRegister, Trim, Trimmed;
    CloseConserves(r);
    var path := PathOf(r.config, l.stamp, ToInt32((r.splitCount + 1) % TWO32));
    ReRegisterEffect(Reopen(r.writer, path, l.created), r.types, l.order);
    assert Payload([]) == 0;
  }

  lemma LimitsConserve(r: Rec, l: Limits)
    requires Conserved(r) && r.started
    ensures Conserved(CheckLimits(r, l)) && CheckLimits(r, l).started
  {
    hide DoSplit, SumMessages, SumBytes, Counted;
    if LimitReached(r, l) && r.config.split {
      DoSplitConserves(r, l);
      SplitStarted(r, l);
    }
  }

  lemma SplitStarted(r: Rec, l: Limits)
    ensures DoSplit(r, l).started == r.started
  {
    hide ReRegister, PathOf;
  }

  lemma StartConserves(r: Rec, stamp: string, created: bool)
    requires Conserved(r) && !r.started
    ensures Conserved(Start(r, stamp, created))
  {
    hide PathOf;
    assert SumMessages([]) == 0 && SumBytes([]) == 0 && Payload([]) == 0;
  }

  lemma DiscoverConserves(r: Rec, ep: Endpoint)
    requires Conserved(r) && r.started
    ensures Conserved(Discover(r, ep))
  {
    hide SumMessages, SumBytes, Announce, Payload;
    if ep.isWriter && ep.accepted {
      var types := RegisterTopic(AddType(r.types, ep.typeName, ep.schemaData), ep.topic, ep.typeName);
      AnnounceEffect(r.writer, types, ep.topic, ep.typeName);
    }
  }

  lemma StopConserves(r: Rec)
    requires Conserved(r)
    ensures Conserved(Stop(r)) && (r.started ==> Conserved(Shut(r)))
  {
    hide SumMessages, SumBytes, CloseFile, Payload, Counted;
    if r.started {
      CloseConserves(r);
      CloseConserves(r.(pollingActive := false));
    }
  }

  /** A round is under way only once recording has started. */
  predicate Placed(w: World) {
    w.round.InRound? ==> w.rec.started
  }

  lemma StepPlaced(w: World, e: Event)
    requires Placed(w) && Enabled(e, w)
    requires !w.rec.started ==> Fresh(w.rec)
    ensures Placed(Step(w, e))
  {
    hide DoSplit, Announce, PathOf, RecordSample;
    if e.ESample? {
      RecordSampleFrame(w.rec, e.topic, e.sample);
    }
  }

  lemma StepConserves(w: World, e: Event)
    requires Conserved(w.rec) && Placed(w) && Enabled(e, w)
    ensures Conserved(Step(w, e).rec)
  {
    hide SumMessages, SumBytes, CheckLimits, Discover, Start, Stop, Shut, Counted, IsWalk, RecordSample;
    match e
    case ESample(topic, s) => RecordSampleConserves(w.rec, topic, s);
    case ELimits(l) => LimitsConserve(w.rec, l);
    case EStart(stamp, created) => StartConserves(w.rec, stamp, created);
    case EFinish => StopConserves(w.rec);
    case EStop => StopConserves(w.rec);
    case EDiscover(ep) => DiscoverConserves(w.rec, ep);
    case _ =>
  }

  ghost predicate ConservedWorld(w: World) { Conserved(w.rec) && Placed(w) }

  /** In every run, with any number of splits and with discovery between any two samples: what was recorded is what
      the files hold, and what was received is what was recorded or dropped for one of the three reasons. */
  lemma {:induction false} RunConserves(w: World, run: seq<Event>)
    requires ConservedWorld(w)
    ensures Exec(w, run).Some? ==> ConservedWorld(Exec(w, run).value)
    decreases |run|
  {
    hide Conserved, Step, Enabled, Placed;
    if run != [] && Enabled(run[0], w) {
      StepConserves(w, run[0]);
      ConservedFresh(w.rec);
      StepPlaced(w, run[0]);
      RunConserves(Step(w, run[0]), run[1..]);
    }
  }

  lemma ConservedFresh(r: Rec)
    ensures Conserved(r) && !r.started ==> Fresh(r)
  {
  }

  lemma InitConserved(config: Config)
    ensures ConservedWorld(Begin(config))
  {
  }
}
