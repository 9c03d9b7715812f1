/** The recorder object: its methods perform the steps of the model. */
module RecorderCode {
  import opened Core
  import opened McapWriter
  import opened TypesCollection
  import opened Recorder

  class RecorderObject {
    const config: Config
    const writer: McapFileWriter
    const types: Collection
    var started: bool
    var state: RecordingState
    var pollingActive: bool
    var discovering: bool
    var readers: set<string>
    var splitCount: nat
    var splitFiles: seq<string>
    var writingEnabled: bool
    var stats: Stats
    ghost var log: History

    ghost function State(): Rec
      reads this, writer, types
    {
      Rec(config, started, state, pollingActive, discovering, types.State(), readers, writer.State(),
          splitCount, splitFiles, writingEnabled, stats, log)
    }

    constructor (config: Config)
      ensures State() == Init(config)
      ensures fresh(writer) && fresh(types)
    {
      this.config := config;
      writer := new McapFileWriter();
      types := new Collection();
      started, state, pollingActive, discovering := false, Stopped, false, false;
      readers, splitCount, splitFiles, writingEnabled := {}, 0, [], true;
      stats := Stats(0, 0, 0, 0);
      log := History([], [], [], Dropped(0, 0, 0), 0);
    }

    method StartRecording(stamp: string, created: bool) returns (ok: bool)
      modifies this, writer
      ensures old(state).Stopped? ==> State() == Start(old(State()), stamp, created)
      ensures old(state).Stopped? ==> ok == (old(writer.isOpen) || created)
      ensures !old(state).Stopped? ==> State() == old(State()) && !ok
    {
      hide PathOf, Open, Live;
      if !state.Stopped? {
        return false;
      }
      splitCount := 0;
      splitFiles := [];
      var firstPath := PathOf(config, stamp, if config.split then 0 else -1);
      ok := writer.OpenFile(firstPath, created);
      if !ok {
        return;
      }
      GoLive(firstPath);
    }

    /** What follows once the first file is open. */
    method GoLive(firstPath: string)
      requires splitFiles == []
      modifies this
      ensures State() == Live(old(State()), firstPath)
    {
      started := true;
      if config.split {
        splitFiles := splitFiles + [firstPath];
      }
      discovering := true;
      pollingActive := true;
      writingEnabled := true;
      state := Running;
      log := log.(paths := log.paths + [firstPath], polled := 0);
    }

    method PauseRecording()
      modifies this
      ensures State() == Pause(old(State()))
    {
      if !state.Running? {
        return;
      }
      state := Paused;
    }

    method ResumeRecording()
      modifies this
      ensures State() == Resume(old(State()))
    {
      if !state.Paused? {
        return;
      }
      state := Running;
    }

    /** Discovery stopped, file closed, state set: the end of both stop() and the polling thread. */
    method ShutDown()
      modifies this, writer
      ensures State() == Shut(old(State()))
    {
      discovering := false;
      if writer.isOpen {
        log := log.(archive := log.archive + [Archived(writer.file, writer.State().counters, log.polled)]);
      }
      writer.CloseFile();
      state := Stopped;
    }

    method StopRecording()
      modifies this, writer
      ensures State() == Stop(old(State()))
    {
      pollingActive := false;
      if state.Stopped? {
        return;
      }
      ShutDown();
    }

    method OnEndpointDiscovered(ep: Endpoint)
      modifies this, writer, types
      ensures State() == Discover(old(State()), ep)
    {
      if !ep.isWriter {
        return;
      }
      if !ep.accepted {
        return;
      }
      stats := stats.(discovered := stats.discovered + 1);
      var added := types.Add(ep.typeName, ep.schemaData);
      types.Register(ep.topic, ep.typeName);
      AnnounceTopic(ep.topic, ep.typeName);
      if ep.topic !in readers && ep.readerOk {
        readers := readers + {ep.topic};
      }
      assert ep.readerOk ==> readers == old(readers) + {ep.topic};
    }

    method AnnounceTopic(topic: string, typeName: string)
      requires typeName in types.types
      modifies writer
      ensures writer.State() == Announce(old(writer.State()), types.State(), topic, typeName)
    {
      if typeName !in writer.schemaIds {
        var t := types.types[typeName];
        var id := writer.AddSchema(Schema(typeName, t.schemaEncoding, t.schemaData));
      }
      if topic !in writer.channelIds {
        var schemaId := IdOf(writer.schemaIds, typeName);
        var id := writer.AddChannel(topic, typeName, schemaId);
      }
    }

    method RecordOne(topic: string, s: Sample)
      modifies this, writer
      ensures State() == RecordSample(old(State()), topic, s)
    {
      hide Deliver, IdOf;
      stats := stats.(received := stats.received + 1);
      if s.disk.Some? {
        writingEnabled := s.disk.value;
      }
      if !writingEnabled {
        log := log.(dropped := log.dropped.(disabled := log.dropped.disabled + 1));
        return;
      }
      var channelId := IdOf(writer.channelIds, topic);
      if channelId == 0 {
        log := log.(dropped := log.dropped.(noChannel := log.dropped.noChannel + 1));
        return;
      }
      DeliverSample(topic, channelId, s);
    }

    method DeliverSample(topic: string, channelId: nat, s: Sample)
      modifies this, writer
      ensures State() == Deliver(old(State()), topic, channelId, s)
    {
      hide WriteMessage, Writes;
      var ok := writer.Write(Message(topic, channelId, s.logTime, s.data), s.outputOk);
      if ok {
        stats := stats.(recorded := stats.recorded + 1, bytes := stats.bytes + |s.data|);
      } else {
        log := log.(dropped := log.dropped.(failed := log.dropped.failed + 1));
      }
    }

    method RecordReader(topic: string, samples: seq<Sample>)
      modifies this, writer
      ensures State() == RecordAll(old(State()), topic, samples)
    {
      hide RecordSample;
      ghost var start := State();
      for i := 0 to |samples|
        invariant RecordAll(State(), topic, samples[i..]) == RecordAll(start, topic, samples)
      {
        assert samples[i..][1..] == samples[i + 1..];
        RecordOne(topic, samples[i]);
      }
    }

    /** One iteration of the polling loop. */
    method PollOnce(batches: seq<Batch>, l: Limits)
      modifies this, writer
      ensures State() == PollRound(old(State()), batches, l)
    {
      hide RecordAll, CheckLimits;
      log := log.(polled := |batches|);
      ghost var start := State();
      for i := 0 to |batches|
        invariant RecordBatches(State(), batches[i..]) == RecordBatches(start, batches)
      {
        assert batches[i..][1..] == batches[i + 1..];
        RecordReader(batches[i].topic, batches[i].samples);
      }
      CheckAllLimits(l);
    }

    method CheckAllLimits(l: Limits)
      modifies this, writer
      ensures State() == CheckLimits(old(State()), l)
    {
      hide DoSplit;
      var limitReached := l.durationReached;
      if !limitReached && config.maxFileSize > 0 {
        if writer.bytesWritten >= config.maxFileSize {
          limitReached := true;
        }
      }
      if !limitReached {
        return;
      }
      if config.split {
        SplitFile(l);
      } else {
        pollingActive := false;
      }
    }

    method SplitFile(l: Limits)
      modifies this, writer
      ensures State() == DoSplit(old(State()), l)
    {
      hide PathOf, Continue, Reopen, ToInt32;
      splitCount := (splitCount + 1) % TWO32;
      var newPath := PathOf(config, l.stamp, ToInt32(splitCount));
      if writer.isOpen {
        log := log.(archive := log.archive + [Archived(writer.file, writer.State().counters, log.polled)]);
      }
      var ok := writer.ReopenFile(newPath, l.created);
      if !ok {
        pollingActive := false;
        return;
      }
      ContinueIn(newPath, l.order);
    }

    method ContinueIn(newPath: string, order: seq<string>)
      modifies this, writer
      ensures State() == Continue(old(State()), newPath, order)
    {
      hide ReRegister, Trim, Trimmed;
      ReRegisterAll(order);
      splitFiles := splitFiles + [newPath];
      log := log.(paths := log.paths + [newPath], polled := 0);
      CheckNumSplits();
    }

    method CheckNumSplits()
      modifies this`splitFiles, this`log
      ensures splitFiles == if config.maxSplits == 0 then old(splitFiles) else Trim(old(splitFiles), config.maxSplits)
      ensures var removed := if config.maxSplits == 0 then [] else Trimmed(old(splitFiles), config.maxSplits);
              log == old(log).(deleted := old(log.deleted) + removed)
    {
      if config.maxSplits == 0 {
        return;
      }
      ghost var all, k := splitFiles, 0;
      while |splitFiles| > config.maxSplits
        invariant 0 <= k <= |all| && splitFiles == all[k..]
        invariant k == 0 || |splitFiles| >= config.maxSplits
        invariant log == old(log).(deleted := old(log.deleted) + all[..k])
      {
        var oldest := splitFiles[0];
        log := log.(deleted := log.deleted + [oldest]);
        assert all[..k + 1] == all[..k] + [oldest];
        splitFiles := splitFiles[1..];
        k := k + 1;
      }
    }

    method ReRegisterAll(order: seq<string>)
      modifies writer
      ensures writer.State() == ReRegister(old(writer.State()), types.State(), order)
    {
      hide Announce;
      ghost var start := writer.State();
      for i := 0 to |order|
        invariant ReRegister(writer.State(), types.State(), order[i..]) == ReRegister(start, types.State(), order)
      {
        assert order[i..][1..] == order[i + 1..];
        var typeName := types.GetTypeForTopic(order[i]);
        if typeName != "" && typeName in types.types {
          AnnounceTopic(order[i], typeName);
        }
      }
    }
  }
}
