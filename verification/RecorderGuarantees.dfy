/** Everything the recorder guarantees, from its construction on. */
module RecorderGuarantees {
  import opened Core
  import opened McapWriter
  import opened TypesCollection
  import opened Recorder
  import opened RecorderRuns
  import opened RecorderContents
  import opened RecorderIntegrity
  import opened RecorderRetention

  /** All messages in closed files. */
  function Stored(archive: seq<Archived>): nat {
    if archive == [] then 0 else Stored(archive[..|archive| - 1]) + |archive[|archive| - 1].file.messages|
  }

  lemma {:induction false} StoredIsCounted(archive: seq<Archived>)
    requires forall i :: 0 <= i < |archive| ==> Counted(archive[i].file, archive[i].counters)
    ensures Stored(archive) == SumMessages(archive) && StoredBytes(archive) == SumBytes(archive)
  {
    if archive != [] {
      StoredIsCounted(archive[..|archive| - 1]);
    }
  }

  /** The payload of all closed files. */
  function StoredBytes(archive: seq<Archived>): nat {
    if archive == [] then 0 else StoredBytes(archive[..|archive| - 1]) + Payload(archive[|archive| - 1].file.messages)
  }

  /** The messages and bytes counted as recorded are those that lie in the files. */
  lemma EveryMessageAccounted(config: Config, run: seq<Event>)
    ensures var r := Exec(Begin(config), run);
            r.Some? ==>
              var s := r.value.rec;
              && s.stats.recorded == Stored(s.log.archive) + (if s.writer.isOpen then |s.writer.file.messages| else 0)
              && s.stats.bytes ==
                 StoredBytes(s.log.archive) + (if s.writer.isOpen then Payload(s.writer.file.messages) else 0)
              && s.stats.received ==
                 s.stats.recorded + s.log.dropped.disabled + s.log.dropped.noChannel + s.log.dropped.failed
  {
    hide Exec, Payload;
    InitConserved(config);
    RunConserves(Begin(config), run);
    var r := Exec(Begin(config), run);
    if r.Some? {
      StoredIsCounted(r.value.rec.log.archive);
    }
  }

  /** When a sample is kept, told from the run and the open file: the last disk check found space, the output works,
      and the topic has a channel whose 16-bit id is not zero. */
  lemma KeptExactly(config: Config, run: seq<Event>, topic: string, s: Sample)
    ensures var w := Exec(Begin(config), run);
            w.Some? ==>
              (IsKept(w.value.rec, topic, s) <==>
                && (if s.disk.Some? then s.disk.value else LastCheck(true, run))
                && s.outputOk && w.value.rec.writer.isOpen
                && HasChannel(w.value.rec.writer.file.channels, topic))
  {
    hide Exec, LastCheck, IsKept, HasChannel, WriterSound;
    EnabledAfterRun(config, run);
    InitIntegrity(config);
    RunIntegrity(Begin(config), run);
    var w := Exec(Begin(config), run);
    if w.Some? {
      KeptWhenSound(w.value.rec, topic, s);
    }
  }

  ghost predicate HasChannel(channels: seq<Channel>, topic: string) {
    exists i :: 0 <= i < |channels| && channels[i].topic == topic && (i + 1) % 0x1_0000 != 0
  }

  lemma KeptWhenSound(r: Rec, topic: string, s: Sample)
    requires WriterSound(r.writer)
    ensures IsKept(r, topic, s) <==>
              && (if s.disk.Some? then s.disk.value else r.writingEnabled)
              && s.outputOk && r.writer.isOpen && HasChannel(r.writer.file.channels, topic)
  {
    hide WriterSound, HasChannel, IdOf;
    if r.writer.isOpen {
      ChannelWhenSound(r.writer, topic);
    }
  }

  /** The id of a topic is zero exactly if it has no channel but such a 65536th one; any other can be written. */
  lemma ChannelWhenSound(w: Writer, topic: string)
    requires WriterSound(w) && w.isOpen
    ensures IdOf(w.channelIds, topic) != 0 <==> HasChannel(w.file.channels, topic)
    ensures IdOf(w.channelIds, topic) != 0 ==> WriteSucceeds(w.file, IdOf(w.channelIds, topic), true)
  {
    hide Sound;
    IdIsZero(w.channelIds, w.file.channels, topic);
    if IdOf(w.channelIds, topic) != 0 {
      IdCanBeWritten(w.file, IdOf(w.channelIds, topic));
    }
  }

  lemma IdIsZero(ids: map<string, nat>, channels: seq<Channel>, topic: string)
    requires Indexed(ids, Topics(channels))
    ensures IdOf(ids, topic) != 0 <==> HasChannel(channels, topic)
    ensures IdOf(ids, topic) <= |channels|
  {
    hide HasChannel;
    if topic in ids {
      var i :| 0 <= i < |channels| && Topics(channels)[i] == topic && ids[topic] == NextId(i);
      ChannelAt(channels, topic, i);
    } else if HasChannel(channels, topic) {
      ChannelOf(channels, topic);
    }
  }

  lemma ChannelAt(channels: seq<Channel>, topic: string, i: nat)
    requires Distinct(Topics(channels)) && i < |channels| && channels[i].topic == topic
    ensures HasChannel(channels, topic) <==> NextId(i) != 0
  {
    assert Topics(channels)[i] == topic;
    if HasChannel(channels, topic) {
      var j :| 0 <= j < |channels| && channels[j].topic == topic && (j + 1) % 0x1_0000 != 0;
      assert Topics(channels)[j] == topic;
      assert i == j;
    }
  }

  lemma ChannelOf(channels: seq<Channel>, topic: string)
    requires HasChannel(channels, topic)
    ensures exists i :: 0 <= i < |channels| && Topics(channels)[i] == topic
  {
    var j :| 0 <= j < |channels| && channels[j].topic == topic && (j + 1) % 0x1_0000 != 0;
    assert Topics(channels)[j] == topic;
  }

  lemma IdCanBeWritten(file: File, id: nat)
    requires Sound(file) && 1 <= id <= |file.channels|
    ensures WriteSucceeds(file, id, true)
  {
    hide Written, Distinct;
    assert HasSchema(file.schemas, file.channels[id - 1]);
  }

  /** After a check at which the time is up or the file has grown to its limit, the old file is closed, and either
      recording goes on in a new and empty file at the end of the list, or polling has ended; without splitting it
      ends at once, and the file stays open until the thread has left. Any other check changes nothing. */
  lemma LimitsExactly(r: Rec, l: Limits)
    ensures var r' := CheckLimits(r, l);
            if l.durationReached || (r.config.maxFileSize > 0 && r.writer.counters.bytes >= r.config.maxFileSize) then
              if !r.config.split then r' == r.(pollingActive := false)
              else
                && (r.writer.isOpen ==>
                     r'.log.archive == r.log.archive + [Archived(r.writer.file, r.writer.counters, r.log.polled)])
                && (l.created ==>
                     && r'.writer.isOpen && r'.writer.file.messages == [] && r'.pollingActive == r.pollingActive
                     && r'.log.paths == r.log.paths + [r'.writer.file.path])
                && (!l.created ==> !r'.writer.isOpen && !r'.pollingActive && r'.log.paths == r.log.paths)
            else r' == r
  {
    hide PathOf, ReRegister, Trim, Trimmed;
    var path := PathOf(r.config, l.stamp, ToInt32((r.splitCount + 1) % TWO32));
    ReRegisterEffect(Reopen(r.writer, path, l.created), r.types, l.order);
  }

  /** A stopped recorder is not at work. */
  ghost predicate AtRest(r: Rec) { !r.discovering && !r.writer.isOpen }

  ghost predicate Restful(w: World) {
    && (w.rec.state.Stopped? ==> AtRest(w.rec) && w.round.NoRound?)
    && (!w.rec.started ==> Fresh(w.rec))
    && Placed(w)
  }

  lemma StepRestful(w: World, e: Event)
    requires Restful(w) && Enabled(e, w)
    ensures Restful(Step(w, e))
  {
    hide ReRegister, Announce, PathOf, RecordSample, Trim, Trimmed, IsWalk;
    StepPlaced(w, e);
    match e
    case ESample(topic, s) => RecordSampleFrame(w.rec, topic, s);
    case EDiscover(ep) =>
      if ep.isWriter && ep.accepted {
        var types := RegisterTopic(AddType(w.rec.types, ep.typeName, ep.schemaData), ep.topic, ep.typeName);
        AnnounceEffect(w.rec.writer, types, ep.topic, ep.typeName);
      }
    case ELimits(l) => LimitsExactly(w.rec, l);
    case _ =>
  }

  lemma {:induction false} RunRestful(w: World, run: seq<Event>)
    requires Restful(w)
    ensures Exec(w, run).Some? ==> Restful(Exec(w, run).value)
    decreases |run|
  {
    hide Restful, Step, Enabled;
    if run != [] && Enabled(run[0], w) {
      StepRestful(w, run[0]);
      RunRestful(Step(w, run[0]), run[1..]);
    }
  }

  /** A start whose file opens leaves everything at work on one empty file, which is named after the time stamp and
      the index zero if files are split; any other start changes nothing that would keep it from being repeated. */
  lemma StartExactly(config: Config, run: seq<Event>, stamp: string, created: bool)
    ensures var w := Exec(Begin(config), run);
            w.Some? && Enabled(EStart(stamp, created), w.value) ==>
              var r := Step(w.value, EStart(stamp, created)).rec;
              && (created ==>
                   var f := r.writer.file;
                   && r.state.Running? && r.pollingActive && r.discovering && r.writingEnabled && r.writer.isOpen
                   && f.messages == [] && f.channels == [] && f.schemas == [] && r.log.paths == [f.path]
                   && IsNamed(config, f.path, stamp, if config.split then 0 else -1))
              && (!created ==> Fresh(r))
  {
    hide Exec, IsNamed, PathOf;
    RunRestful(Begin(config), run);
    ExecConfig(Begin(config), run);
    PathIsNamed(config, stamp, if config.split then 0 else -1);
  }

  /** After any run, a stop, and the end of a polling thread that sees Running, leave a recorder that is stopped, does
      not poll or discover, and has no file open. */
  lemma StopEndsEverything(config: Config, run: seq<Event>, e: Event)
    ensures var w := Exec(Begin(config), run);
            w.Some? && (e.EStop? || e.EFinish?) && Enabled(e, w.value) ==>
              var r := Step(w.value, e).rec;
              r.state.Stopped? && !r.pollingActive && AtRest(r)
  {
    hide Exec;
    RunRestful(Begin(config), run);
  }

  /** No file refers to anything outside it; in every file a message carries the channel of its own topic exactly if
      that is among the first 65535; and no reader whose type has a name is without a channel. */
  lemma EveryFileSelfContained(config: Config, run: seq<Event>)
    ensures var r := Exec(Begin(config), run);
            r.Some? ==>
              var s := r.value.rec;
              && (forall i :: 0 <= i < |s.log.archive| ==> SelfContained(s.log.archive[i].file))
              && (s.writer.isOpen ==> SelfContained(s.writer.file))
              && (s.writer.isOpen ==>
                   forall t :: t in s.readers && TypeForTopic(s.types, t) != "" ==> t in s.writer.channelIds)
  {
    hide Exec, Sound, SelfContained, Indexed;
    InitIntegrity(config);
    RunIntegrity(Begin(config), run);
    var r := Exec(Begin(config), run);
    if r.Some? {
      var s := r.value.rec;
      forall i | 0 <= i < |s.log.archive| ensures SelfContained(s.log.archive[i].file) {
        SoundIsSelfContained(s.log.archive[i].file);
      }
      if s.writer.isOpen {
        SoundIsSelfContained(s.writer.file);
      }
    }
  }

  /** With splitting, exactly the newest max_splits files are kept, in order, or all without that limit, the others
      have been removed, oldest first, and the open one is never removed; without splitting nothing is removed. The
      i-th file opened has the index i in its name, and the only file without splitting has none. */
  lemma NewestFilesKept(config: Config, run: seq<Event>)
    ensures var r := Exec(Begin(config), run);
            r.Some? ==>
              var s := r.value.rec;
              var paths := s.log.paths;
              if config.split then
                && s.log.deleted + s.splitFiles == paths
                && |s.splitFiles| == KeptCount(|paths|, config.maxSplits)
                && (|paths| <= 0x8000_0000 && s.writer.isOpen ==>
                     && s.splitFiles != [] && s.splitFiles[|s.splitFiles| - 1] == s.writer.file.path
                     && s.writer.file.path !in s.log.deleted)
                && (|paths| <= 0x8000_0000 ==>
                     forall i :: 0 <= i < |paths| ==> HasIndex(config, paths[i], i))
              else
                && s.splitFiles == [] && s.log.deleted == [] && |paths| <= 1
                && (forall i :: 0 <= i < |paths| ==> HasIndex(config, paths[i], -1))
  {
    hide Exec, Retains, HasIndex, KeptCount;
    InitRetains(config);
    RunRetains(Begin(config), run);
    ExecConfig(Begin(config), run);
    var r := Exec(Begin(config), run);
    if r.Some? {
      PathsNumbered(r.value.rec);
      if config.split {
        Retention(r.value.rec);
      } else {
        NoListWithout(r.value.rec);
      }
    }
  }

  lemma NoListWithout(r: Rec)
    requires Retains(r) && !r.config.split
    ensures r.splitFiles == [] && r.log.deleted == []
  {
  }
}
