/** How far a file can grow past the size limit: the limit is looked at once per polling round. */
module RecorderSize {
  import opened Core
  import opened McapWriter
  import opened TypesCollection
  import opened Recorder
  import opened RecorderRuns

  /** What one round can add: 100 samples from each reader. */
  function Slack(readers: nat, sampleSize: nat): nat {
    Allowance(MAX_SAMPLES * readers, sampleSize)
  }

  function Allowance(samples: nat, sampleSize: nat): nat { samples * sampleSize }

  predicate SmallEvent(e: Event, sampleSize: nat) {
    e.ESample? ==> |e.sample.data| <= sampleSize
  }

  /** Within a round the open file still has room for the samples to come. */
  ghost predicate Bounded(w: World, sampleSize: nat) {
    var r := w.rec;
    && (!r.started ==> Fresh(r))
    && Placed(w)
    && (r.config.maxFileSize > 0 ==>
         && (forall i :: 0 <= i < |r.log.archive| ==> FileBounded(r.config, r.log.archive[i], sampleSize))
         && (r.writer.isOpen ==> OpenBounded(w, sampleSize)))
  }

  predicate OpenBounded(w: World, sampleSize: nat) {
    var bytes, limit := w.rec.writer.counters.bytes, w.rec.config.maxFileSize;
    match w.round
    case NoRound => bytes < limit + Slack(w.rec.log.polled, sampleSize) && (w.rec.pollingActive ==> bytes < limit)
    case InRound(_, left) => bytes + Allowance(left, sampleSize) < limit + Slack(w.rec.log.polled, sampleSize)
  }

  predicate FileBounded(config: Config, a: Archived, sampleSize: nat) {
    a.counters.bytes < config.maxFileSize + Slack(a.polled, sampleSize)
  }

  lemma RecordOneGrowth(r: Rec, topic: string, s: Sample)
    ensures RecordSample(r, topic, s).writer.counters.bytes <= r.writer.counters.bytes + |s.data|
  {
    hide Writes, IdOf, WriteMessage;
    WriteGrowth(r.writer, Message(topic, IdOf(r.writer.channelIds, topic), s.logTime, s.data), s.outputOk);
  }

  lemma WriteGrowth(w: Writer, m: Message, outputOk: bool)
    ensures WriteMessage(w, m, outputOk).counters.bytes <= w.counters.bytes + |m.data|
  {
    hide WriteSucceeds;
  }

  lemma OneLess(left: nat, sampleSize: nat)
    requires left > 0
    ensures Allowance(left, sampleSize) == Allowance(left - 1, sampleSize) + sampleSize
  {
  }

  lemma SampleBounded(w: World, topic: string, s: Sample, sampleSize: nat)
    requires Bounded(w, sampleSize) && Enabled(ESample(topic, s), w) && |s.data| <= sampleSize
    ensures Bounded(Step(w, ESample(topic, s)), sampleSize)
  {
    hide RecordSample, Allowance, Slack, FileBounded;
    RecordSampleFrame(w.rec, topic, s);
    RecordOneGrowth(w.rec, topic, s);
    OneLess(w.round.left, sampleSize);
  }

  lemma BeginBounded(w: World, sampleSize: nat)
    requires Bounded(w, sampleSize) && Enabled(EBegin, w)
    ensures Bounded(Step(w, EBegin), sampleSize)
  {
    hide Allowance, FileBounded;
  }

  lemma LimitsBounded(w: World, l: Limits, sampleSize: nat)
    requires Bounded(w, sampleSize) && Enabled(ELimits(l), w)
    ensures Bounded(Step(w, ELimits(l)), sampleSize)
  {
    hide DoSplit, Slack, Allowance, FileBounded, IsWalk;
    if LimitReached(w.rec, l) && w.rec.config.split {
      SplitBounded(w.rec, l, sampleSize);
    }
  }

  lemma SplitBounded(r: Rec, l: Limits, sampleSize: nat)
    requires r.started
    requires r.config.maxFileSize > 0 ==>
               && (forall i :: 0 <= i < |r.log.archive| ==> FileBounded(r.config, r.log.archive[i], sampleSize))
               && (r.writer.isOpen ==> r.writer.counters.bytes < r.config.maxFileSize + Slack(r.log.polled, sampleSize))
    ensures Bounded(World(DoSplit(r, l), NoRound), sampleSize)
  {
    hide PathOf, ReRegister, Trim, Trimmed, Slack;
    var path := PathOf(r.config, l.stamp, ToInt32((r.splitCount + 1) % TWO32));
    ReRegisterEffect(Reopen(r.writer, path, l.created), r.types, l.order);
  }

  lemma StepBounded(w: World, e: Event, sampleSize: nat)
    requires Bounded(w, sampleSize) && Enabled(e, w) && SmallEvent(e, sampleSize)
    ensures Bounded(Step(w, e), sampleSize)
  {
    hide CheckLimits, Discover, Start, Slack, Allowance, IsWalk, Stop, Shut, FileBounded, RecordSample;
    match e
    case ESample(topic, s) => SampleBounded(w, topic, s, sampleSize);
    case EBegin => BeginBounded(w, sampleSize);
    case ELimits(l) => LimitsBounded(w, l, sampleSize);
    case EStart(stamp, created) => StartBounded(w, stamp, created, sampleSize);
    case EDiscover(ep) => DiscoverBounded(w, ep, sampleSize);
    case EStop => StopBounded(w, sampleSize);
    case EFinish => StopBounded(w, sampleSize);
    case _ =>
  }

  lemma StartBounded(w: World, stamp: string, created: bool, sampleSize: nat)
    requires Bounded(w, sampleSize) && !w.rec.started
    ensures Bounded(w.(rec := Start(w.rec, stamp, created)), sampleSize)
  {
    hide PathOf, Slack;
  }

  lemma DiscoverBounded(w: World, ep: Endpoint, sampleSize: nat)
    requires Bounded(w, sampleSize) && w.rec.started
    ensures Bounded(w.(rec := Discover(w.rec, ep)), sampleSize)
  {
    hide Announce, Slack, Allowance, FileBounded;
    var r := w.rec;
    if ep.isWriter && ep.accepted {
      AnnounceEffect(r.writer, RegisterTopic(AddType(r.types, ep.typeName, ep.schemaData), ep.topic, ep.typeName),
                     ep.topic, ep.typeName);
    }
  }

  lemma StopBounded(w: World, sampleSize: nat)
    requires Bounded(w, sampleSize) && w.round.NoRound?
    ensures Bounded(w.(rec := Stop(w.rec)), sampleSize)
    ensures w.rec.started ==> Bounded(w.(rec := Shut(w.rec)), sampleSize)
  {
    hide Slack, Allowance;
  }

  /** In every run whose samples have at most this many bytes, every file that was closed or is open holds
      less than max_file_size plus what one round of its readers can add. */
  lemma {:induction false} RunBounded(w: World, run: seq<Event>, sampleSize: nat)
    requires Bounded(w, sampleSize) && forall i :: 0 <= i < |run| ==> SmallEvent(run[i], sampleSize)
    ensures Exec(w, run).Some? ==> Bounded(Exec(w, run).value, sampleSize)
    decreases |run|
  {
    hide Bounded, Step, Enabled, SmallEvent;
    if run != [] && Enabled(run[0], w) {
      StepBounded(w, run[0], sampleSize);
      RunBounded(Step(w, run[0]), run[1..], sampleSize);
    }
  }

  lemma InitBounded(config: Config, sampleSize: nat)
    ensures Bounded(Begin(config), sampleSize)
  {
  }

  lemma OpenBelow(w: World, sampleSize: nat)
    requires OpenBounded(w, sampleSize)
    ensures w.rec.writer.counters.bytes < w.rec.config.maxFileSize + Slack(w.rec.log.polled, sampleSize)
  {
    hide Slack;
  }

  lemma SlackIs(readers: nat, sampleSize: nat)
    ensures Slack(readers, sampleSize) == 100 * readers * sampleSize
  {
  }

  /** Said of the bytes in the files, from the very start. */
  lemma PayloadBounded(config: Config, run: seq<Event>, sampleSize: nat)
    requires config.maxFileSize > 0 && forall i :: 0 <= i < |run| ==> SmallEvent(run[i], sampleSize)
    ensures var w := Exec(Begin(config), run);
            w.Some? ==>
              var r := w.value.rec;
              && (forall i :: 0 <= i < |r.log.archive| ==>
                   Payload(r.log.archive[i].file.messages)
                   < config.maxFileSize + 100 * r.log.archive[i].polled * sampleSize)
              && (r.writer.isOpen ==>
                   Payload(r.writer.file.messages) < config.maxFileSize + 100 * r.log.polled * sampleSize)
  {
    hide Exec, Slack, SmallEvent, OpenBounded;
    ExecConfig(Begin(config), run);
    InitBounded(config, sampleSize);
    InitConserved(config);
    RunBounded(Begin(config), run, sampleSize);
    RunConserves(Begin(config), run);
    var w := Exec(Begin(config), run);
    if w.Some? {
      var r := w.value.rec;
      if r.writer.isOpen {
        OpenBelow(w.value, sampleSize);
        SlackIs(r.log.polled, sampleSize);
      }
      forall i | 0 <= i < |r.log.archive|
        ensures Payload(r.log.archive[i].file.messages)
                < config.maxFileSize + 100 * r.log.archive[i].polled * sampleSize
      {
        SlackIs(r.log.archive[i].polled, sampleSize);
      }
    }
  }
}
