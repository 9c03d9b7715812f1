/** What lies in the files and tables of the recorder, told from the events of a run alone. */
module RecorderContents {
  import opened Core
  import opened McapWriter
  import opened TypesCollection
  import opened Recorder
  import opened RecorderRuns

  // ----- messages -----

  /** What a reader of the files gets back of a sample. */
  datatype Entry = Entry(topic: string, logTime: nat, data: seq<int>)

  function Entries(messages: seq<Message>): (s: seq<Entry>)
    ensures |s| == |messages|
  {
    seq(|messages|, i requires 0 <= i < |messages| =>
      Entry(messages[i].topic, messages[i].logTime, messages[i].data))
  }

  function ArchivedEntries(archive: seq<Archived>): seq<Entry> {
    if archive == [] then []
    else ArchivedEntries(archive[..|archive| - 1]) + Entries(archive[|archive| - 1].file.messages)
  }

  /** The closed files in order, then the open one. */
  function AllEntries(r: Rec): seq<Entry> {
    ArchivedEntries(r.log.archive) + (if r.writer.isOpen then Entries(r.writer.file.messages) else [])
  }

  /** The sample is neither dropped nor does its write fail. */
  predicate IsKept(r: Rec, topic: string, s: Sample) {
    && (if s.disk.Some? then s.disk.value else r.writingEnabled)
    && IdOf(r.writer.channelIds, topic) != 0
    && Writes(r.writer, IdOf(r.writer.channelIds, topic), s.outputOk)
  }

  function KeptOf(w: World, e: Event): seq<Entry> {
    if e.ESample? && IsKept(w.rec, e.topic, e.sample) then [Entry(e.topic, e.sample.logTime, e.sample.data)] else []
  }

  /** The samples of a run that were kept, in the order in which they came. */
  function KeptInRun(w: World, run: seq<Event>): seq<Entry>
    decreases |run|
  {
    if run == [] || !Enabled(run[0], w) then []
    else KeptOf(w, run[0]) + KeptInRun(Step(w, run[0]), run[1..])
  }

  lemma EntriesMore(messages: seq<Message>, m: Message)
    ensures Entries(messages + [m]) == Entries(messages) + [Entry(m.topic, m.logTime, m.data)]
  {
  }

  lemma DeliverContents(r: Rec, topic: string, id: nat, s: Sample)
    ensures AllEntries(Deliver(r, topic, id, s)) ==
            AllEntries(r) + (if Writes(r.writer, id, s.outputOk) then [Entry(topic, s.logTime, s.data)] else [])
  {
    hide WriteSucceeds, ArchivedEntries, Entries;
    EntriesMore(r.writer.file.messages, Message(topic, id, s.logTime, s.data));
  }

  lemma SampleContents(r: Rec, topic: string, s: Sample)
    ensures AllEntries(RecordSample(r, topic, s)) ==
            AllEntries(r) + (if IsKept(r, topic, s) then [Entry(topic, s.logTime, s.data)] else [])
  {
    hide Deliver, ArchivedEntries, Entries, Writes, IdOf;
    var enabled := if s.disk.Some? then s.disk.value else r.writingEnabled;
    var r1 := r.(stats := r.stats.(received := r.stats.received + 1), writingEnabled := enabled);
    DeliverContents(r1, topic, IdOf(r.writer.channelIds, topic), s);
  }

  lemma CloseContents(r: Rec)
    ensures AllEntries(CloseFile(r)) == AllEntries(r) && !CloseFile(r).writer.isOpen
  {
    var archive := r.log.archive + [Archived(r.writer.file, r.writer.counters, r.log.polled)];
    assert archive[..|archive| - 1] == r.log.archive;
  }

  lemma SplitContents(r: Rec, l: Limits)
    ensures AllEntries(DoSplit(r, l)) == AllEntries(r)
  {
    hide ReRegister, PathOf, Trim, Trimmed, ArchivedEntries, Entries;
    CloseContents(r);
    var path := PathOf(r.config, l.stamp, ToInt32((r.splitCount + 1) % TWO32));
    ReRegisterEffect(Reopen(r.writer, path, l.created), r.types, l.order);
    NoEntries();
  }

  lemma NoEntries()
    ensures Entries([]) == []
  {
  }

  lemma StepContents(w: World, e: Event)
    requires Enabled(e, w) && (!w.rec.started ==> Fresh(w.rec))
    ensures AllEntries(Step(w, e).rec) == AllEntries(w.rec) + KeptOf(w, e)
  {
    hide ArchivedEntries, Entries, DoSplit, RecordSample, IsKept, Announce, IsWalk, PathOf, CloseFile, AllEntries;
    match e
    case ESample(topic, s) => SampleContents(w.rec, topic, s);
    case ELimits(l) =>
      SplitContents(w.rec, l);
      SameContents(w.rec, w.rec.(pollingActive := false));
    case EStart(stamp, created) => StartContents(w.rec, stamp, created);
    case EStop => StopContents(w.rec);
    case EFinish => StopContents(w.rec);
    case EDiscover(ep) => DiscoverContents(w.rec, ep);
    case _ => SameContents(w.rec, Step(w, e).rec);
  }

  lemma SameContents(r: Rec, r': Rec)
    requires r'.writer == r.writer && r'.log.archive == r.log.archive
    ensures AllEntries(r') == AllEntries(r)
  {
  }

  lemma StartContents(r: Rec, stamp: string, created: bool)
    requires Fresh(r)
    ensures AllEntries(Start(r, stamp, created)) == AllEntries(r)
  {
    hide PathOf;
    NoEntries();
  }

  lemma StopContents(r: Rec)
    ensures AllEntries(Stop(r)) == AllEntries(r) && AllEntries(Shut(r)) == AllEntries(r)
  {
    hide CloseFile, AllEntries;
    CloseContents(r);
    var r1 := r.(pollingActive := false);
    CloseContents(r1);
    SameContents(r, r1);
    SameContents(CloseFile(r1), Shut(r1));
    SameContents(CloseFile(r), Shut(r));
  }

  lemma DiscoverContents(r: Rec, ep: Endpoint)
    ensures AllEntries(Discover(r, ep)) == AllEntries(r)
  {
    hide Announce, Entries;
    if ep.isWriter && ep.accepted {
      AnnounceEffect(r.writer, RegisterTopic(AddType(r.types, ep.typeName, ep.schemaData), ep.topic, ep.typeName),
                     ep.topic, ep.typeName);
    }
  }

  lemma {:induction false} RunContents(w: World, run: seq<Event>)
    requires ConservedWorld(w) && Exec(w, run).Some?
    ensures AllEntries(Exec(w, run).value.rec) == AllEntries(w.rec) + KeptInRun(w, run)
    decreases |run|
  {
    hide Step, Enabled, Conserved, AllEntries, KeptOf, Placed;
    if run != [] {
      ConservedFresh(w.rec);
      StepContents(w, run[0]);
      StepConserves(w, run[0]);
      StepPlaced(w, run[0]);
      RunContents(Step(w, run[0]), run[1..]);
    }
  }

  /** From construction on: topic, log time and payload of the messages in all files, closed ones first, are, in
      order, those of the samples of the run that were neither dropped nor failed. */
  lemma FilesHoldTheSamples(config: Config, run: seq<Event>)
    ensures var w := Exec(Begin(config), run);
            w.Some? ==> AllEntries(w.value.rec) == KeptInRun(Begin(config), run)
  {
    hide Exec, KeptInRun;
    InitConserved(config);
    if Exec(Begin(config), run).Some? {
      RunContents(Begin(config), run);
    }
  }

  // ----- whether writing is enabled -----

  /** The outcome of the last disk check that a sample met, or what it was before. */
  function LastCheck(enabled: bool, run: seq<Event>): bool
    decreases |run|
  {
    if run == [] then enabled
    else
      var e := run[0];
      var next := if e.ESample? && e.sample.disk.Some? then e.sample.disk.value else enabled;
      LastCheck(next, run[1..])
  }

  lemma StepEnabled(w: World, e: Event)
    requires ConservedWorld(w) && Enabled(e, w)
    ensures Step(w, e).rec.writingEnabled ==
            if e.ESample? && e.sample.disk.Some? then e.sample.disk.value else w.rec.writingEnabled
  {
    hide ReRegister, Announce, PathOf, Deliver, IdOf, Trim, Trimmed, Conserved;
    ConservedFresh(w.rec);
    match e
    case ESample(topic, s) => SampleEnabled(w.rec, topic, s);
    case _ =>
  }

  lemma SampleEnabled(r: Rec, topic: string, s: Sample)
    ensures RecordSample(r, topic, s).writingEnabled == if s.disk.Some? then s.disk.value else r.writingEnabled
  {
    hide WriteMessage, Writes, IdOf;
  }

  lemma {:induction false} RunEnabled(w: World, run: seq<Event>)
    requires ConservedWorld(w) && Exec(w, run).Some?
    ensures Exec(w, run).value.rec.writingEnabled == LastCheck(w.rec.writingEnabled, run)
    decreases |run|
  {
    hide Step, Enabled, Conserved, Placed;
    if run != [] {
      StepEnabled(w, run[0]);
      StepConserves(w, run[0]);
      ConservedFresh(w.rec);
      StepPlaced(w, run[0]);
      RunEnabled(Step(w, run[0]), run[1..]);
    }
  }

  /** Writing is enabled exactly if no disk check has been made, or the last one found enough space. */
  lemma EnabledAfterRun(config: Config, run: seq<Event>)
    ensures var w := Exec(Begin(config), run);
            w.Some? ==> w.value.rec.writingEnabled == LastCheck(true, run)
  {
    hide Exec;
    InitConserved(config);
    if Exec(Begin(config), run).Some? {
      RunEnabled(Begin(config), run);
    }
  }

  // ----- what discovery leaves in the tables -----

  predicate IsOffer(e: Event) { e.EDiscover? && e.ep.isWriter && e.ep.accepted }

  /** How many accepted writers were announced. */
  function Offers(run: seq<Event>): nat {
    if run == [] then 0 else (if IsOffer(run[0]) then 1 else 0) + Offers(run[1..])
  }

  /** The topics for which a reader could be created. */
  function ReaderTopics(run: seq<Event>): set<string> {
    if run == [] then {}
    else (if IsOffer(run[0]) && run[0].ep.readerOk then {run[0].ep.topic} else {}) + ReaderTopics(run[1..])
  }

  /** The type with which a topic was announced last. */
  function LastType(topic: string, before: Option<string>, run: seq<Event>): Option<string>
    decreases |run|
  {
    if run == [] then before
    else
      var next := if IsOffer(run[0]) && run[0].ep.topic == topic then Some(run[0].ep.typeName) else before;
      LastType(topic, next, run[1..])
  }

  /** The schema text with which a type was announced first. */
  function FirstText(typeName: string, run: seq<Event>): Option<string> {
    if run == [] then None
    else if IsOffer(run[0]) && run[0].ep.typeName == typeName then Some(run[0].ep.schemaData)
    else FirstText(typeName, run[1..])
  }

  /** The pairs of topic and type that were announced. */
  function Pairs(run: seq<Event>): set<(string, string)> {
    if run == [] then {}
    else (if IsOffer(run[0]) then {(run[0].ep.topic, run[0].ep.typeName)} else {}) + Pairs(run[1..])
  }

  function Look<T>(m: map<string, T>, key: string): Option<T> { if key in m then Some(m[key]) else None }

  lemma StepTables(w: World, e: Event)
    requires Enabled(e, w)
    ensures !IsOffer(e) ==>
              var r, r' := w.rec, Step(w, e).rec;
              r'.types == r.types && r'.readers == r.readers && r'.stats.discovered == r.stats.discovered
    ensures IsOffer(e) ==> Step(w, e).rec == Discover(w.rec, e.ep)
  {
    hide ReRegister, Announce, PathOf, RecordSample, Trim, Trimmed;
    if e.ESample? {
      RecordSampleFrame(w.rec, e.topic, e.sample);
    }
  }

  /** The tables after a run, told from those before and the events. */
  ghost predicate TablesAre(r: Rec, r': Rec, run: seq<Event>) {
    && r'.stats.discovered == r.stats.discovered + Offers(run)
    && r'.readers == r.readers + ReaderTopics(run)
    && (forall t :: Look(r'.types.topics, t) == LastType(t, Look(r.types.topics, t), run))
    && (forall n :: Look(r'.types.types, n) ==
          if n in r.types.types then Some(r.types.types[n])
          else if FirstText(n, run).Some? then Some(CollectedType(n, "omgidl", FirstText(n, run).value))
          else None)
  }

  lemma {:induction false} RunTables(w: World, run: seq<Event>)
    requires Exec(w, run).Some?
    ensures TablesAre(w.rec, Exec(w, run).value.rec, run)
    decreases |run|
  {
    hide Step, Enabled, Announce;
    if run != [] {
      StepTables(w, run[0]);
      RunTables(Step(w, run[0]), run[1..]);
    }
  }

  /** From construction on: the counter of discovered topics counts the accepted writers, exactly the topics for
      which that worked have a reader, a topic has the type it was announced with last, and a type the schema text
      it was announced with first. */
  lemma TablesAfterRun(config: Config, run: seq<Event>)
    ensures var w := Exec(Begin(config), run);
            w.Some? ==>
              var r := w.value.rec;
              && r.stats.discovered == Offers(run)
              && r.readers == ReaderTopics(run)
              && (forall t :: Look(r.types.topics, t) == LastType(t, None, run))
              && (forall n :: Look(r.types.types, n) ==
                    if FirstText(n, run).Some? then Some(CollectedType(n, "omgidl", FirstText(n, run).value)) else None)
  {
    hide Exec, Offers, ReaderTopics, LastType, FirstText;
    if Exec(Begin(config), run).Some? {
      RunTables(Begin(config), run);
    }
  }
}
