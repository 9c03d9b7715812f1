/** Ids never cross files: what each file of every run refers to is in that file. Ids are 16 bits wide; whose they
    are, in a file with more entries than ids, is said exactly. */
module RecorderIntegrity {
  import opened Core
  import opened McapWriter
  import opened TypesCollection
  import opened Recorder
  import opened RecorderRuns

  // ----- a table of ids over a list of names -----

  function Topics(channels: seq<Channel>): (s: seq<string>)
    ensures |s| == |channels| && forall i :: 0 <= i < |s| ==> s[i] == channels[i].topic
  {
    seq(|channels|, i requires 0 <= i < |channels| => channels[i].topic)
  }

  function Names(schemas: seq<Schema>): (s: seq<string>)
    ensures |s| == |schemas| && forall i :: 0 <= i < |s| ==> s[i] == schemas[i].name
  {
    seq(|schemas|, i requires 0 <= i < |schemas| => schemas[i].name)
  }

  ghost predicate Distinct(names: seq<string>) {
    forall i, j :: 0 <= i < j < |names| ==> names[i] != names[j]
  }

  /** The id is that of the i-th name. */
  ghost predicate IsIdOf(id: nat, names: seq<string>, name: string) {
    exists i :: 0 <= i < |names| && names[i] == name && id == NextId(i)
  }

  /** Exactly the listed names have an id, each its own. */
  ghost predicate Indexed(ids: map<string, nat>, names: seq<string>) {
    && Distinct(names)
    && (forall n :: n in ids ==> IsIdOf(ids[n], names, n))
    && (forall i :: 0 <= i < |names| ==> names[i] in ids)
  }

  lemma IsIdOfMore(id: nat, names: seq<string>, name: string, more: string)
    requires IsIdOf(id, names, name)
    ensures IsIdOf(id, names + [more], name)
  {
    var i :| 0 <= i < |names| && names[i] == name && id == NextId(i);
    assert (names + [more])[i] == name;
  }

  lemma IndexedMore(ids: map<string, nat>, names: seq<string>, name: string)
    requires Indexed(ids, names) && name !in ids
    ensures Indexed(ids[name := NextId(|names|)], names + [name])
  {
    hide NextId;
    var ids', names' := ids[name := NextId(|names|)], names + [name];
    assert names'[|names|] == name;
    forall n | n in ids' ensures IsIdOf(ids'[n], names', n) {
      if n != name {
        IsIdOfMore(ids[n], names, n, name);
      }
    }
  }

  // ----- files -----

  /** The channel with the message's id is that of its topic. */
  predicate Carries(file: File, m: Message) {
    1 <= m.channelId <= |file.channels| && file.channels[m.channelId - 1].topic == m.topic
  }

  /** Its id is that of its topic, as far as 16 bits tell, and is registered. */
  ghost predicate Written(channels: seq<Channel>, m: Message) {
    1 <= m.channelId <= |channels| && IsIdOf(m.channelId, Topics(channels), m.topic)
  }

  /** The schema with the channel's schema id is that of its type. */
  predicate Describes(file: File, c: Channel) {
    1 <= c.schemaId <= |file.schemas| && file.schemas[c.schemaId - 1].name == c.typeName
  }

  /** Its schema id is that of its type, as far as 16 bits tell. */
  ghost predicate HasSchema(schemas: seq<Schema>, c: Channel) {
    IsIdOf(c.schemaId, Names(schemas), c.typeName)
  }

  ghost predicate Sound(file: File) {
    && Distinct(Topics(file.channels))
    && Distinct(Names(file.schemas))
    && (forall i :: 0 <= i < |file.channels| ==> HasSchema(file.schemas, file.channels[i]))
    && (forall k :: 0 <= k < |file.messages| ==> Written(file.channels, file.messages[k]))
  }

  /** What that means for a reader of the file:
      - every message's id is that of a channel of the file, and every schema id that of a schema or zero;
      - no schema id is zero in a file of fewer than 2^16 schemas;
      - the topic of a message has a channel, and the message carries that channel exactly if it is one of the
        first 65535;
      - the type of a channel has a schema, and the channel's schema id names it exactly if it is one of the first
        65535. */
  ghost predicate SelfContained(file: File) {
    && (forall k :: 0 <= k < |file.messages| ==> 1 <= file.messages[k].channelId <= |file.channels|)
    && (forall i :: 0 <= i < |file.channels| ==> file.channels[i].schemaId <= |file.schemas|)
    && (|file.schemas| < ID_SPACE ==> forall i :: 0 <= i < |file.channels| ==> file.channels[i].schemaId >= 1)
    && (forall k :: 0 <= k < |file.messages| ==> file.messages[k].topic in Topics(file.channels))
    && (forall k, i :: 0 <= k < |file.messages| && 0 <= i < |file.channels| &&
                       file.channels[i].topic == file.messages[k].topic ==>
         (Carries(file, file.messages[k]) <==> i < ID_SPACE - 1))
    && (forall k :: 0 <= k < |file.channels| ==> file.channels[k].typeName in Names(file.schemas))
    && (forall k, i :: 0 <= k < |file.channels| && 0 <= i < |file.schemas| &&
                       file.schemas[i].name == file.channels[k].typeName ==>
         (Describes(file, file.channels[k]) <==> i < ID_SPACE - 1))
  }

  /** An id, read as a position in the list, leads to the name exactly if that is among the first 65535. */
  lemma IdLeadsTo(id: nat, names: seq<string>, name: string, i: nat)
    requires Distinct(names) && IsIdOf(id, names, name) && i < |names| && names[i] == name
    ensures id == NextId(i)
    ensures 1 <= id <= |names| && names[id - 1] == name <==> i < ID_SPACE - 1
  {
    var j :| 0 <= j < |names| && names[j] == name && id == NextId(j);
    assert i == j;
    if i < ID_SPACE - 1 {
      assert NextId(i) == i + 1;
    } else if 1 <= id <= |names| {
      assert id - 1 < i;
    }
  }

  lemma DescribesExactly(file: File, c: Channel, i: nat)
    requires Distinct(Names(file.schemas)) && HasSchema(file.schemas, c)
    requires i < |file.schemas| && file.schemas[i].name == c.typeName
    ensures Describes(file, c) <==> i < ID_SPACE - 1
  {
    IdLeadsTo(c.schemaId, Names(file.schemas), c.typeName, i);
  }

  lemma CarriesExactly(file: File, m: Message, i: nat)
    requires Distinct(Topics(file.channels)) && Written(file.channels, m)
    requires i < |file.channels| && file.channels[i].topic == m.topic
    ensures m.channelId == NextId(i)
    ensures Carries(file, m) <==> i < ID_SPACE - 1
  {
    IdLeadsTo(m.channelId, Topics(file.channels), m.topic, i);
  }

  lemma SoundIsSelfContained(file: File)
    requires Sound(file)
    ensures SelfContained(file)
  {
    hide Carries, Describes;
    var topics := Topics(file.channels);
    forall i | 0 <= i < |file.channels|
      ensures file.channels[i].schemaId <= |file.schemas|
      ensures |file.schemas| < ID_SPACE ==> file.channels[i].schemaId >= 1
    {
      assert HasSchema(file.schemas, file.channels[i]);
    }
    forall k | 0 <= k < |file.channels| ensures file.channels[k].typeName in Names(file.schemas) {
      assert HasSchema(file.schemas, file.channels[k]);
    }
    forall k, i | 0 <= k < |file.channels| && 0 <= i < |file.schemas|
                  && file.schemas[i].name == file.channels[k].typeName
      ensures Describes(file, file.channels[k]) <==> i < ID_SPACE - 1
    {
      DescribesExactly(file, file.channels[k], i);
    }
    forall k | 0 <= k < |file.messages|
      ensures 1 <= file.messages[k].channelId <= |file.channels| && file.messages[k].topic in topics
    {
      assert Written(file.channels, file.messages[k]);
    }
    forall k, i | 0 <= k < |file.messages| && 0 <= i < |file.channels|
                  && file.channels[i].topic == file.messages[k].topic
      ensures Carries(file, file.messages[k]) <==> i < ID_SPACE - 1
    {
      CarriesExactly(file, file.messages[k], i);
    }
  }

  // ----- the writer -----

  ghost predicate WriterSound(w: Writer) {
    w.isOpen ==>
      && Sound(w.file)
      && Indexed(w.channelIds, Topics(w.file.channels))
      && Indexed(w.schemaIds, Names(w.file.schemas))
  }

  lemma EmptySound(path: string)
    ensures WriterSound(Writer(true, path, File(path, [], [], []), map[], map[], Counters(0, 0, 0)))
  {
  }

  lemma SchemaSound(w: Writer, schema: Schema)
    requires WriterSound(w)
    ensures WriterSound(RegisterSchema(w, schema))
    ensures w.isOpen ==> schema.name in RegisterSchema(w, schema).schemaIds
  {
    hide Indexed, NextId, Written, Distinct, IsIdOf;
    if w.isOpen && schema.name !in w.schemaIds {
      var schemas := w.file.schemas + [schema];
      assert Names(schemas) == Names(w.file.schemas) + [schema.name];
      IndexedMore(w.schemaIds, Names(w.file.schemas), schema.name);
      IndexedDistinct(w.schemaIds[schema.name := NextId(|w.file.schemas|)], Names(schemas));
      forall i | 0 <= i < |w.file.channels| ensures HasSchema(schemas, w.file.channels[i]) {
        var c := w.file.channels[i];
        assert HasSchema(w.file.schemas, c);
        IsIdOfMore(c.schemaId, Names(w.file.schemas), c.typeName, schema.name);
      }
    }
  }

  lemma ChannelSound(w: Writer, topic: string, typeName: string, schemaId: nat)
    requires WriterSound(w)
    requires w.isOpen ==> HasSchema(w.file.schemas, Channel(topic, typeName, schemaId))
    ensures WriterSound(RegisterChannel(w, topic, typeName, schemaId))
  {
    hide Indexed, NextId, Distinct, IsIdOf, HasSchema;
    if w.isOpen && topic !in w.channelIds {
      var channels := w.file.channels + [Channel(topic, typeName, schemaId)];
      assert Topics(channels) == Topics(w.file.channels) + [topic];
      IndexedMore(w.channelIds, Topics(w.file.channels), topic);
      IndexedDistinct(w.channelIds[topic := NextId(|w.file.channels|)], Topics(channels));
      forall k | 0 <= k < |w.file.messages| ensures Written(channels, w.file.messages[k]) {
        var m := w.file.messages[k];
        assert Written(w.file.channels, m);
        IsIdOfMore(m.channelId, Topics(w.file.channels), m.topic, topic);
      }
    }
  }

  lemma IndexedDistinct(ids: map<string, nat>, names: seq<string>)
    requires Indexed(ids, names)
    ensures Distinct(names)
  {
  }

  lemma SchemaOf(w: Writer, typeName: string, topic: string)
    requires WriterSound(w) && w.isOpen && typeName in w.schemaIds
    ensures HasSchema(w.file.schemas, Channel(topic, typeName, IdOf(w.schemaIds, typeName)))
  {
    hide Sound;
    assert IsIdOf(w.schemaIds[typeName], Names(w.file.schemas), typeName);
  }

  lemma AnnounceSound(w: Writer, types: Types, topic: string, typeName: string)
    requires WriterSound(w) && typeName in types.types
    ensures WriterSound(Announce(w, types, topic, typeName))
  {
    hide WriterSound, RegisterChannel, HasSchema;
    var t := types.types[typeName];
    var schema := Schema(typeName, t.schemaEncoding, t.schemaData);
    SchemaSound(w, schema);
    var w1 := RegisterSchema(w, schema);
    if w1.isOpen {
      SchemaOf(w1, typeName, topic);
    }
    ChannelSound(w1, topic, typeName, IdOf(w1.schemaIds, typeName));
  }

  lemma {:induction false} ReRegisterSound(w: Writer, types: Types, order: seq<string>)
    requires WriterSound(w)
    ensures WriterSound(ReRegister(w, types, order))
    decreases |order|
  {
    hide WriterSound, Announce, TypeForTopic;
    if order != [] {
      var topic := order[0];
      var typeName := TypeForTopic(types, topic);
      var next := if typeName != "" && typeName in types.types then Announce(w, types, topic, typeName) else w;
      if typeName != "" && typeName in types.types {
        AnnounceSound(w, types, topic, typeName);
      }
      ReRegisterSound(next, types, order[1..]);
    }
  }

  lemma WriteSound(w: Writer, topic: string, s: Sample)
    requires WriterSound(w)
    ensures WriterSound(WriteMessage(w, Message(topic, IdOf(w.channelIds, topic), s.logTime, s.data), s.outputOk))
  {
    hide Distinct, IsIdOf, HasSchema, NextId;
    var m := Message(topic, IdOf(w.channelIds, topic), s.logTime, s.data);
    if Writes(w, m.channelId, s.outputOk) {
      assert topic in w.channelIds && IsIdOf(m.channelId, Topics(w.file.channels), topic);
    }
  }

  // ----- the recorder -----

  /** Each reader's topic is known, and unless its type has no name it has a channel in the open file. */
  ghost predicate Covered(r: Rec) {
    && Closed(r.types)
    && (forall t :: t in r.readers ==> t in r.types.topics)
    && (r.writer.isOpen ==> forall t :: t in r.readers && r.types.topics[t] != "" ==> t in r.writer.channelIds)
  }

  ghost predicate Integrity(r: Rec) {
    && (!r.started ==> Fresh(r))
    && (forall i :: 0 <= i < |r.log.archive| ==> Sound(r.log.archive[i].file))
    && WriterSound(r.writer)
    && Covered(r)
  }

  lemma SampleIntegrity(r: Rec, topic: string, s: Sample)
    requires Integrity(r) && r.started
    ensures Integrity(RecordSample(r, topic, s)) && RecordSample(r, topic, s).started
  {
    hide WriterSound, Sound, RecordSample;
    RecordSampleSound(r, topic, s);
    RecordSampleFrame(r, topic, s);
  }

  lemma RecordSampleSound(r: Rec, topic: string, s: Sample)
    requires WriterSound(r.writer)
    ensures WriterSound(RecordSample(r, topic, s).writer)
  {
    hide WriterSound, WriteMessage, Writes, IdOf;
    WriteSound(r.writer, topic, s);
  }

  lemma CloseIntegrity(r: Rec)
    requires Integrity(r) && r.started
    ensures Integrity(CloseFile(r)) && CloseFile(r).started
  {
    hide Sound, Indexed;
  }

  lemma ContinueIntegrity(r: Rec, path: string, order: seq<string>)
    requires r.started && IsWalk(order, r.readers) && WriterSound(r.writer)
    requires forall i :: 0 <= i < |r.log.archive| ==> Sound(r.log.archive[i].file)
    requires Closed(r.types) && forall t :: t in r.readers ==> t in r.types.topics
    ensures Integrity(Continue(r, path, order)) && Continue(r, path, order).started
  {
    hide ReRegister, Trim, Trimmed, Sound, WriterSound;
    ReRegisterSound(r.writer, r.types, order);
    ReRegisterEffect(r.writer, r.types, order);
  }

  lemma SplitIntegrity(r: Rec, l: Limits)
    requires Integrity(r) && r.started && IsWalk(l.order, r.readers)
    ensures Integrity(DoSplit(r, l)) && DoSplit(r, l).started
  {
    hide PathOf, Continue, Sound, Indexed, IsWalk;
    var count := (r.splitCount + 1) % TWO32;
    var path := PathOf(r.config, l.stamp, ToInt32(count));
    EmptySound(path);
    if l.created {
      var w := Reopen(r.writer, path, true);
      ContinueIntegrity(CloseFile(r).(splitCount := count, writer := w), path, l.order);
    }
  }

  /** Right after a split exactly the readers whose type has a name have a channel. */
  lemma SplitCoverage(r: Rec, l: Limits)
    requires Integrity(r) && IsWalk(l.order, r.readers) && l.created
    ensures var r' := DoSplit(r, l);
            && r'.writer.isOpen
            && forall t :: t in r'.writer.channelIds <==> t in r.readers && TypeForTopic(r.types, t) != ""
  {
    hide PathOf, ReRegister, Trim, Trimmed, Sound, WriterSound;
    var path := PathOf(r.config, l.stamp, ToInt32((r.splitCount + 1) % TWO32));
    ReRegisterEffect(Reopen(r.writer, path, l.created), r.types, l.order);
  }

  lemma LimitsIntegrity(r: Rec, l: Limits)
    requires Integrity(r) && r.started && IsWalk(l.order, r.readers)
    ensures Integrity(CheckLimits(r, l))
  {
    hide DoSplit, Sound, WriterSound, IsWalk;
    if LimitReached(r, l) && r.config.split {
      SplitIntegrity(r, l);
    }
  }

  lemma StartIntegrity(r: Rec, stamp: string, created: bool)
    requires Integrity(r) && !r.started
    ensures Integrity(Start(r, stamp, created))
  {
    hide PathOf;
  }

  lemma DiscoverIntegrity(r: Rec, ep: Endpoint)
    requires Integrity(r) && r.started
    ensures Integrity(Discover(r, ep))
  {
    hide Announce, WriterSound, Sound;
    if ep.isWriter && ep.accepted {
      var types := RegisterTopic(AddType(r.types, ep.typeName, ep.schemaData), ep.topic, ep.typeName);
      AnnounceEffect(r.writer, types, ep.topic, ep.typeName);
      AnnounceSound(r.writer, types, ep.topic, ep.typeName);
    }
  }

  lemma StopIntegrity(r: Rec)
    requires Integrity(r)
    ensures Integrity(Stop(r)) && (r.started ==> Integrity(Shut(r)))
  {
    hide CloseFile, WriterSound, Sound, Covered;
    CloseCovers(r);
    CloseCovers(r.(pollingActive := false));
    if r.started {
      CloseIntegrity(r);
      CloseIntegrity(r.(pollingActive := false));
    }
  }

  lemma CloseCovers(r: Rec)
    requires Covered(r)
    ensures Covered(CloseFile(r)) && Covered(Shut(r)) && Covered(r.(pollingActive := false))
  {
  }

  ghost predicate IntegrityWorld(w: World) { Integrity(w.rec) && Placed(w) }

  lemma StepIntegrity(w: World, e: Event)
    requires IntegrityWorld(w) && Enabled(e, w)
    ensures IntegrityWorld(Step(w, e))
  {
    hide CheckLimits, Discover, Start, Stop, Shut, WriterSound, Sound, IsWalk, RecordSample;
    StepPlaced(w, e);
    match e
    case ESample(topic, s) => SampleIntegrity(w.rec, topic, s);
    case ELimits(l) => LimitsIntegrity(w.rec, l);
    case EStart(stamp, created) => StartIntegrity(w.rec, stamp, created);
    case EFinish => StopIntegrity(w.rec);
    case EStop => StopIntegrity(w.rec);
    case EDiscover(ep) => DiscoverIntegrity(w.rec, ep);
    case _ =>
  }

  /** In every reachable state every file, closed or open, is sound, and while a file is open every reader's topic
      whose type has a name has a channel in it. */
  lemma {:induction false} RunIntegrity(w: World, run: seq<Event>)
    requires IntegrityWorld(w)
    ensures Exec(w, run).Some? ==> IntegrityWorld(Exec(w, run).value)
    decreases |run|
  {
    hide IntegrityWorld, Step, Enabled;
    if run != [] && Enabled(run[0], w) {
      StepIntegrity(w, run[0]);
      RunIntegrity(Step(w, run[0]), run[1..]);
    }
  }

  lemma InitIntegrity(config: Config)
    ensures IntegrityWorld(Begin(config))
  {
  }
}
