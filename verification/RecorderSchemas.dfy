/** Which type each channel of each file was given, and which schema text describes it. */
module RecorderSchemas {
  import opened Core
  import opened McapWriter
  import opened TypesCollection
  import opened Recorder
  import opened RecorderRuns
  import opened RecorderContents
  import opened RecorderIntegrity

  // ----- new channels -----

  /** A channel that is not among the old ones has the type that its topic has now. */
  ghost predicate NewAreCurrent(channels: seq<Channel>, channels': seq<Channel>, types: Types) {
    forall c :: c in channels' ==> c in channels || TypeForTopic(types, c.topic) == c.typeName
  }

  lemma AnnounceNew(w: Writer, types: Types, topic: string, typeName: string)
    requires typeName in types.types && TypeForTopic(types, topic) == typeName
    ensures NewAreCurrent(w.file.channels, Announce(w, types, topic, typeName).file.channels, types)
  {
    hide TypeForTopic;
  }

  lemma {:induction false} ReRegisterNew(w: Writer, types: Types, order: seq<string>)
    ensures NewAreCurrent(w.file.channels, ReRegister(w, types, order).file.channels, types)
    decreases |order|
  {
    hide Announce, TypeForTopic;
    if order != [] {
      var topic := order[0];
      var typeName := TypeForTopic(types, topic);
      var next := if typeName != "" && typeName in types.types then Announce(w, types, topic, typeName) else w;
      if typeName != "" && typeName in types.types {
        AnnounceNew(w, types, topic, typeName);
      }
      ReRegisterNew(next, types, order[1..]);
    }
  }

  /** A channel gets the type that its topic has when it is registered: at its discovery, or at a split. */
  lemma NewChannelsAreCurrent(w: World, e: Event)
    requires Enabled(e, w)
    ensures var r, r' := w.rec, Step(w, e).rec;
            r'.writer.isOpen ==>
              NewAreCurrent(if r.writer.isOpen then r.writer.file.channels else [], r'.writer.file.channels, r'.types)
  {
    hide Announce, ReRegister, PathOf, RecordSample, Trim, Trimmed, IsWalk, TypeForTopic;
    match e
    case ESample(topic, s) => RecordSampleFrame(w.rec, topic, s);
    case ELimits(l) =>
      var path := PathOf(w.rec.config, l.stamp, ToInt32((w.rec.splitCount + 1) % TWO32));
      ReRegisterNew(Reopen(w.rec.writer, path, l.created), w.rec.types, l.order);
    case EDiscover(ep) =>
      if ep.isWriter && ep.accepted {
        var types := RegisterTopic(AddType(w.rec.types, ep.typeName, ep.schemaData), ep.topic, ep.typeName);
        RegisteredType(AddType(w.rec.types, ep.typeName, ep.schemaData), ep.topic, ep.typeName);
        AnnounceNew(w.rec.writer, types, ep.topic, ep.typeName);
        AnnounceEffect(w.rec.writer, types, ep.topic, ep.typeName);
      }
    case _ =>
  }

  lemma RegisteredType(types: Types, topic: string, typeName: string)
    ensures TypeForTopic(RegisterTopic(types, topic, typeName), topic) == typeName
  {
  }

  // ----- every file -----

  function SchemaFor(types: Types, typeName: string): Schema
    requires typeName in types.types
  {
    Schema(typeName, types.types[typeName].schemaEncoding, types.types[typeName].schemaData)
  }

  /** The schemas are the collected ones, and the channels are announced pairs. */
  ghost predicate Matches(file: File, types: Types, pairs: set<(string, string)>) {
    && (forall i :: 0 <= i < |file.schemas| ==>
         file.schemas[i].name in types.types && file.schemas[i] == SchemaFor(types, file.schemas[i].name))
    && (forall i :: 0 <= i < |file.channels| ==> (file.channels[i].topic, file.channels[i].typeName) in pairs)
  }

  ghost predicate Extends(types: Types, types': Types) {
    forall n :: n in types.types ==> n in types'.types && types'.types[n] == types.types[n]
  }

  ghost predicate Typed(r: Rec, pairs: set<(string, string)>) {
    && (!r.started ==> Fresh(r))
    && (forall i :: 0 <= i < |r.log.archive| ==> Matches(r.log.archive[i].file, r.types, pairs))
    && (r.writer.isOpen ==> Matches(r.writer.file, r.types, pairs))
    && (forall t :: t in r.types.topics ==> (t, r.types.topics[t]) in pairs)
  }

  lemma MatchesMore(file: File, types: Types, types': Types, pairs: set<(string, string)>,
                    pairs': set<(string, string)>)
    requires Matches(file, types, pairs) && Extends(types, types') && pairs <= pairs'
    ensures Matches(file, types', pairs')
  {
  }

  lemma AnnounceMatches(w: Writer, types: Types, topic: string, typeName: string, pairs: set<(string, string)>)
    requires typeName in types.types && (topic, typeName) in pairs
    requires w.isOpen ==> Matches(w.file, types, pairs)
    ensures w.isOpen ==> Matches(Announce(w, types, topic, typeName).file, types, pairs)
  {
  }

  lemma {:induction false} ReRegisterMatches(w: Writer, types: Types, order: seq<string>, pairs: set<(string, string)>)
    requires w.isOpen && Matches(w.file, types, pairs)
    requires forall t :: t in types.topics ==> (t, types.topics[t]) in pairs
    ensures Matches(ReRegister(w, types, order).file, types, pairs)
    decreases |order|
  {
    hide Announce, Matches;
    if order != [] {
      var topic := order[0];
      var typeName := TypeForTopic(types, topic);
      var next := if typeName != "" && typeName in types.types then Announce(w, types, topic, typeName) else w;
      if typeName != "" && typeName in types.types {
        AnnounceMatches(w, types, topic, typeName, pairs);
        AnnounceEffect(w, types, topic, typeName);
      }
      ReRegisterMatches(next, types, order[1..], pairs);
    }
  }

  /** Nothing but discovery and splits changes schemas and channels. */
  ghost predicate SameTypes(r: Rec, r': Rec) {
    && r'.types == r.types && (!r'.started ==> Fresh(r'))
    && (forall i :: 0 <= i < |r'.log.archive| ==>
         r'.log.archive[i] in r.log.archive || (r.writer.isOpen && r'.log.archive[i].file == r.writer.file))
    && (r'.writer.isOpen ==>
         (r'.writer.file.schemas == [] && r'.writer.file.channels == []) ||
         (r.writer.isOpen && SameEntries(r.writer.file, r'.writer.file)))
  }

  ghost predicate SameEntries(file: File, file': File) {
    file'.schemas == file.schemas && file'.channels == file.channels
  }

  lemma SameTyped(r: Rec, r': Rec, pairs: set<(string, string)>)
    requires Typed(r, pairs) && SameTypes(r, r')
    ensures Typed(r', pairs)
  {
    hide Fresh;
  }

  lemma SplitTyped(r: Rec, l: Limits, pairs: set<(string, string)>)
    requires Typed(r, pairs) && r.started
    ensures Typed(DoSplit(r, l), pairs)
  {
    hide PathOf, ReRegister, Trim, Trimmed, Fresh, Matches;
    var path := PathOf(r.config, l.stamp, ToInt32((r.splitCount + 1) % TWO32));
    var w := Reopen(r.writer, path, l.created);
    NothingMatches(path, r.types, pairs);
    if l.created {
      ReRegisterMatches(w, r.types, l.order, pairs);
    }
  }

  lemma NothingMatches(path: string, types: Types, pairs: set<(string, string)>)
    ensures Matches(File(path, [], [], []), types, pairs)
  {
  }

  lemma DiscoverTyped(r: Rec, ep: Endpoint, pairs: set<(string, string)>)
    requires Typed(r, pairs) && r.started
    ensures Typed(Discover(r, ep), if ep.isWriter && ep.accepted then pairs + {(ep.topic, ep.typeName)} else pairs)
  {
    hide Announce, Matches, Fresh;
    if ep.isWriter && ep.accepted {
      var types := RegisterTopic(AddType(r.types, ep.typeName, ep.schemaData), ep.topic, ep.typeName);
      var more := pairs + {(ep.topic, ep.typeName)};
      assert Extends(r.types, types);
      forall i | 0 <= i < |r.log.archive| ensures Matches(r.log.archive[i].file, types, more) {
        MatchesMore(r.log.archive[i].file, r.types, types, pairs, more);
      }
      if r.writer.isOpen {
        MatchesMore(r.writer.file, r.types, types, pairs, more);
      }
      AnnounceMatches(r.writer, types, ep.topic, ep.typeName, more);
      AnnounceEffect(r.writer, types, ep.topic, ep.typeName);
    }
  }

  lemma SampleSameTypes(r: Rec, topic: string, s: Sample)
    requires r.started
    ensures SameTypes(r, RecordSample(r, topic, s))
  {
    hide RecordSample;
    RecordSampleFrame(r, topic, s);
  }

  lemma StopSameTypes(r: Rec)
    requires !r.started ==> Fresh(r)
    ensures SameTypes(r, Stop(r)) && (r.started ==> SameTypes(r, Shut(r)))
  {
  }

  lemma StartSameTypes(r: Rec, stamp: string, created: bool)
    requires Fresh(r)
    ensures SameTypes(r, Start(r, stamp, created))
  {
    hide PathOf;
  }

  function PairsOf(e: Event): set<(string, string)> { if IsOffer(e) then {(e.ep.topic, e.ep.typeName)} else {} }

  lemma StepTyped(w: World, e: Event, pairs: set<(string, string)>)
    requires Typed(w.rec, pairs) && Placed(w) && Enabled(e, w)
    ensures Typed(Step(w, e).rec, pairs + PairsOf(e))
  {
    hide RecordSample, Matches, Discover, DoSplit, Start, Stop, Shut, IsWalk, SameTypes;
    assert !IsOffer(e) ==> pairs + PairsOf(e) == pairs;
    var r := w.rec;
    match e
    case ESample(topic, s) =>
      SampleSameTypes(r, topic, s);
      SameTyped(r, RecordSample(r, topic, s), pairs);
    case ELimits(l) => LimitsTyped(r, l, pairs);
    case EDiscover(ep) => DiscoverTyped(r, ep, pairs);
    case EStart(stamp, created) =>
      StartSameTypes(r, stamp, created);
      SameTyped(r, Start(r, stamp, created), pairs);
    case EStop =>
      StopSameTypes(r);
      SameTyped(r, Stop(r), pairs);
    case EFinish =>
      StopSameTypes(r);
      SameTyped(r, Shut(r), pairs);
    case _ =>
  }

  lemma LimitsTyped(r: Rec, l: Limits, pairs: set<(string, string)>)
    requires Typed(r, pairs) && r.started
    ensures Typed(CheckLimits(r, l), pairs)
  {
    hide DoSplit, Matches;
    SplitTyped(r, l, pairs);
  }

  lemma {:induction false} RunTyped(w: World, run: seq<Event>, pairs: set<(string, string)>)
    requires Typed(w.rec, pairs) && Placed(w) && Exec(w, run).Some?
    ensures Typed(Exec(w, run).value.rec, pairs + Pairs(run))
    decreases |run|
  {
    hide Step, Enabled, Typed, Placed;
    if run == [] {
      assert pairs + Pairs(run) == pairs;
    } else {
      StepTyped(w, run[0], pairs);
      TypedFresh(w.rec, pairs);
      StepPlaced(w, run[0]);
      RunTyped(Step(w, run[0]), run[1..], pairs + PairsOf(run[0]));
      assert pairs + PairsOf(run[0]) + Pairs(run[1..]) == pairs + Pairs(run);
    }
  }

  lemma TypedFresh(r: Rec, pairs: set<(string, string)>)
    ensures Typed(r, pairs) && !r.started ==> Fresh(r)
  {
  }

  /** Each schema of the file has the text with which its type was announced first, and each channel's topic was
      announced with the channel's type. */
  ghost predicate Announced(file: File, run: seq<Event>) {
    && (forall i :: 0 <= i < |file.schemas| ==>
         FirstText(file.schemas[i].name, run) == Some(file.schemas[i].data) && file.schemas[i].encoding == "omgidl")
    && (forall i :: 0 <= i < |file.channels| ==> (file.channels[i].topic, file.channels[i].typeName) in Pairs(run))
  }

  lemma MatchesAnnounced(config: Config, run: seq<Event>, file: File)
    requires Exec(Begin(config), run).Some?
    requires Matches(file, Exec(Begin(config), run).value.rec.types, Pairs(run))
    ensures Announced(file, run)
  {
    hide Exec, FirstText, Pairs;
    TablesAfterRun(config, run);
    var types := Exec(Begin(config), run).value.rec.types;
    forall i | 0 <= i < |file.schemas|
      ensures FirstText(file.schemas[i].name, run) == Some(file.schemas[i].data) && file.schemas[i].encoding == "omgidl"
    {
      var name := file.schemas[i].name;
      assert Look(types.types, name) == Some(types.types[name]);
    }
  }

  /** From construction on, in every file. Together with what its ids mean, this says that a channel whose schema is
      among the first 65535 of the file leads to the schema text of the type that its topic had. */
  lemma EveryFileAnnounced(config: Config, run: seq<Event>)
    ensures var w := Exec(Begin(config), run);
            w.Some? ==>
              var r := w.value.rec;
              && (forall i :: 0 <= i < |r.log.archive| ==> Announced(r.log.archive[i].file, run))
              && (r.writer.isOpen ==> Announced(r.writer.file, run))
  {
    hide Exec, Matches, Announced, Pairs;
    if Exec(Begin(config), run).Some? {
      var r := Exec(Begin(config), run).value.rec;
      RunTyped(Begin(config), run, {});
      assert {} + Pairs(run) == Pairs(run);
      forall i | 0 <= i < |r.log.archive| ensures Announced(r.log.archive[i].file, run) {
        MatchesAnnounced(config, run, r.log.archive[i].file);
      }
      if r.writer.isOpen {
        MatchesAnnounced(config, run, r.writer.file);
      }
    }
  }
}
