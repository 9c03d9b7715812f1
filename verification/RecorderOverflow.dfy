/** A run that uses up the 16-bit channel ids of a file. */
module RecorderOverflow {
  import opened Core
  import opened McapWriter
  import opened TypesCollection
  import opened Recorder
  import RecorderIntegrity
  import RecorderRounds
  import Decimal

  function Topic(k: nat): string { Decimal.ToString(k) }

  /** All topics have one type; only the last gets a reader. */
  function Found(k: nat): Endpoint { Endpoint(true, true, Topic(k), "T", "", k == ID_SPACE) }

  function Discoveries(n: nat): seq<Event> {
    if n == 0 then [] else Discoveries(n - 1) + [EDiscover(Found(n - 1))]
  }

  ghost predicate Ready(w: World, n: nat) {
    var r := w.rec;
    && w.round.NoRound? && r.started && r.state.Running? && r.pollingActive && r.discovering && r.writingEnabled
    && (n <= ID_SPACE ==> r.readers == {})
    && (n == ID_SPACE + 1 ==> r.readers == {Topic(ID_SPACE)})
    && FileHas(r.writer, n)
    && (forall name :: name in r.types.types ==> name == "T")
  }

  ghost predicate FileHas(w: Writer, n: nat) {
    && w.isOpen && w.file.messages == [] && |w.file.channels| == n
    && |w.file.schemas| == (if n == 0 then 0 else 1)
    && w.schemaIds == (if n == 0 then map[] else map["T" := 1])
    && (n > 0 ==> w.file.channels[0] == Channel(Topic(0), "T", 1))
    && (forall t :: t in w.channelIds ==> exists k: nat :: k < n && t == Topic(k))
    && (n == ID_SPACE + 1 ==> Topic(ID_SPACE) in w.channelIds && w.channelIds[Topic(ID_SPACE)] == 1)
  }

  lemma StartReady(config: Config)
    ensures var r := Exec(Begin(config), [EStart("", true)]);
            r.Some? && Ready(r.value, 0)
  {
    hide PathOf;
    RecorderRounds.OneStep(Begin(config), EStart("", true));
  }

  lemma AnnounceHas(w: Writer, types: Types, n: nat)
    requires FileHas(w, n) && n <= ID_SPACE && "T" in types.types
    ensures FileHas(Announce(w, types, Topic(n), "T"), n + 1)
  {
    hide Topic;
    if Topic(n) in w.channelIds {
      var k: nat :| k < n && Topic(n) == Topic(k);
      TopicsDiffer(n, k);
    }
    assert IdOf(RegisterSchema(w, Schema("T", types.types["T"].schemaEncoding, types.types["T"].schemaData)).schemaIds,
                "T") == 1;
  }

  lemma TopicsDiffer(m: nat, n: nat)
    ensures Topic(m) == Topic(n) ==> m == n
  {
    Decimal.ToStringInjective(m, n);
  }

  lemma DiscoverReady(w: World, n: nat)
    requires Ready(w, n) && n <= ID_SPACE
    ensures Ready(Step(w, EDiscover(Found(n))), n + 1)
  {
    hide Announce, FileHas, Topic;
    var types := RegisterTopic(AddType(w.rec.types, "T", ""), Topic(n), "T");
    AnnounceHas(w.rec.writer, types, n);
  }

  lemma {:induction false} AllReady(w: World, n: nat)
    requires Ready(w, 0) && n <= ID_SPACE + 1
    ensures var r := Exec(w, Discoveries(n));
            r.Some? && Ready(r.value, n)
    decreases n
  {
    hide Ready, Step, Found;
    if n > 0 {
      AllReady(w, n - 1);
      var next := Exec(w, Discoveries(n - 1)).value;
      assert Enabled(EDiscover(Found(n - 1)), next) by { ReadyDiscovers(next, n - 1); }
      DiscoverReady(next, n - 1);
      RecorderRounds.OneStep(next, EDiscover(Found(n - 1)));
      RecorderRounds.ExecConcat(w, Discoveries(n - 1), [EDiscover(Found(n - 1))]);
    }
  }

  lemma ReadyDiscovers(w: World, n: nat)
    requires Ready(w, n)
    ensures Enabled(EDiscover(Found(n)), w)
  {
  }

  const SAMPLE: Sample := Sample(0, [], None, true)

  /** The 65537th topic is announced, and its sample written: under the id of the first. */
  lemma SampleUnderWrongChannel(w: World)
    requires Ready(w, ID_SPACE + 1)
    ensures var r := Exec(w, [EBegin, ESample(Topic(ID_SPACE), SAMPLE)]);
            && r.Some?
            && r.value.rec.writer.isOpen
            && r.value.rec.writer.file.channels == w.rec.writer.file.channels
            && r.value.rec.writer.file.messages == [Message(Topic(ID_SPACE), 1, 0, [])]
  {
    hide Topic;
    var w1 := World(Polled(w.rec, 1), InRound({Topic(ID_SPACE)}, MAX_SAMPLES));
    assert Step(w, EBegin) == w1;
    RecorderRounds.OneStep(w, EBegin);
    RecorderRounds.OneStep(w1, ESample(Topic(ID_SPACE), SAMPLE));
    RecorderRounds.ExecConcat(w, [EBegin], [ESample(Topic(ID_SPACE), SAMPLE)]);
  }

  /** Whatever the configuration, there is a run after which a message carries the channel of another topic. */
  lemma WrongChannel(config: Config)
    ensures exists run :: Exec(Begin(config), run).Some? &&
              var file := Exec(Begin(config), run).value.rec.writer.file;
              |file.messages| == 1 && !RecorderIntegrity.Carries(file, file.messages[0])
  {
    hide Exec, Discoveries;
    StartReady(config);
    var w := Exec(Begin(config), [EStart("", true)]).value;
    AllReady(w, ID_SPACE + 1);
    var w1 := Exec(w, Discoveries(ID_SPACE + 1)).value;
    SampleUnderWrongChannel(w1);
    TopicsDiffer(0, ID_SPACE);
    var last := [EBegin, ESample(Topic(ID_SPACE), SAMPLE)];
    RecorderRounds.ExecConcat(Begin(config), [EStart("", true)], Discoveries(ID_SPACE + 1));
    RecorderRounds.ExecConcat(Begin(config), [EStart("", true)] + Discoveries(ID_SPACE + 1), last);
    var run := [EStart("", true)] + Discoveries(ID_SPACE + 1) + last;
    assert Exec(Begin(config), run).Some?;
  }
}
