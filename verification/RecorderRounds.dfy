/** The loop body of the polling thread as a run of the state machine. */
module RecorderRounds {
  import opened Core
  import opened McapWriter
  import opened TypesCollection
  import opened Recorder

  /** One batch from each reader. */
  predicate IsRound(batches: seq<Batch>, readers: set<string>) {
    && |batches| == |readers|
    && (forall i :: 0 <= i < |batches| ==> batches[i].topic in readers && |batches[i].samples| <= MAX_SAMPLES)
  }

  function SampleEvents(topic: string, samples: seq<Sample>): seq<Event> {
    seq(|samples|, i requires 0 <= i < |samples| => ESample(topic, samples[i]))
  }

  function RoundEvents(batches: seq<Batch>): seq<Event> {
    if batches == [] then [] else SampleEvents(batches[0].topic, batches[0].samples) + RoundEvents(batches[1..])
  }

  lemma {:induction false} ExecConcat(w: World, a: seq<Event>, b: seq<Event>)
    ensures Exec(w, a + b) == if Exec(w, a).Some? then Exec(Exec(w, a).value, b) else None
    decreases |a|
  {
    hide Step, Enabled;
    if a == [] {
      assert a + b == b;
    } else {
      assert (a + b)[1..] == a[1..] + b;
      if Enabled(a[0], w) {
        ExecConcat(Step(w, a[0]), a[1..], b);
      }
    }
  }

  lemma OneStep(w: World, e: Event)
    ensures Exec(w, [e]) == if Enabled(e, w) then Some(Step(w, e)) else None
  {
    hide Step, Enabled;
    assert [e][1..] == [];
  }

  lemma {:induction false} SamplesRun(r: Rec, topic: string, samples: seq<Sample>, readers: set<string>, left: nat)
    requires topic in readers && |samples| <= left
    ensures Exec(World(r, InRound(readers, left)), SampleEvents(topic, samples)) ==
            Some(World(RecordAll(r, topic, samples), InRound(readers, left - |samples|)))
    decreases |samples|
  {
    hide RecordSample;
    if samples != [] {
      assert SampleEvents(topic, samples)[1..] == SampleEvents(topic, samples[1..]);
      SamplesRun(RecordSample(r, topic, samples[0]), topic, samples[1..], readers, left - 1);
    }
  }

  function Count(batches: seq<Batch>): nat {
    if batches == [] then 0 else |batches[0].samples| + Count(batches[1..])
  }

  lemma {:induction false} RoundRuns(r: Rec, batches: seq<Batch>, readers: set<string>, left: nat)
    requires Count(batches) <= left && forall i :: 0 <= i < |batches| ==> batches[i].topic in readers
    ensures Exec(World(r, InRound(readers, left)), RoundEvents(batches)) ==
            Some(World(RecordBatches(r, batches), InRound(readers, left - Count(batches))))
    decreases |batches|
  {
    hide RecordAll, SampleEvents, Step, Enabled;
    if batches != [] {
      var topic, samples := batches[0].topic, batches[0].samples;
      SamplesRun(r, topic, samples, readers, left);
      RoundRuns(RecordAll(r, topic, samples), batches[1..], readers, left - |samples|);
      ExecConcat(World(r, InRound(readers, left)), SampleEvents(topic, samples), RoundEvents(batches[1..]));
    }
  }

  lemma {:induction false} CountBound(batches: seq<Batch>)
    requires forall i :: 0 <= i < |batches| ==> |batches[i].samples| <= MAX_SAMPLES
    ensures Count(batches) <= MAX_SAMPLES * |batches|
  {
    if batches != [] {
      CountBound(batches[1..]);
    }
  }

  lemma SampleKeepsReaders(r: Rec, topic: string, s: Sample)
    ensures RecordSample(r, topic, s).readers == r.readers
  {
    hide WriteMessage, Writes, IdOf;
  }

  lemma {:induction false} AllKeepReaders(r: Rec, topic: string, samples: seq<Sample>)
    ensures RecordAll(r, topic, samples).readers == r.readers
    decreases |samples|
  {
    hide RecordSample;
    if samples != [] {
      SampleKeepsReaders(r, topic, samples[0]);
      AllKeepReaders(RecordSample(r, topic, samples[0]), topic, samples[1..]);
    }
  }

  lemma {:induction false} RoundKeepsReaders(r: Rec, batches: seq<Batch>)
    ensures RecordBatches(r, batches).readers == r.readers
    decreases |batches|
  {
    hide RecordAll;
    if batches != [] {
      AllKeepReaders(r, batches[0].topic, batches[0].samples);
      RoundKeepsReaders(RecordAll(r, batches[0].topic, batches[0].samples), batches[1..]);
    }
  }

  /** The loop body, when nothing happens in between, is a run: what holds of all runs holds of it. */
  lemma RoundIsRun(r: Rec, batches: seq<Batch>, l: Limits)
    requires Enabled(EBegin, World(r, NoRound)) && IsRound(batches, r.readers) && IsWalk(l.order, r.readers)
    ensures Exec(World(r, NoRound), [EBegin] + RoundEvents(batches) + [ELimits(l)]) ==
            Some(World(PollRound(r, batches, l), NoRound))
  {
    hide RecordBatches, CheckLimits, Exec, IsWalk, RoundEvents, Count;
    var readers, left, w := r.readers, MAX_SAMPLES * |r.readers|, World(r, NoRound);
    var r0 := Polled(r, |readers|);
    OneStep(w, EBegin);
    CountBound(batches);
    RoundRuns(r0, batches, readers, left);
    RoundKeepsReaders(r0, batches);
    OneStep(World(RecordBatches(r0, batches), InRound(readers, left - Count(batches))), ELimits(l));
    ExecConcat(w, [EBegin], RoundEvents(batches));
    ExecConcat(w, [EBegin] + RoundEvents(batches), [ELimits(l)]);
  }
}
