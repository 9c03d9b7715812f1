/** Which files a run keeps, and how large they grow. */
module RecorderRetention {
  import opened Core
  import opened McapWriter
  import Decimal
  import opened TypesCollection
  import opened Recorder
  import opened RecorderRuns

  // ----- retention -----

  ghost predicate IsPath(config: Config, path: string, index: nat) {
    exists stamp :: path == PathOf(config, stamp, index)
  }

  /** Paths of different splits differ, whatever their time stamps. */
  lemma PathsDiffer(config: Config, p: string, q: string, i: nat, j: nat)
    requires IsPath(config, p, i) && IsPath(config, q, j) && i != j
    ensures p != q
  {
    var s :| p == PathOf(config, s, i);
    var t :| q == PathOf(config, t, j);
    GenerateFilenameInjective(config.prefix, if config.appendDate then Some(s) else None,
      if config.appendDate then Some(t) else None, i, j);
  }

  /** From 2^31 splits on the index is negative and left out of the name: two splits of the same time stamp share
      a path exactly if they are the same, or both that late. */
  lemma NamesRepeatExactly(config: Config, stamp: string, i: nat, j: nat)
    requires i < 0x1_0000_0000 && j < 0x1_0000_0000
    ensures PathOf(config, stamp, ToInt32(i)) == PathOf(config, stamp, ToInt32(j)) <==>
            i == j || (i >= 0x8000_0000 && j >= 0x8000_0000)
  {
    var s := if config.appendDate then Some(stamp) else None;
    if i < TWO31 && j < TWO31 {
      GenerateFilenameInjective(config.prefix, s, s, i, j);
    }
  }

  function Kept(r: Rec): seq<string> {
    if r.config.maxSplits == 0 then r.log.paths else Trim(r.log.paths, r.config.maxSplits)
  }

  /** With splitting on: the kept files are the newest max_splits of all opened ones, the others have been
      removed in order, and the open file is the newest. */
  ghost predicate Retains(r: Rec) {
    && (!r.started ==> Fresh(r))
    && (r.config.split ==> FilesKept(r) && PathsNamed(r))
    && (!r.config.split ==> OneFile(r))
  }

  /** With splitting off there is one file, which has no index, and no list of files. */
  ghost predicate OneFile(r: Rec) {
    && r.splitFiles == [] && r.log.deleted == []
    && (r.started ==> |r.log.paths| == 1 && exists stamp :: r.log.paths[0] == PathOf(r.config, stamp, -1))
  }

  predicate FilesKept(r: Rec) {
    r.splitFiles == Kept(r) && r.log.deleted + r.splitFiles == r.log.paths
  }

  /** Fewer than 2^31 splits: each path carries its own index, and the open file has the last one. */
  ghost predicate PathsNamed(r: Rec) {
    |r.log.paths| <= TWO31 ==>
      && (forall i :: 0 <= i < |r.log.paths| ==> IsPath(r.config, r.log.paths[i], i))
      && (r.writer.isOpen ==>
           && r.splitCount + 1 == |r.log.paths|
           && r.writer.currentPath == r.writer.file.path == r.log.paths[|r.log.paths| - 1])
  }

  lemma TrimTrimmed(files: seq<string>, n: nat)
    ensures Trimmed(files, n) + Trim(files, n) == files
  {
  }

  lemma TrimSnoc(paths: seq<string>, path: string, n: nat)
    requires n > 0
    ensures Trim(Trim(paths, n) + [path], n) == Trim(paths + [path], n)
    ensures Trimmed(paths, n) + Trimmed(Trim(paths, n) + [path], n) == Trimmed(paths + [path], n)
  {
    if |paths| > n {
      assert (paths[|paths| - n..] + [path])[1..] == (paths + [path])[|paths| + 1 - n..];
    }
  }

  /** What a split does to the list of files. */
  lemma SplitFiles(r: Rec, path: string)
    requires FilesKept(r)
    ensures var files := r.splitFiles + [path];
            var n := r.config.maxSplits;
            var paths := r.log.paths + [path];
            && (if n == 0 then files else Trim(files, n)) == (if n == 0 then paths else Trim(paths, n))
            && (r.log.deleted + (if n == 0 then [] else Trimmed(files, n)))
               + (if n == 0 then files else Trim(files, n)) == paths
  {
    hide Trim, Trimmed;
    var n := r.config.maxSplits;
    var files := r.splitFiles + [path];
    Associate(r.log.deleted, r.splitFiles, [path]);
    if n > 0 {
      TrimSnoc(r.log.paths, path, n);
      TrimTrimmed(files, n);
      Associate(r.log.deleted, Trimmed(files, n), Trim(files, n));
    } else {
      Associate(r.log.deleted, [], files);
    }
  }

  lemma Associate(a: seq<string>, b: seq<string>, c: seq<string>)
    ensures a + b + c == a + (b + c)
    ensures a + [] == a && [] + c == c
  {
  }

  lemma PathsExtend(config: Config, paths: seq<string>, stamp: string)
    requires forall i :: 0 <= i < |paths| ==> IsPath(config, paths[i], i)
    ensures var longer := paths + [PathOf(config, stamp, |paths|)];
            forall i :: 0 <= i < |longer| ==> IsPath(config, longer[i], i)
  {
    hide PathOf;
    var path := PathOf(config, stamp, |paths|);
    assert IsPath(config, path, |paths|);
    forall i | 0 <= i < |paths| + 1 ensures IsPath(config, (paths + [path])[i], i) {
      if i < |paths| {
        assert IsPath(config, paths[i], i);
      }
    }
  }

  lemma SplitKeeps(r: Rec, l: Limits)
    requires FilesKept(r)
    ensures FilesKept(DoSplit(r, l))
  {
    hide PathOf, ReRegister, Reopen, Trim, Trimmed;
    SplitFiles(r, PathOf(r.config, l.stamp, ToInt32((r.splitCount + 1) % TWO32)));
  }

  lemma SplitNames(r: Rec, l: Limits)
    requires PathsNamed(r) && r.writer.isOpen
    ensures PathsNamed(DoSplit(r, l))
  {
    hide PathOf, ReRegister, Trim, Trimmed, IsPath;
    var count := (r.splitCount + 1) % TWO32;
    var path := PathOf(r.config, l.stamp, ToInt32(count));
    if l.created && |r.log.paths| + 1 <= TWO31 {
      ReRegisterEffect(Reopen(r.writer, path, l.created), r.types, l.order);
      assert ToInt32(count) == |r.log.paths|;
      PathsExtend(r.config, r.log.paths, l.stamp);
    }
  }

  lemma SplitRetains(r: Rec, l: Limits)
    requires Retains(r) && r.started && r.config.split && r.writer.isOpen
    ensures Retains(DoSplit(r, l))
  {
    hide FilesKept, PathsNamed, OneFile, ReRegister;
    SplitKeeps(r, l);
    SplitNames(r, l);
  }

  /** Nothing but splits and starts touches the files. */
  ghost predicate SameFiles(r: Rec, r': Rec) {
    && r'.config == r.config && r'.started == r.started
    && r'.splitFiles == r.splitFiles && r'.splitCount == r.splitCount
    && r'.log.paths == r.log.paths && r'.log.deleted == r.log.deleted
    && (r'.writer.isOpen ==>
         && r.writer.isOpen && r'.writer.currentPath == r.writer.currentPath
         && r'.writer.file.path == r.writer.file.path)
  }

  lemma SameFilesRetains(r: Rec, r': Rec)
    requires Retains(r) && SameFiles(r, r') && r.started
    ensures Retains(r')
  {
    hide IsPath, Trim;
  }

  /** A file is open while the polling thread is at work. */
  ghost predicate PollingOpen(r: Rec) {
    r.pollingActive ==> r.writer.isOpen
  }

  lemma LimitsRetain(r: Rec, l: Limits)
    requires Retains(r) && r.started && r.writer.isOpen
    ensures Retains(CheckLimits(r, l)) && PollingOpen(CheckLimits(r, l))
  {
    hide DoSplit, Retains;
    if LimitReached(r, l) {
      if r.config.split {
        SplitRetains(r, l);
        SplitOpen(r, l);
      } else {
        SameFilesRetains(r, r.(pollingActive := false));
      }
    }
  }

  lemma SplitOpen(r: Rec, l: Limits)
    ensures PollingOpen(DoSplit(r, l))
  {
    hide ReRegister;
    var path := PathOf(r.config, l.stamp, ToInt32((r.splitCount + 1) % TWO32));
    ReRegisterEffect(Reopen(r.writer, path, l.created), r.types, l.order);
  }

  lemma StartRetains(r: Rec, stamp: string, created: bool)
    requires Retains(r) && !r.started
    ensures Retains(Start(r, stamp, created)) && PollingOpen(Start(r, stamp, created))
  {
    var path := PathOf(r.config, stamp, if r.config.split then 0 else -1);
    if r.config.split {
      assert IsPath(r.config, path, 0);
    }
  }

  lemma DiscoverRetains(r: Rec, ep: Endpoint)
    requires Retains(r) && r.started && PollingOpen(r)
    ensures Retains(Discover(r, ep)) && PollingOpen(Discover(r, ep))
  {
    hide Announce, Retains;
    if ep.isWriter && ep.accepted {
      AnnounceEffect(r.writer, RegisterTopic(AddType(r.types, ep.typeName, ep.schemaData), ep.topic, ep.typeName),
                     ep.topic, ep.typeName);
    }
    SameFilesRetains(r, Discover(r, ep));
  }

  ghost predicate RetainInv(w: World) {
    && Retains(w.rec) && PollingOpen(w.rec)
    && (w.round.InRound? ==> w.rec.started && w.rec.writer.isOpen)
  }

  lemma SampleRetains(w: World, topic: string, s: Sample)
    requires RetainInv(w) && Enabled(ESample(topic, s), w)
    ensures RetainInv(Step(w, ESample(topic, s)))
  {
    hide RecordSample, Retains;
    RecordSampleFrame(w.rec, topic, s);
    SameFilesRetains(w.rec, RecordSample(w.rec, topic, s));
  }

  lemma StepRetains(w: World, e: Event)
    requires RetainInv(w) && Enabled(e, w)
    ensures RetainInv(Step(w, e))
  {
    hide CheckLimits, Discover, Start, IsWalk, RecordSample, Retains;
    match e
    case ESample(topic, s) => SampleRetains(w, topic, s);
    case ELimits(l) => LimitsRetain(w.rec, l);
    case EStart(stamp, created) =>
      StartedNot(w.rec);
      StartRetains(w.rec, stamp, created);
    case EDiscover(ep) =>
      FreshIsQuiet(w.rec);
      DiscoverRetains(w.rec, ep);
      DiscoverKeepsOpen(w.rec, ep);
    case _ =>
      FreshIsQuiet(w.rec);
      if w.rec.started {
        SameFilesRetains(w.rec, Step(w, e).rec);
      } else {
        NotStarted(w, e);
      }
  }

  lemma StartedNot(r: Rec)
    requires Retains(r)
    ensures !r.started ==> Fresh(r)
  {
  }

  lemma FreshIsQuiet(r: Rec)
    requires Retains(r)
    ensures !r.started ==> !r.discovering && !r.pollingActive && r.state.Stopped? && !r.writer.isOpen
  {
  }

  lemma DiscoverKeepsOpen(r: Rec, ep: Endpoint)
    ensures Discover(r, ep).writer.isOpen == r.writer.isOpen && Discover(r, ep).started == r.started
  {
    hide Announce;
    if ep.isWriter && ep.accepted {
      AnnounceEffect(r.writer, RegisterTopic(AddType(r.types, ep.typeName, ep.schemaData), ep.topic, ep.typeName),
                     ep.topic, ep.typeName);
    }
  }

  lemma NotStarted(w: World, e: Event)
    requires Retains(w.rec) && !w.rec.started && w.round.NoRound? && Enabled(e, w)
    requires e.EPause? || e.EResume? || e.ERequestStop? || e.EStop? || e.EBegin? || e.EFinish?
    ensures Step(w, e) == w
  {
  }

  lemma {:induction false} RunRetains(w: World, run: seq<Event>)
    requires RetainInv(w)
    ensures Exec(w, run).Some? ==> RetainInv(Exec(w, run).value)
    decreases |run|
  {
    hide RetainInv, Step, Enabled;
    if run != [] && Enabled(run[0], w) {
      StepRetains(w, run[0]);
      RunRetains(Step(w, run[0]), run[1..]);
    }
  }

  /** How many of so many files are kept; zero stands for no limit. */
  function KeptCount(files: nat, maxSplits: nat): nat {
    if maxSplits == 0 || files <= maxSplits then files else maxSplits
  }

  /** The whole of it: max_splits files are kept, the newest in order; the open file is the last of them; and no
      removed path is the path of the open file. */
  lemma Retention(r: Rec)
    requires Retains(r) && r.config.split
    ensures r.log.deleted + r.splitFiles == r.log.paths
    ensures |r.splitFiles| == KeptCount(|r.log.paths|, r.config.maxSplits)
    ensures |r.log.paths| <= TWO31 && r.writer.isOpen ==>
              && r.splitFiles != [] && r.splitFiles[|r.splitFiles| - 1] == r.writer.file.path
              && r.writer.file.path !in r.log.deleted
  {
    hide IsPath;
    if |r.log.paths| <= TWO31 && r.writer.isOpen {
      NewestNotDeleted(r.config, r.log.paths, r.log.deleted, r.splitFiles);
    }
  }

  lemma NewestNotDeleted(config: Config, paths: seq<string>, deleted: seq<string>, kept: seq<string>)
    requires deleted + kept == paths && kept != []
    requires forall i :: 0 <= i < |paths| ==> IsPath(config, paths[i], i)
    ensures kept[|kept| - 1] == paths[|paths| - 1] && paths[|paths| - 1] !in deleted
  {
    hide IsPath;
    var n := |paths|;
    forall i | 0 <= i < |deleted| ensures deleted[i] != paths[n - 1] {
      assert deleted[i] == paths[i];
      PathsDiffer(config, paths[i], paths[n - 1], i, n - 1);
    }
  }

  /** The prefix, the time stamp if it is asked for, the index if there is one, and the extension. */
  ghost predicate IsNamed(config: Config, path: string, stamp: string, index: int) {
    var stem := if config.appendDate then config.prefix + "_" + stamp else config.prefix;
    if index < 0 then path == stem + ".mcap"
    else exists digits :: Decimal.IsNumeral(digits, index) && path == stem + "_" + digits + ".mcap"
  }

  ghost predicate HasIndex(config: Config, path: string, index: int) {
    exists stamp :: IsNamed(config, path, stamp, index)
  }

  lemma PathIsNamed(config: Config, stamp: string, index: int)
    ensures IsNamed(config, PathOf(config, stamp, index), stamp, index)
  {
    hide Decimal.IsNumeral, GenerateFilename;
    FilenameExactly(config.prefix, if config.appendDate then Some(stamp) else None, index);
  }

  /** With splitting, the i-th opened file has the index i in its name, up to 2^31 files; without, there is at most
      one, and that has no index. */
  lemma PathsNumbered(r: Rec)
    requires Retains(r)
    ensures r.config.split && |r.log.paths| <= TWO31 ==>
              forall i :: 0 <= i < |r.log.paths| ==> HasIndex(r.config, r.log.paths[i], i)
    ensures !r.config.split ==>
              |r.log.paths| <= 1 &&
              forall i :: 0 <= i < |r.log.paths| ==> HasIndex(r.config, r.log.paths[i], -1)
  {
    hide PathOf, IsNamed;
    if r.config.split && |r.log.paths| <= TWO31 {
      forall i | 0 <= i < |r.log.paths| ensures HasIndex(r.config, r.log.paths[i], i) {
        assert IsPath(r.config, r.log.paths[i], i);
        var stamp :| r.log.paths[i] == PathOf(r.config, stamp, i);
        PathIsNamed(r.config, stamp, i);
      }
    }
    if !r.config.split && r.started {
      var stamp :| r.log.paths[0] == PathOf(r.config, stamp, -1);
      PathIsNamed(r.config, stamp, -1);
    }
  }

  lemma InitRetains(config: Config)
    ensures RetainInv(Begin(config))
  {
  }
}
