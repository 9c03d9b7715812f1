/** spdlog's rotating file sink over a small file system, with no I/O failure. */
module RotatingFileSink {
  import opened Core
  import Decimal

  type Bytes = seq<int>
  type FileSystem = map<string, Bytes>

  // ----- file names -----

  /** The last position of a character. */
  function LastIndexOf(s: string, c: char): (r: Option<nat>)
    ensures r.Some? ==> r.value < |s| && s[r.value] == c && forall i :: r.value < i < |s| ==> s[i] != c
    ensures r.None? ==> c !in s
  {
    if s == [] then None
    else if s[|s| - 1] == c then Some(|s| - 1)
    else LastIndexOf(s[..|s| - 1], c)
  }

  datatype Split = Split(basename: string, ext: string)

  function SplitByExtension(fname: string): (r: Split)
    ensures r.basename + r.ext == fname
  {
    var dot := LastIndexOf(fname, '.');
    if dot.None? || dot.value == 0 || dot.value == |fname| - 1 then Split(fname, "")
    else
      var folder := LastIndexOf(fname, '/');
      if folder.Some? && folder.value >= dot.value - 1 then Split(fname, "")
      else Split(fname[..dot.value], fname[dot.value..])
  }

  /** A dot with something behind it, in the file's own name and not at its beginning. */
  predicate IsExtension(basename: string, ext: string) {
    && |ext| >= 2 && ext[0] == '.' && '.' !in ext[1..] && '/' !in ext
    && basename != "" && basename[|basename| - 1] != '/'
  }

  lemma LastIndexUnique(s: string, c: char, n: nat)
    requires n < |s| && s[n] == c && forall k :: n < k < |s| ==> s[k] != c
    ensures LastIndexOf(s, c) == Some(n)
  {
    assert c in s;
  }

  lemma LastIndexBefore(s: string, c: char, n: nat)
    requires n <= |s| && forall k :: n <= k < |s| ==> s[k] != c
    ensures LastIndexOf(s, c).Some? ==> LastIndexOf(s, c).value < n
  {
  }

  lemma SplitSound(fname: string)
    ensures var r := SplitByExtension(fname);
            if r.ext == "" then r.basename == fname else IsExtension(r.basename, r.ext)
  {
    hide LastIndexOf;
    var dot, folder, r := LastIndexOf(fname, '.'), LastIndexOf(fname, '/'), SplitByExtension(fname);
    if r.ext != "" {
      forall k | 0 <= k < |r.ext| ensures r.ext[k] != '/' && (k > 0 ==> r.ext[k] != '.') {
        assert r.ext[k] == fname[dot.value + k];
      }
      assert r.basename[|r.basename| - 1] == fname[dot.value - 1];
    }
  }

  lemma SplitFound(basename: string, ext: string)
    requires IsExtension(basename, ext)
    ensures SplitByExtension(basename + ext) == Split(basename, ext)
  {
    hide LastIndexOf;
    var fname, n := basename + ext, |basename|;
    forall k | n < k < |fname| ensures fname[k] != '.' {
      assert fname[k] == ext[1..][k - n - 1];
    }
    LastIndexUnique(fname, '.', n);
    forall k | n - 1 <= k < |fname| ensures fname[k] != '/' {
      assert fname[k] == if k < n then basename[k] else ext[k - n];
    }
    LastIndexBefore(fname, '/', n - 1);
    assert fname[..n] == basename && fname[n..] == ext;
  }

  /** A name is split at its extension exactly if it has one, and is left whole otherwise. */
  lemma SplitExactly(fname: string, basename: string, ext: string)
    ensures ext != "" ==>
              (SplitByExtension(fname) == Split(basename, ext) <==>
                fname == basename + ext && IsExtension(basename, ext))
    ensures SplitByExtension(fname).ext == "" ==> SplitByExtension(fname).basename == fname
  {
    hide IsExtension;
    SplitSound(fname);
    if ext != "" && fname == basename + ext && IsExtension(basename, ext) {
      SplitFound(basename, ext);
    }
  }

  function CalcFilename(filename: string, index: nat): string {
    if index == 0 then filename
    else
      var parts := SplitByExtension(filename);
      parts.basename + "." + Decimal.ToString(index) + parts.ext
  }

  /** File 0 has the base name itself. The index of any other file stands, as a numeral behind a dot, in front of the
      extension, which is the extension of that file too; behind the whole name if that has no extension. */
  lemma FilenameExactly(filename: string, basename: string, ext: string, index: nat)
    ensures CalcFilename(filename, 0) == filename
    ensures index > 0 && filename == basename + ext && IsExtension(basename, ext) ==>
              exists digits :: Decimal.IsNumeral(digits, index) &&
                SplitByExtension(CalcFilename(filename, index)) == Split(basename + "." + digits, ext)
    ensures index > 0 && SplitByExtension(filename).ext == "" ==>
              exists digits :: Decimal.IsNumeral(digits, index) &&
                CalcFilename(filename, index) == filename + "." + digits
  {
    hide SplitByExtension, Decimal.ToString;
    var digits := Decimal.ToString(index);
    Decimal.ToStringIsNumeral(index);
    SplitSound(filename);
    if index > 0 && filename == basename + ext && IsExtension(basename, ext) {
      SplitFound(basename, ext);
      var stem := basename + "." + digits;
      assert stem[|stem| - 1] == digits[|digits| - 1];
      SplitFound(stem, ext);
      assert CalcFilename(filename, index) == stem + ext;
    }
    if index > 0 && SplitByExtension(filename).ext == "" {
      assert CalcFilename(filename, index) == filename + "." + digits;
    }
  }

  /** Different indices never share a file. */
  lemma CalcFilenameInjective(filename: string, i: nat, j: nat)
    ensures CalcFilename(filename, i) == CalcFilename(filename, j) ==> i == j
  {
    var parts := SplitByExtension(filename);
    var n, m := Decimal.ToString(i), Decimal.ToString(j);
    if CalcFilename(filename, i) == CalcFilename(filename, j) && i != 0 && j != 0 {
      var a, b := CalcFilename(filename, i), CalcFilename(filename, j);
      assert |n| == |m|;
      var k := |parts.basename| + 1;
      assert n == a[k..k + |n|] && m == b[k..k + |m|];
      Decimal.ToStringInjective(i, j);
    }
  }

  // ----- slots: the files of one sink -----

  function Slot(fs: FileSystem, base: string, i: nat): Option<Bytes> {
    var name := CalcFilename(base, i);
    if name in fs then Some(fs[name]) else None
  }

  function Content(fs: FileSystem, base: string, i: nat): Bytes {
    var s := Slot(fs, base, i);
    if s.Some? then s.value else []
  }

  /** Files n down to 0, oldest first. */
  function Log(fs: FileSystem, base: string, n: nat): Bytes {
    Content(fs, base, n) + (if n == 0 then [] else Log(fs, base, n - 1))
  }

  function Rename(fs: FileSystem, src: string, target: string): FileSystem
    requires src in fs
  {
    fs - {src} + map[target := fs[src]]
  }

  function RotateStep(fs: FileSystem, base: string, i: nat): FileSystem
    requires i > 0
  {
    var src := CalcFilename(base, i - 1);
    if src in fs then Rename(fs, src, CalcFilename(base, i)) else fs
  }

  function RotateFrom(fs: FileSystem, base: string, i: nat): FileSystem
    decreases i
  {
    if i == 0 then fs else RotateFrom(RotateStep(fs, base, i), base, i - 1)
  }

  function Rotated(fs: FileSystem, base: string, maxFiles: nat): FileSystem {
    RotateFrom(fs, base, maxFiles)[base := []]
  }

  // ----- what a rotation does -----

  lemma StepSlots(fs: FileSystem, base: string, i: nat, j: nat)
    requires i > 0
    ensures var s := Slot(RotateStep(fs, base, i), base, j);
            if j == i then s == (if Slot(fs, base, i - 1).Some? then Slot(fs, base, i - 1) else Slot(fs, base, i))
            else if j == i - 1 then s == None
            else s == Slot(fs, base, j)
  {
    CalcFilenameInjective(base, i, j);
    CalcFilenameInjective(base, i - 1, j);
    CalcFilenameInjective(base, i - 1, i);
  }

  /** After the loop has come down to i: the files above have moved up by one, file i itself is gone. */
  lemma {:induction false} LoopSlots(fs: FileSystem, base: string, i: nat, j: nat)
    ensures var s := Slot(RotateFrom(fs, base, i), base, j);
            if j > i then s == Slot(fs, base, j)
            else if j == 0 then s == (if i == 0 then Slot(fs, base, 0) else None)
            else s == (if Slot(fs, base, j - 1).Some? || j < i then Slot(fs, base, j - 1) else Slot(fs, base, j))
    decreases i
  {
    if i > 0 {
      var next := RotateStep(fs, base, i);
      LoopSlots(next, base, i - 1, j);
      StepSlots(fs, base, i, j);
      if j > 0 {
        StepSlots(fs, base, i, j - 1);
      }
    }
  }

  lemma RotatedSlots(fs: FileSystem, base: string, maxFiles: nat, j: nat)
    ensures var s := Slot(Rotated(fs, base, maxFiles), base, j);
            if j == 0 then s == Some([])
            else if j > maxFiles then s == Slot(fs, base, j)
            else if j < maxFiles || Slot(fs, base, j - 1).Some? then s == Slot(fs, base, j - 1)
            else s == Slot(fs, base, j)
  {
    LoopSlots(fs, base, maxFiles, j);
    CalcFilenameInjective(base, 0, j);
  }

  /** What a rotation deletes: the oldest file, unless the one before it is missing. */
  function Lost(fs: FileSystem, base: string, maxFiles: nat): Bytes {
    if maxFiles == 0 then Content(fs, base, 0)
    else if Slot(fs, base, maxFiles - 1).Some? then Content(fs, base, maxFiles)
    else []
  }

  lemma {:induction false} ShiftedLog(fs: FileSystem, base: string, maxFiles: nat, n: nat)
    requires n < maxFiles
    ensures Log(Rotated(fs, base, maxFiles), base, n) == if n == 0 then [] else Log(fs, base, n - 1)
    decreases n
  {
    hide Rotated, Slot;
    RotatedSlots(fs, base, maxFiles, n);
    if n > 0 {
      ShiftedLog(fs, base, maxFiles, n - 1);
      assert Content(Rotated(fs, base, maxFiles), base, n) == Content(fs, base, n - 1);
      if n == 1 {
        assert Content(fs, base, 0) + [] == Log(fs, base, 0);
      }
    }
  }

  /** A rotation cuts the front off the log, and nothing else. */
  lemma RotatedLog(fs: FileSystem, base: string, maxFiles: nat)
    ensures Log(fs, base, maxFiles) == Lost(fs, base, maxFiles) + Log(Rotated(fs, base, maxFiles), base, maxFiles)
  {
    hide Rotated, Slot, Log;
    var next := Rotated(fs, base, maxFiles);
    RotatedSlots(fs, base, maxFiles, maxFiles);
    LogUnfold(next, base, maxFiles);
    LogUnfold(fs, base, maxFiles);
    if maxFiles > 0 {
      ShiftedLog(fs, base, maxFiles, maxFiles - 1);
      LogUnfold(fs, base, maxFiles - 1);
    }
  }

  lemma LogUnfold(fs: FileSystem, base: string, n: nat)
    ensures Log(fs, base, n) == Content(fs, base, n) + (if n == 0 then [] else Log(fs, base, n - 1))
  {
  }

  // ----- the sink -----

  datatype Sink = Sink(base: string, maxSize: nat, maxFiles: nat, fs: FileSystem, currentSize: nat)

  /** The constructor throws on other arguments. */
  predicate Accepts(maxSize: nat, maxFiles: nat) { maxSize > 0 && maxFiles <= 200000 }

  function Open(fs: FileSystem, base: string, maxSize: nat, maxFiles: nat, rotateOnOpen: bool): Sink {
    var created := if base in fs then fs else fs[base := []];
    var size := |created[base]|;
    if rotateOnOpen && size > 0 then Sink(base, maxSize, maxFiles, Rotated(created, base, maxFiles), 0)
    else Sink(base, maxSize, maxFiles, created, size)
  }

  predicate Inv(s: Sink) {
    s.base in s.fs && s.currentSize == |s.fs[s.base]|
  }

  function Append(fs: FileSystem, base: string, msg: Bytes): FileSystem
    requires base in fs
  {
    fs[base := fs[base] + msg]
  }

  predicate Rotates(s: Sink, msg: Bytes)
    requires Inv(s)
  {
    s.currentSize + |msg| > s.maxSize && |s.fs[s.base]| > 0
  }

  function SinkIt(s: Sink, msg: Bytes): (r: Sink)
    requires Inv(s)
    ensures Inv(r) && r.base == s.base && r.maxSize == s.maxSize && r.maxFiles == s.maxFiles
  {
    if Rotates(s, msg) then
      s.(fs := Append(Rotated(s.fs, s.base, s.maxFiles), s.base, msg), currentSize := |msg|)
    else s.(fs := Append(s.fs, s.base, msg), currentSize := s.currentSize + |msg|)
  }

  function SinkAll(s: Sink, msgs: seq<Bytes>): (r: Sink)
    requires Inv(s)
    ensures Inv(r) && r.base == s.base && r.maxSize == s.maxSize && r.maxFiles == s.maxFiles
    decreases |msgs|
  {
    if msgs == [] then s else SinkAll(SinkIt(s, msgs[0]), msgs[1..])
  }

  function Flatten(msgs: seq<Bytes>): Bytes {
    if msgs == [] then [] else msgs[0] + Flatten(msgs[1..])
  }

  predicate IsSuffix(a: Bytes, b: Bytes) {
    |a| <= |b| && b[|b| - |a|..] == a
  }

  lemma SuffixOfSum(lost: Bytes, a: Bytes)
    ensures IsSuffix(a, lost + a)
  {
  }

  lemma SuffixTransitive(a: Bytes, b: Bytes, c: Bytes)
    requires IsSuffix(a, b) && IsSuffix(b, c)
    ensures IsSuffix(a, c)
  {
    assert c[|c| - |a|..] == c[|c| - |b|..][|b| - |a|..];
  }

  lemma SuffixAppend(a: Bytes, b: Bytes, x: Bytes)
    requires IsSuffix(a, b)
    ensures IsSuffix(a + x, b + x)
  {
    assert (b + x)[|b| - |a|..] == b[|b| - |a|..] + x;
  }

  lemma {:induction false} AppendLog(fs: FileSystem, base: string, msg: Bytes, n: nat)
    requires base in fs
    ensures Log(Append(fs, base, msg), base, n) == Log(fs, base, n) + msg
    decreases n
  {
    hide Content, Append;
    AppendContent(fs, base, msg, n);
    if n > 0 {
      AppendLog(fs, base, msg, n - 1);
    }
  }

  lemma AppendContent(fs: FileSystem, base: string, msg: Bytes, n: nat)
    requires base in fs
    ensures Content(Append(fs, base, msg), base, n) ==
            if n == 0 then Content(fs, base, 0) + msg else Content(fs, base, n)
  {
    hide SplitByExtension;
    CalcFilenameInjective(base, 0, n);
  }

  /** One message: the log with the message added, minus what a rotation dropped in front. */
  lemma SinkItLog(s: Sink, msg: Bytes)
    requires Inv(s)
    ensures var lost := if Rotates(s, msg) then Lost(s.fs, s.base, s.maxFiles) else [];
            Log(s.fs, s.base, s.maxFiles) + msg == lost + Log(SinkIt(s, msg).fs, s.base, s.maxFiles)
  {
    hide Log, Lost, Rotated;
    if Rotates(s, msg) {
      RotatedLog(s.fs, s.base, s.maxFiles);
      RotatedOpen(s.fs, s.base, s.maxFiles);
      AppendLog(Rotated(s.fs, s.base, s.maxFiles), s.base, msg, s.maxFiles);
    } else {
      AppendLog(s.fs, s.base, msg, s.maxFiles);
    }
  }

  lemma RotatedOpen(fs: FileSystem, base: string, maxFiles: nat)
    ensures base in Rotated(fs, base, maxFiles) && Rotated(fs, base, maxFiles)[base] == []
  {
  }

  lemma {:induction false} SinkAllLog(s: Sink, msgs: seq<Bytes>)
    requires Inv(s)
    ensures IsSuffix(Log(SinkAll(s, msgs).fs, s.base, s.maxFiles), Log(s.fs, s.base, s.maxFiles) + Flatten(msgs))
    decreases |msgs|
  {
    hide Log, Lost, SinkIt, IsSuffix;
    if msgs == [] {
      SuffixOfSum([], Log(s.fs, s.base, s.maxFiles));
      assert [] + Log(s.fs, s.base, s.maxFiles) == Log(s.fs, s.base, s.maxFiles) + [];
    } else {
      var msg, next := msgs[0], SinkIt(s, msgs[0]);
      var before, after := Log(s.fs, s.base, s.maxFiles), Log(next.fs, s.base, s.maxFiles);
      SinkAllLog(next, msgs[1..]);
      SinkItLog(s, msg);
      var lost := if Rotates(s, msg) then Lost(s.fs, s.base, s.maxFiles) else [];
      SuffixOfSum(lost, after);
      SuffixAppend(after, before + msg, Flatten(msgs[1..]));
      SuffixTransitive(Log(SinkAll(s, msgs).fs, s.base, s.maxFiles), after + Flatten(msgs[1..]),
                       before + msg + Flatten(msgs[1..]));
      assert before + msg + Flatten(msgs[1..]) == before + Flatten(msgs);
    }
  }

  /** After any run on any file system, the files max_files down to 0, oldest first, are a suffix of what
      they held before followed by everything written. */
  lemma LogIsSuffixOfEverything(fs: FileSystem, base: string, maxSize: nat, maxFiles: nat, rotateOnOpen: bool,
                                msgs: seq<Bytes>)
    ensures var s := Open(fs, base, maxSize, maxFiles, rotateOnOpen);
            Inv(s) && IsSuffix(Log(SinkAll(s, msgs).fs, base, maxFiles), Log(fs, base, maxFiles) + Flatten(msgs))
  {
    hide Log, Lost, IsSuffix, Rotated;
    var created := if base in fs then fs else fs[base := []];
    OpenLog(fs, base, maxFiles);
    RotatedLog(created, base, maxFiles);
    RotatedOpen(created, base, maxFiles);
    var s := Open(fs, base, maxSize, maxFiles, rotateOnOpen);
    SinkAllLog(s, msgs);
    var before, start := Log(fs, base, maxFiles), Log(s.fs, base, maxFiles);
    if rotateOnOpen && |created[base]| > 0 {
      SuffixOfSum(Lost(created, base, maxFiles), start);
    } else {
      SuffixOfSum([], start);
      assert [] + start == before;
    }
    SuffixAppend(start, before, Flatten(msgs));
    SuffixTransitive(Log(SinkAll(s, msgs).fs, base, maxFiles), start + Flatten(msgs), before + Flatten(msgs));
  }

  /** Opening a missing file creates it empty. */
  lemma {:induction false} OpenLog(fs: FileSystem, base: string, n: nat)
    ensures Log(if base in fs then fs else fs[base := []], base, n) == Log(fs, base, n)
    decreases n
  {
    CalcFilenameInjective(base, 0, n);
    if n > 0 {
      OpenLog(fs, base, n - 1);
    }
  }

  // ----- what each file holds -----

  /** The newest file is full for the message: it holds something, and the message would take it over the limit. */
  predicate Full(chunk: Bytes, maxSize: nat, msg: Bytes) {
    chunk != [] && |chunk| + |msg| > maxSize
  }

  /** Cutting a stream of messages greedily into chunks, the newest first: a message goes into the newest chunk
      unless that is full for it. */
  function Cut(chunks: seq<Bytes>, maxSize: nat, msgs: seq<Bytes>): (r: seq<Bytes>)
    requires chunks != []
    ensures |r| >= |chunks|
    decreases |msgs|
  {
    if msgs == [] then chunks
    else if Full(chunks[0], maxSize, msgs[0]) then Cut([msgs[0]] + chunks, maxSize, msgs[1..])
    else Cut([chunks[0] + msgs[0]] + chunks[1..], maxSize, msgs[1..])
  }

  /** All chunks, oldest first. */
  function Joined(chunks: seq<Bytes>): Bytes {
    if chunks == [] then [] else Joined(chunks[1..]) + chunks[0]
  }

  /** Cutting loses nothing and reorders nothing. */
  lemma {:induction false} CutJoins(chunks: seq<Bytes>, maxSize: nat, msgs: seq<Bytes>)
    requires chunks != []
    ensures Joined(Cut(chunks, maxSize, msgs)) == Joined(chunks) + Flatten(msgs)
    decreases |msgs|
  {
    hide Full;
    if msgs == [] {
      assert Joined(chunks) + [] == Joined(chunks);
    } else {
      var msg, rest := msgs[0], msgs[1..];
      assert chunks == [chunks[0]] + chunks[1..];
      JoinedCons(chunks[0], chunks[1..]);
      JoinedCons(msg, chunks);
      JoinedCons(chunks[0] + msg, chunks[1..]);
      var next := if Full(chunks[0], maxSize, msg) then [msg] + chunks else [chunks[0] + msg] + chunks[1..];
      assert Joined(next) == Joined(chunks) + msg;
      CutJoins(next, maxSize, rest);
      assert Joined(chunks) + msg + Flatten(rest) == Joined(chunks) + (msg + Flatten(rest));
    }
  }

  lemma JoinedCons(chunk: Bytes, older: seq<Bytes>)
    ensures Joined([chunk] + older) == Joined(older) + chunk
  {
    assert ([chunk] + older)[1..] == older;
  }

  predicate Bounded(chunk: Bytes, maxSize: nat, msgs: seq<Bytes>) {
    |chunk| <= maxSize || chunk in msgs
  }

  /** Each chunk is within the limit or is one oversized message. */
  lemma {:induction false} CutBounded(chunks: seq<Bytes>, maxSize: nat, msgs: seq<Bytes>, all: seq<Bytes>)
    requires chunks != [] && forall j :: 0 <= j < |chunks| ==> Bounded(chunks[j], maxSize, all)
    requires forall i :: 0 <= i < |msgs| ==> msgs[i] in all
    ensures forall j :: 0 <= j < |Cut(chunks, maxSize, msgs)| ==> Bounded(Cut(chunks, maxSize, msgs)[j], maxSize, all)
    decreases |msgs|
  {
    if msgs != [] {
      var grown := chunks[0] + msgs[0];
      assert msgs[0] in all;
      if Full(chunks[0], maxSize, msgs[0]) {
        CutBounded([msgs[0]] + chunks, maxSize, msgs[1..], all);
      } else {
        assert chunks[0] == [] ==> grown == msgs[0];
        CutBounded([grown] + chunks[1..], maxSize, msgs[1..], all);
      }
    }
  }

  /** The older of two chunks holds something, and both would not fit into one file. */
  predicate Crowded(newer: Bytes, older: Bytes, maxSize: nat) {
    older != [] && |older| + |newer| > maxSize
  }

  /** Of the newest n + 1 chunks no two neighbours would fit into one file. */
  ghost predicate Tight(chunks: seq<Bytes>, maxSize: nat, n: nat) {
    n < |chunks| && forall j, k :: 0 <= j < k <= n && k == j + 1 ==> Crowded(chunks[j], chunks[k], maxSize)
  }

  lemma TightMore(chunks: seq<Bytes>, maxSize: nat, n: nat, msg: Bytes)
    requires Tight(chunks, maxSize, n) && Full(chunks[0], maxSize, msg)
    ensures Tight([msg] + chunks, maxSize, n + 1)
  {
    hide Crowded;
    var r := [msg] + chunks;
    assert Crowded(msg, chunks[0], maxSize) by { FullIsCrowded(chunks[0], maxSize, msg); }
    forall j, k | 0 <= j < k <= n + 1 && k == j + 1 ensures Crowded(r[j], r[k], maxSize) {
      if j > 0 {
        assert r[j] == chunks[j - 1] && r[k] == chunks[k - 1];
      }
    }
  }

  lemma FullIsCrowded(chunk: Bytes, maxSize: nat, msg: Bytes)
    ensures Full(chunk, maxSize, msg) ==> Crowded(msg, chunk, maxSize)
  {
  }

  lemma TightGrown(chunks: seq<Bytes>, maxSize: nat, n: nat, msg: Bytes)
    requires Tight(chunks, maxSize, n)
    ensures Tight([chunks[0] + msg] + chunks[1..], maxSize, n)
  {
    var r := [chunks[0] + msg] + chunks[1..];
    forall j, k | 0 <= j < k <= n && k == j + 1 ensures Crowded(r[j], r[k], maxSize) {
      assert Crowded(chunks[j], chunks[k], maxSize);
    }
  }

  /** A file is rotated only when it has to be: the new chunks and the one they follow are tight. */
  lemma {:induction false} CutTight(chunks: seq<Bytes>, maxSize: nat, msgs: seq<Bytes>, n: nat)
    requires Tight(chunks, maxSize, n)
    ensures var r := Cut(chunks, maxSize, msgs);
            Tight(r, maxSize, n + |r| - |chunks|)
    decreases |msgs|
  {
    hide Crowded, Full;
    if msgs != [] {
      if Full(chunks[0], maxSize, msgs[0]) {
        TightMore(chunks, maxSize, n, msgs[0]);
        CutTight([msgs[0]] + chunks, maxSize, msgs[1..], n + 1);
      } else {
        TightGrown(chunks, maxSize, n, msgs[0]);
        CutTight([chunks[0] + msgs[0]] + chunks[1..], maxSize, msgs[1..], n);
      }
    }
  }

  function Nth(chunks: seq<Bytes>, j: nat): Option<Bytes> {
    if j < |chunks| then Some(chunks[j]) else None
  }

  /** The files of the sink are the newest chunks, in order. */
  ghost predicate Holds(fs: FileSystem, base: string, maxFiles: nat, chunks: seq<Bytes>) {
    forall j :: 0 <= j <= maxFiles ==> Slot(fs, base, j) == Nth(chunks, j)
  }

  lemma AppendSlot(fs: FileSystem, base: string, msg: Bytes, j: nat)
    requires base in fs
    ensures Slot(Append(fs, base, msg), base, j) == if j == 0 then Some(fs[base] + msg) else Slot(fs, base, j)
  {
    CalcFilenameInjective(base, 0, j);
  }

  lemma RotatedHolds(fs: FileSystem, base: string, maxFiles: nat, chunks: seq<Bytes>)
    requires Holds(fs, base, maxFiles, chunks)
    ensures Holds(Rotated(fs, base, maxFiles), base, maxFiles, [[]] + chunks)
  {
    hide Slot, Rotated;
    forall j | 0 <= j <= maxFiles ensures Slot(Rotated(fs, base, maxFiles), base, j) == Nth([[]] + chunks, j) {
      RotatedSlots(fs, base, maxFiles, j);
      if j > 0 {
        assert Slot(fs, base, j - 1) == Nth(chunks, j - 1);
      }
    }
  }

  lemma AppendHolds(fs: FileSystem, base: string, maxFiles: nat, chunks: seq<Bytes>, msg: Bytes)
    requires base in fs && chunks != [] && Holds(fs, base, maxFiles, chunks)
    ensures fs[base] == chunks[0] && Holds(Append(fs, base, msg), base, maxFiles, [chunks[0] + msg] + chunks[1..])
  {
    hide Slot, Append;
    AppendSlot(fs, base, [], 0);
    assert Slot(fs, base, 0) == Some(fs[base]) by { BaseSlot(fs, base); }
    forall j | 0 <= j <= maxFiles
      ensures Slot(Append(fs, base, msg), base, j) == Nth([chunks[0] + msg] + chunks[1..], j)
    {
      AppendSlot(fs, base, msg, j);
    }
  }

  lemma BaseSlot(fs: FileSystem, base: string)
    requires base in fs
    ensures Slot(fs, base, 0) == Some(fs[base])
  {
  }

  lemma SinkItHolds(s: Sink, msg: Bytes, chunks: seq<Bytes>)
    requires Inv(s) && chunks != [] && Holds(s.fs, s.base, s.maxFiles, chunks)
    ensures var next := if Full(chunks[0], s.maxSize, msg) then [msg] + chunks else [chunks[0] + msg] + chunks[1..];
            Holds(SinkIt(s, msg).fs, s.base, s.maxFiles, next)
  {
    hide Rotated, Append, Holds;
    AppendHolds(s.fs, s.base, s.maxFiles, chunks, msg);
    if Rotates(s, msg) {
      RotatedHolds(s.fs, s.base, s.maxFiles, chunks);
      RotatedOpen(s.fs, s.base, s.maxFiles);
      AppendHolds(Rotated(s.fs, s.base, s.maxFiles), s.base, s.maxFiles, [[]] + chunks, msg);
      var empty: Bytes := [];
      assert empty + msg == msg && ([empty] + chunks)[1..] == chunks;
    }
  }

  lemma {:induction false} SinkAllHolds(s: Sink, msgs: seq<Bytes>, chunks: seq<Bytes>)
    requires Inv(s) && chunks != [] && Holds(s.fs, s.base, s.maxFiles, chunks)
    ensures Holds(SinkAll(s, msgs).fs, s.base, s.maxFiles, Cut(chunks, s.maxSize, msgs))
    decreases |msgs|
  {
    hide SinkIt, Holds, Full;
    if msgs != [] {
      SinkItHolds(s, msgs[0], chunks);
      var next := if Full(chunks[0], s.maxSize, msgs[0]) then [msgs[0]] + chunks
          else [chunks[0] + msgs[0]] + chunks[1..];
      SinkAllHolds(SinkIt(s, msgs[0]), msgs[1..], next);
    }
  }

  /** The chunks right after opening. */
  function Opened(chunks: seq<Bytes>, rotateOnOpen: bool): (r: seq<Bytes>)
    ensures r != []
  {
    if chunks == [] then [[]] else if rotateOnOpen && chunks[0] != [] then [[]] + chunks else chunks
  }

  lemma OpenHolds(fs: FileSystem, base: string, maxSize: nat, maxFiles: nat, rotateOnOpen: bool, chunks: seq<Bytes>)
    requires Holds(fs, base, maxFiles, chunks)
    ensures var s := Open(fs, base, maxSize, maxFiles, rotateOnOpen);
            Inv(s) && Holds(s.fs, base, maxFiles, Opened(chunks, rotateOnOpen))
  {
    hide Rotated;
    var created := if base in fs then fs else fs[base := []];
    assert Slot(fs, base, 0) == Nth(chunks, 0);
    var found := if chunks == [] then [[]] else chunks;
    forall j | 0 <= j <= maxFiles ensures Slot(created, base, j) == Nth(found, j) {
      assert Slot(fs, base, j) == Nth(chunks, j);
      CalcFilenameInjective(base, 0, j);
    }
    RotatedHolds(created, base, maxFiles, found);
    RotatedOpen(created, base, maxFiles);
  }

  /** After any run, from any files without a gap: file j holds the j-th newest chunk of the greedy cut, and there
      is no file beyond the last chunk. */
  lemma FilesAreChunks(fs: FileSystem, base: string, maxSize: nat, maxFiles: nat, rotateOnOpen: bool,
                       msgs: seq<Bytes>, chunks: seq<Bytes>)
    requires Holds(fs, base, maxFiles, chunks)
    ensures var s := Open(fs, base, maxSize, maxFiles, rotateOnOpen);
            && Inv(s)
            && Holds(SinkAll(s, msgs).fs, base, maxFiles, Cut(Opened(chunks, rotateOnOpen), maxSize, msgs))
  {
    hide Holds, Inv, SinkAll, Cut;
    OpenHolds(fs, base, maxSize, maxFiles, rotateOnOpen, chunks);
    SinkAllHolds(Open(fs, base, maxSize, maxFiles, rotateOnOpen), msgs, Opened(chunks, rotateOnOpen));
  }

  // ----- size and number of files -----

  /** After any message the current file is within the limit, or is exactly that one oversized message. */
  lemma CurrentFileBounded(s: Sink, msg: Bytes)
    requires Inv(s)
    ensures var r := SinkIt(s, msg);
            |r.fs[r.base]| <= r.maxSize || (r.fs[r.base] == msg && |msg| > r.maxSize)
  {
    hide Rotated;
    RotatedOpen(s.fs, s.base, s.maxFiles);
  }

  function Names(base: string, n: nat): (names: set<string>)
    ensures |names| <= n + 1
    ensures forall i :: 0 <= i <= n ==> CalcFilename(base, i) in names
  {
    if n == 0 then {CalcFilename(base, 0)} else Names(base, n - 1) + {CalcFilename(base, n)}
  }

  /** Two file systems that differ at most in the files of the sink. */
  ghost predicate SameOutside(a: FileSystem, b: FileSystem, names: set<string>) {
    && (forall f :: f in b && f !in names ==> f in a && a[f] == b[f])
    && (forall f :: f in a && f !in names ==> f in b)
  }

  lemma {:induction false} RotateFromOutside(fs: FileSystem, base: string, i: nat, n: nat)
    requires i <= n
    ensures SameOutside(fs, RotateFrom(fs, base, i), Names(base, n))
    decreases i
  {
    if i > 0 {
      var next := RotateStep(fs, base, i);
      assert CalcFilename(base, i) in Names(base, n) && CalcFilename(base, i - 1) in Names(base, n);
      RotateFromOutside(next, base, i - 1, n);
    }
  }

  lemma {:induction false} SinkAllOutside(s: Sink, msgs: seq<Bytes>)
    requires Inv(s)
    ensures SameOutside(s.fs, SinkAll(s, msgs).fs, Names(s.base, s.maxFiles))
    decreases |msgs|
  {
    hide Names, RotateFrom;
    if msgs != [] {
      SinkItOutside(s, msgs[0]);
      SinkAllOutside(SinkIt(s, msgs[0]), msgs[1..]);
    }
  }

  lemma SinkItOutside(s: Sink, msg: Bytes)
    requires Inv(s)
    ensures SameOutside(s.fs, SinkIt(s, msg).fs, Names(s.base, s.maxFiles))
  {
    hide RotateFrom, Names;
    assert CalcFilename(s.base, 0) in Names(s.base, s.maxFiles);
    RotateFromOutside(s.fs, s.base, s.maxFiles, s.maxFiles);
  }

  /** No other file is touched; from an empty file system at most max_files + 1 files ever exist. */
  lemma FilesBounded(fs: FileSystem, base: string, maxSize: nat, maxFiles: nat, rotateOnOpen: bool, msgs: seq<Bytes>)
    ensures var s := Open(fs, base, maxSize, maxFiles, rotateOnOpen);
            && Inv(s)
            && SameOutside(fs, SinkAll(s, msgs).fs, Names(base, maxFiles))
            && (fs == map[] ==> |SinkAll(s, msgs).fs| <= maxFiles + 1)
  {
    hide RotateFrom, Names;
    var created := if base in fs then fs else fs[base := []];
    assert CalcFilename(base, 0) in Names(base, maxFiles);
    RotateFromOutside(created, base, maxFiles, maxFiles);
    var s := Open(fs, base, maxSize, maxFiles, rotateOnOpen);
    SinkAllOutside(s, msgs);
    if fs == map[] {
      var final := SinkAll(s, msgs).fs;
      SubsetSize(final.Keys, Names(base, maxFiles));
    }
  }

  lemma SubsetSize(a: set<string>, b: set<string>)
    requires a <= b
    ensures |a| <= |b|
  {
    assert b == a + (b - a);
  }

  // ----- the code -----

  class RotatingSink {
    const baseFilename: string
    const maxSize: nat
    const maxFiles: nat
    var currentSize: nat
    /** The file system, and the open handle of the file helper. */
    var fs: FileSystem
    var isOpen: bool

    ghost predicate Valid()
      reads this
    {
      isOpen && Inv(State())
    }

    ghost function State(): Sink
      reads this
    {
      Sink(baseFilename, maxSize, maxFiles, fs, currentSize)
    }

    constructor (files: FileSystem, baseFilename: string, maxSize: nat, maxFiles: nat, rotateOnOpen: bool)
      requires Accepts(maxSize, maxFiles)
      ensures Valid() && State() == Open(files, baseFilename, maxSize, maxFiles, rotateOnOpen)
    {
      this.baseFilename, this.maxSize, this.maxFiles := baseFilename, maxSize, maxFiles;
      fs, isOpen, currentSize := files, false, 0;
      new;
      OpenFile(CalcFilename(baseFilename, 0), false);
      currentSize := |fs[baseFilename]|;
      if rotateOnOpen && currentSize > 0 {
        RotateFiles();
        currentSize := 0;
      }
    }

    /** file_helper::open: creates a missing file, empties it if asked to. */
    method OpenFile(fname: string, truncate: bool)
      modifies this`fs, this`isOpen
      ensures isOpen && fs == if truncate || fname !in old(fs) then old(fs)[fname := []] else old(fs)
    {
      isOpen := false;
      if truncate {
        fs := fs[fname := []];
      }
      if fname !in fs {
        fs := fs[fname := []];
      }
      isOpen := true;
    }

    /** Deletes the target if it exists, then renames the source. */
    method RenameFile(src: string, target: string)
      requires src in fs && !isOpen && src != target
      modifies this`fs
      ensures fs == Rename(old(fs), src, target)
    {
      fs := fs - {target};
      fs := (fs - {src})[target := fs[src]];
    }

    method RotateFiles()
      modifies this`fs, this`isOpen
      ensures isOpen && fs == Rotated(old(fs), baseFilename, maxFiles)
    {
      hide RotateStep, CalcFilename, Rename;
      isOpen := false;
      var i := maxFiles;
      while i > 0
        invariant !isOpen && RotateFrom(fs, baseFilename, i) == RotateFrom(old(fs), baseFilename, maxFiles)
      {
        ghost var before := fs;
        var src := CalcFilename(baseFilename, i - 1);
        if src in fs {
          var target := CalcFilename(baseFilename, i);
          CalcFilenameInjective(baseFilename, i - 1, i);
          RenameFile(src, target);
        }
        StepUnfold(before, baseFilename, i);
        i := i - 1;
      }
      OpenFile(baseFilename, true);
    }

    lemma StepUnfold(fs: FileSystem, base: string, i: nat)
      requires i > 0
      ensures var src := CalcFilename(base, i - 1);
              RotateStep(fs, base, i) == if src in fs then Rename(fs, src, CalcFilename(base, i)) else fs
    {
    }

    method Log(formatted: Bytes)
      requires Valid()
      modifies this
      ensures Valid() && State() == SinkIt(old(State()), formatted)
    {
      hide RotateFrom;
      var newSize := currentSize + |formatted|;
      if newSize > maxSize {
        if |fs[baseFilename]| > 0 {
          RotateFiles();
          newSize := |formatted|;
        }
      }
      fs := Append(fs, baseFilename, formatted);
      currentSize := newSize;
    }
  }
}
