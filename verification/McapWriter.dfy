/** The recorder's MCAP writer: one file at a time, with its own tables of schema and channel ids. */
module McapWriter {
  import opened Core
  import Decimal

  // ----- the MCAP library's side -----

  datatype Schema = Schema(name: string, encoding: string, data: string)

  /** `typeName` is the type that the topic had when it got the channel; the file itself only has the schema id. */
  datatype Channel = Channel(topic: string, typeName: string, schemaId: nat)

  /** `topic` is the topic whose sample was written; the file itself only has the channel id. */
  datatype Message = Message(topic: string, channelId: nat, logTime: nat, data: seq<int>)

  datatype File = File(path: string, schemas: seq<Schema>, channels: seq<Channel>, messages: seq<Message>)

  /** Ids are 16 bits wide: entry n (from 0) of a list gets this one. */
  const ID_SPACE: nat := 0x1_0000

  function NextId(n: nat): nat { (n + 1) % ID_SPACE }

  /** mcap::McapWriter::write succeeds on a known channel with a known schema, if the output does. */
  predicate WriteSucceeds(file: File, channelId: nat, outputOk: bool) {
    && outputOk
    && 1 <= channelId <= |file.channels|
    && file.channels[channelId - 1].schemaId <= |file.schemas|
  }

  // ----- file names -----

  function Stem(prefix: string, stamp: Option<string>): string {
    prefix + (if stamp.Some? then "_" + stamp.value else "")
  }

  function GenerateFilename(prefix: string, stamp: Option<string>, splitIndex: int): string {
    Stem(prefix, stamp)
    + (if splitIndex >= 0 then "_" + Decimal.ToString(splitIndex) else "")
    + ".mcap"
  }

  /** The prefix, the time stamp behind an underscore if there is one, the index as a numeral behind an underscore
      if it is not negative, and the extension. */
  lemma FilenameExactly(prefix: string, stamp: Option<string>, splitIndex: int)
    ensures var stem := if stamp.Some? then prefix + "_" + stamp.value else prefix;
            var name := GenerateFilename(prefix, stamp, splitIndex);
            if splitIndex < 0 then name == stem + ".mcap"
            else exists digits :: Decimal.IsNumeral(digits, splitIndex) && name == stem + "_" + digits + ".mcap"
  {
    hide Decimal.ToString, Decimal.IsNumeral;
    if splitIndex >= 0 {
      Decimal.ToStringIsNumeral(splitIndex);
      var stem := if stamp.Some? then prefix + "_" + stamp.value else prefix;
      var digits := Decimal.ToString(splitIndex);
      assert Stem(prefix, stamp) == stem;
      assert GenerateFilename(prefix, stamp, splitIndex) == stem + "_" + digits + ".mcap";
    }
  }

  /** Whatever the time stamps, different split indices name different files. */
  lemma GenerateFilenameInjective(prefix: string, a: Option<string>, b: Option<string>, i: nat, j: nat)
    ensures GenerateFilename(prefix, a, i) == GenerateFilename(prefix, b, j) ==> i == j
  {
    hide Decimal.ToString, Stem;
    var x, y := Stem(prefix, a), Stem(prefix, b);
    var n, m := Decimal.ToString(i), Decimal.ToString(j);
    if GenerateFilename(prefix, a, i) == GenerateFilename(prefix, b, j) {
      assert x + "_" + n + ".mcap" == GenerateFilename(prefix, a, i);
      assert y + "_" + m + ".mcap" == GenerateFilename(prefix, b, j);
      EqualTails(x, n, y, m);
      Decimal.ToStringInjective(i, j);
    }
  }

  /** The numeral is what stands behind the last underscore. */
  lemma EqualTails(x: string, n: string, y: string, m: string)
    requires x + "_" + n + ".mcap" == y + "_" + m + ".mcap"
    requires forall k :: 0 <= k < |n| ==> Decimal.IsDigit(n[k])
    requires forall k :: 0 <= k < |m| ==> Decimal.IsDigit(m[k])
    ensures n == m
  {
    AtLeastAsLong(x, n, y, m);
    AtLeastAsLong(y, m, x, n);
    var f, g := x + "_" + n + ".mcap", y + "_" + m + ".mcap";
    assert n == f[|x| + 1..|x| + 1 + |n|] && m == g[|y| + 1..|y| + 1 + |m|];
  }

  lemma AtLeastAsLong(x: string, n: string, y: string, m: string)
    requires x + "_" + n + ".mcap" == y + "_" + m + ".mcap"
    requires forall k :: 0 <= k < |m| ==> Decimal.IsDigit(m[k])
    ensures |n| >= |m|
  {
    var f, g := x + "_" + n + ".mcap", y + "_" + m + ".mcap";
    assert |f| == |x| + |n| + 6 && |g| == |y| + |m| + 6;
    assert f[|x|] == '_';
    assert forall k :: |y| + 1 <= k < |y| + 1 + |m| ==> g[k] == m[k - |y| - 1] && Decimal.IsDigit(g[k]);
  }

  // ----- the state -----

  datatype Counters = Counters(messages: nat, bytes: nat, errors: nat)

  datatype Writer = Writer(
    isOpen: bool,
    currentPath: string,
    file: File,
    schemaIds: map<string, nat>,
    channelIds: map<string, nat>,
    counters: Counters)

  const NO_FILE: File := File("", [], [], [])

  const INITIAL: Writer := Writer(false, "", NO_FILE, map[], map[], Counters(0, 0, 0))

  /** Opening an open writer succeeds and changes nothing. */
  function Open(w: Writer, path: string, ok: bool): Writer {
    if w.isOpen then w
    else if ok then w.(currentPath := path, isOpen := true, file := File(path, [], [], []))
    else w.(currentPath := path)
  }

  function Close(w: Writer): Writer {
    w.(isOpen := false)
  }

  function Reopen(w: Writer, path: string, ok: bool): Writer {
    Open(Close(w).(counters := Counters(0, 0, 0), schemaIds := map[], channelIds := map[]), path, ok)
  }

  function RegisterSchema(w: Writer, schema: Schema): Writer {
    if schema.name in w.schemaIds || !w.isOpen then w
    else
      var id := NextId(|w.file.schemas|);
      w.(file := w.file.(schemas := w.file.schemas + [schema]), schemaIds := w.schemaIds[schema.name := id])
  }

  function RegisterChannel(w: Writer, topic: string, typeName: string, schemaId: nat): Writer {
    if topic in w.channelIds || !w.isOpen then w
    else
      var id := NextId(|w.file.channels|);
      w.(file := w.file.(channels := w.file.channels + [Channel(topic, typeName, schemaId)]),
         channelIds := w.channelIds[topic := id])
  }

  function IdOf(ids: map<string, nat>, name: string): nat {
    if name in ids then ids[name] else 0
  }

  predicate Writes(w: Writer, channelId: nat, outputOk: bool) {
    w.isOpen && WriteSucceeds(w.file, channelId, outputOk)
  }

  function WriteMessage(w: Writer, m: Message, outputOk: bool): Writer {
    var c := w.counters;
    if Writes(w, m.channelId, outputOk) then
      w.(file := w.file.(messages := w.file.messages + [m]),
         counters := c.(messages := c.messages + 1, bytes := c.bytes + |m.data|))
    else w.(counters := c.(errors := c.errors + 1))
  }

  // ----- the code -----

  class McapFileWriter {
    var isOpen: bool
    var currentPath: string
    var schemaIds: map<string, nat>
    var channelIds: map<string, nat>
    var messagesWritten: nat
    var bytesWritten: nat
    var writeErrors: nat
    /** The library's writer and the file behind it. */
    var file: File

    ghost function State(): Writer
      reads this
    {
      Writer(isOpen, currentPath, file, schemaIds, channelIds, Counters(messagesWritten, bytesWritten, writeErrors))
    }

    constructor ()
      ensures State() == INITIAL
    {
      isOpen, currentPath, file := false, "", NO_FILE;
      schemaIds, channelIds := map[], map[];
      messagesWritten, bytesWritten, writeErrors := 0, 0, 0;
    }

    /** `created` is the outcome of opening the path. */
    method OpenFile(path: string, created: bool) returns (ok: bool)
      modifies this
      ensures State() == Open(old(State()), path, created)
      ensures ok == isOpen == (old(isOpen) || created)
    {
      if isOpen {
        return true;
      }
      currentPath := path;
      if !created {
        return false;
      }
      file := File(path, [], [], []);
      isOpen := true;
      ok := true;
    }

    method CloseFile()
      modifies this
      ensures State() == Close(old(State()))
    {
      if !isOpen {
        return;
      }
      isOpen := false;
    }

    method ReopenFile(newPath: string, created: bool) returns (ok: bool)
      modifies this
      ensures State() == Reopen(old(State()), newPath, created)
      ensures ok == isOpen == created
    {
      CloseFile();
      messagesWritten := 0;
      bytesWritten := 0;
      writeErrors := 0;
      schemaIds := map[];
      channelIds := map[];
      ok := OpenFile(newPath, created);
    }

    method AddSchema(schema: Schema) returns (id: nat)
      modifies this
      ensures State() == RegisterSchema(old(State()), schema)
      ensures id == IdOf(schemaIds, schema.name)
    {
      if schema.name in schemaIds {
        return schemaIds[schema.name];
      }
      if !isOpen {
        return 0;
      }
      id := NextId(|file.schemas|);
      file := file.(schemas := file.schemas + [schema]);
      schemaIds := schemaIds[schema.name := id];
    }

    method AddChannel(topic: string, typeName: string, schemaId: nat) returns (id: nat)
      modifies this
      ensures State() == RegisterChannel(old(State()), topic, typeName, schemaId)
      ensures id == IdOf(channelIds, topic)
    {
      if topic in channelIds {
        return channelIds[topic];
      }
      if !isOpen {
        return 0;
      }
      id := NextId(|file.channels|);
      file := file.(channels := file.channels + [Channel(topic, typeName, schemaId)]);
      channelIds := channelIds[topic := id];
    }

    method Write(m: Message, outputOk: bool) returns (ok: bool)
      modifies this
      ensures State() == WriteMessage(old(State()), m, outputOk)
      ensures ok == Writes(old(State()), m.channelId, outputOk)
    {
      if !isOpen {
        writeErrors := writeErrors + 1;
        return false;
      }
      if !WriteSucceeds(file, m.channelId, outputOk) {
        writeErrors := writeErrors + 1;
        return false;
      }
      file := file.(messages := file.messages + [m]);
      messagesWritten := messagesWritten + 1;
      bytesWritten := bytesWritten + |m.data|;
      ok := true;
    }
  }
}
