/** The key-value maps of MCAP records (MCAP specification, section Serialization): a 32-bit byte
    count, then key and value strings, each behind its own 32-bit length. */
module KeyValueMap {
  import opened Core
  import opened Bytes

  type Text = seq<byte>
  datatype Pair = Pair(key: Text, value: Text)

  // ----- the format -----

  function SerializeText(s: Text): seq<byte> {
    ToLittleEndian(|s| % TWO32, 4) + s
  }

  function SerializePairs(pairs: seq<Pair>): seq<byte> {
    if pairs == [] then []
    else SerializeText(pairs[0].key) + SerializeText(pairs[0].value) + SerializePairs(pairs[1..])
  }

  /** Every string has a 32-bit length. */
  predicate Sized(pairs: seq<Pair>) {
    forall i :: 0 <= i < |pairs| ==> |pairs[i].key| < TWO32 && |pairs[i].value| < TWO32
  }

  /** emplace keeps the value that a key already has. */
  function Emplace(m: map<Text, Text>, key: Text, value: Text): map<Text, Text> {
    if key in m then m else m[key := value]
  }

  function EmplaceAll(m: map<Text, Text>, pairs: seq<Pair>): map<Text, Text>
    decreases |pairs|
  {
    if pairs == [] then m else EmplaceAll(Emplace(m, pairs[0].key, pairs[0].value), pairs[1..])
  }

  // ----- parsing -----

  function ParseText(p: seq<byte>): (r: Option<Text>)
    ensures r.Some? ==> 4 + |r.value| <= |p|
  {
    if |p| < 4 then None
    else
      var n := LittleEndian(p[..4]);
      if n > |p| - 4 then None else Some(p[4..4 + n])
  }

  function ParsePairs(p: seq<byte>): Option<seq<Pair>>
    decreases |p|
  {
    if p == [] then Some([])
    else
      var k := ParseText(p);
      if k.None? then None
      else
        var v := ParseText(p[4 + |k.value|..]);
        if v.None? then None
        else
          var rest := ParsePairs(p[4 + |k.value|..][4 + |v.value|..]);
          if rest.None? then None else Some([Pair(k.value, v.value)] + rest.value)
  }

  /** What ParseKeyValueMap returns. The end offset is computed in 32 bits: when the byte count and its
      own four bytes do not fit, the end wraps around to at most 3 and nothing is read. */
  function ParseMap(data: seq<byte>): Option<map<Text, Text>> {
    if |data| < 4 then None
    else
      var size := LittleEndian(data[..4]);
      if size > |data| - 4 then None
      else if size + 4 >= TWO32 then Some(map[])
      else
        var pairs := ParsePairs(data[4..4 + size]);
        if pairs.None? then None else Some(EmplaceAll(map[], pairs.value))
  }

  lemma ParseInvertsSerializeText(s: Text, rest: seq<byte>)
    requires |s| < TWO32
    ensures ParseText(SerializeText(s) + rest) == Some(s)
    ensures (SerializeText(s) + rest)[4 + |s|..] == rest
  {
    hide ToLittleEndian, LittleEndian, Pow256;
    var size := ToLittleEndian(|s|, 4);
    FourByteSpace();
    LittleEndianInverts(|s|, 4);
    Cut(size, s, rest);
  }

  lemma FourByteSpace()
    ensures Pow256(4) == TWO32
  {
  }

  lemma Cut(size: seq<byte>, s: Text, rest: seq<byte>)
    requires |size| == 4
    ensures var p := size + s + rest;
            p[..4] == size && p[4..4 + |s|] == s && p[4 + |s|..] == rest
  {
  }

  lemma ParsedText(p: seq<byte>)
    requires ParseText(p).Some?
    ensures var s := ParseText(p).value;
            |s| < TWO32 && p == SerializeText(s) + p[4 + |s|..]
  {
    hide ToLittleEndian, LittleEndian, Pow256;
    FourByteSpace();
    ToLittleEndianInverts(p[..4]);
    var s := ParseText(p).value;
    Paste(p, |s|);
    assert |s| == LittleEndian(p[..4]) < TWO32;
  }

  lemma Paste(p: seq<byte>, n: nat)
    requires 4 + n <= |p|
    ensures p == p[..4] + p[4..4 + n] + p[4 + n..]
  {
  }

  /** Parsing succeeds on every concatenation of pairs, and returns them. */
  lemma {:induction false} ParseInvertsSerialize(pairs: seq<Pair>)
    requires Sized(pairs)
    ensures ParsePairs(SerializePairs(pairs)) == Some(pairs)
    decreases |pairs|
  {
    hide SerializeText, ParseText;
    if pairs != [] {
      var k, v, rest := pairs[0].key, pairs[0].value, SerializePairs(pairs[1..]);
      ParseInvertsSerialize(pairs[1..]);
      ParseOnePair(k, v, rest);
      assert pairs == [Pair(k, v)] + pairs[1..];
    }
  }

  lemma ParseOnePair(k: Text, v: Text, rest: seq<byte>)
    requires |k| < TWO32 && |v| < TWO32
    ensures var all, others := ParsePairs(SerializeText(k) + SerializeText(v) + rest), ParsePairs(rest);
            others.Some? ==> all == Some([Pair(k, v)] + others.value)
  {
    hide SerializeText, ParseText;
    var tail := SerializeText(v) + rest;
    ParseInvertsSerializeText(v, rest);
    ParseInvertsSerializeText(k, tail);
    var p := SerializeText(k) + SerializeText(v) + rest;
    assert p == SerializeText(k) + tail;
    SerializedLength(k);
    assert p[4 + |k|..] == tail && tail[4 + |v|..] == rest;
  }

  lemma SerializedLength(s: Text)
    ensures |SerializeText(s)| == 4 + |s|
  {
  }

  /** And on nothing else. */
  lemma {:induction false} ParsedIsSerialized(p: seq<byte>)
    ensures ParsePairs(p).Some? ==> Sized(ParsePairs(p).value) && p == SerializePairs(ParsePairs(p).value)
    decreases |p|
  {
    hide SerializeText, ParseText;
    if p != [] && ParsePairs(p).Some? {
      var k := ParseText(p).value;
      var q := p[4 + |k|..];
      var v := ParseText(q).value;
      ParsedText(p);
      ParsedText(q);
      var rest := q[4 + |v|..];
      ParsedIsSerialized(rest);
      var pairs := ParsePairs(p).value;
      assert pairs[0] == Pair(k, v) && pairs[1..] == ParsePairs(rest).value;
      assert SerializePairs(pairs) == SerializeText(k) + SerializeText(v) + rest;
    }
  }

  /** ParseKeyValueMap accepts exactly the length-prefixed concatenations of string pairs, or a byte
      count so large that the end offset wraps. */
  lemma AcceptedExactly(data: seq<byte>)
    ensures ParseMap(data).Some? <==>
            |data| >= 4 && var size := LittleEndian(data[..4]);
            4 + size <= |data| &&
            (size + 4 < TWO32 ==> exists pairs :: Sized(pairs) && data[4..4 + size] == SerializePairs(pairs))
  {
    hide LittleEndian, SerializePairs, ParsePairs, EmplaceAll, Sized;
    if |data| >= 4 {
      var size := LittleEndian(data[..4]);
      if 4 + size <= |data| && size + 4 < TWO32 {
        var payload := data[4..4 + size];
        ParsedIsSerialized(payload);
        if exists pairs :: Sized(pairs) && payload == SerializePairs(pairs) {
          var pairs :| Sized(pairs) && payload == SerializePairs(pairs);
          ParseInvertsSerialize(pairs);
        }
      }
    }
  }

  // ----- round trip -----

  ghost predicate Distinct(pairs: seq<Pair>) {
    forall i, j :: 0 <= i < j < |pairs| ==> pairs[i].key != pairs[j].key
  }

  ghost predicate Represents(m: map<Text, Text>, pairs: seq<Pair>) {
    && (forall i :: 0 <= i < |pairs| ==> pairs[i].key in m && m[pairs[i].key] == pairs[i].value)
    && (forall k :: k in m ==> exists i :: 0 <= i < |pairs| && pairs[i].key == k)
  }

  predicate FirstOfKey(pairs: seq<Pair>, i: nat)
    requires i < |pairs|
  {
    forall j :: 0 <= j < i ==> pairs[j].key != pairs[i].key
  }

  /** A repeated key keeps its first value; no other key is touched. */
  lemma {:induction false} EmplaceAllFirstWins(m: map<Text, Text>, pairs: seq<Pair>)
    ensures var r := EmplaceAll(m, pairs);
            && (forall k :: k in m ==> k in r && r[k] == m[k])
            && (forall k :: k in r && k !in m ==> exists i :: 0 <= i < |pairs| && pairs[i].key == k)
            && (forall i :: 0 <= i < |pairs| && pairs[i].key !in m && FirstOfKey(pairs, i) ==>
                 pairs[i].key in r && r[pairs[i].key] == pairs[i].value)
    decreases |pairs|
  {
    if pairs != [] {
      var m1 := Emplace(m, pairs[0].key, pairs[0].value);
      var rest := pairs[1..];
      EmplaceAllFirstWins(m1, rest);
      var r := EmplaceAll(m1, rest);
      assert r == EmplaceAll(m, pairs);
      forall k | k in r && k !in m ensures exists i :: 0 <= i < |pairs| && pairs[i].key == k {
        if k in m1 {
          assert pairs[0].key == k;
        } else {
          var i :| 0 <= i < |rest| && rest[i].key == k;
          assert pairs[i + 1].key == k;
        }
      }
      forall i | 0 <= i < |pairs| && pairs[i].key !in m && FirstOfKey(pairs, i)
        ensures pairs[i].key in r && r[pairs[i].key] == pairs[i].value
      {
        if i > 0 {
          assert pairs[0].key != pairs[i].key;
          assert rest[i - 1] == pairs[i] && rest[i - 1].key !in m1;
          forall j | 0 <= j < i - 1 ensures rest[j].key != rest[i - 1].key {
            assert rest[j] == pairs[j + 1];
          }
        } else {
          assert m1[pairs[0].key] == pairs[0].value;
        }
      }
    }
  }

  lemma EmplaceAllRepresents(pairs: seq<Pair>)
    requires Distinct(pairs)
    ensures Represents(EmplaceAll(map[], pairs), pairs)
  {
    EmplaceAllFirstWins(map[], pairs);
  }

  function Serialize(pairs: seq<Pair>): seq<byte> {
    ToLittleEndian(|SerializePairs(pairs)| % TWO32, 4) + SerializePairs(pairs)
  }

  /** A concatenation of pairs can be cut into pairs in one way only. */
  lemma {:induction false} CutUnique(pairs: seq<Pair>, qs: seq<Pair>, rest: seq<byte>)
    requires Sized(pairs) && Sized(qs)
    requires SerializePairs(qs) + rest == SerializePairs(pairs)
    ensures qs <= pairs
    decreases |qs|
  {
    hide SerializeText, ParseText;
    if qs != [] {
      SerializedLength(qs[0].key);
      assert |SerializePairs(pairs)| > 0;
      var tail, tail' := SerializePairs(pairs[1..]), SerializePairs(qs[1..]) + rest;
      var k, v, k', v' := pairs[0].key, pairs[0].value, qs[0].key, qs[0].value;
      var p := SerializePairs(pairs);
      assert p == SerializeText(k) + (SerializeText(v) + tail);
      assert p == SerializeText(k') + (SerializeText(v') + tail');
      ParseInvertsSerializeText(k, SerializeText(v) + tail);
      ParseInvertsSerializeText(k', SerializeText(v') + tail');
      ParseInvertsSerializeText(v, tail);
      ParseInvertsSerializeText(v', tail');
      CutUnique(pairs[1..], qs[1..], rest);
      assert pairs == [Pair(k, v)] + pairs[1..] && qs == [Pair(k, v)] + qs[1..];
    }
  }

  /** Parsing returns the serialized map exactly when the byte count and its own four bytes fit in 32 bits. */
  lemma RoundTripExact(pairs: seq<Pair>, suffix: seq<byte>)
    requires Distinct(pairs)
    ensures var r := ParseMap(Serialize(pairs) + suffix);
            (r.Some? && Represents(r.value, pairs)) <==> |SerializePairs(pairs)| + 4 < TWO32
  {
    hide SerializePairs, ParsePairs, Represents, EmplaceAll, Distinct;
    var body := SerializePairs(pairs);
    var data := Serialize(pairs) + suffix;
    var size := |body| % TWO32;
    assert Pow256(4) == TWO32;
    LittleEndianInverts(size, 4);
    assert data[..4] == ToLittleEndian(size, 4);
    assert data[4..4 + size] == body[..size];
    if |body| + 4 < TWO32 {
      assert body[..size] == body;
      ShortIsSized(pairs);
      ParseInvertsSerialize(pairs);
      EmplaceAllRepresents(pairs);
    } else {
      OversizedLoses(pairs, size);
    }
  }

  /** Strings are no longer than what they are serialized in. */
  lemma {:induction false} ShortIsSized(pairs: seq<Pair>)
    ensures |SerializePairs(pairs)| < TWO32 ==> Sized(pairs)
    decreases |pairs|
  {
    hide SerializeText;
    if pairs != [] {
      SerializedLength(pairs[0].key);
      SerializedLength(pairs[0].value);
      ShortIsSized(pairs[1..]);
      assert pairs == [pairs[0]] + pairs[1..];
    }
  }

  ghost predicate SizedMap(m: map<Text, Text>) {
    forall k :: k in m ==> |k| < TWO32 && |m[k]| < TWO32
  }

  /** Parsed strings are short, so no parsed map has a string of 2^32 bytes. */
  lemma {:induction false} EmplaceAllSized(m: map<Text, Text>, pairs: seq<Pair>)
    requires Sized(pairs) && SizedMap(m)
    ensures SizedMap(EmplaceAll(m, pairs))
    decreases |pairs|
  {
    if pairs != [] {
      EmplaceAllSized(Emplace(m, pairs[0].key, pairs[0].value), pairs[1..]);
    }
  }

  lemma LongNotRepresented(m: map<Text, Text>, pairs: seq<Pair>)
    requires SizedMap(m) && !Sized(pairs)
    ensures !Represents(m, pairs)
  {
    if Represents(m, pairs) {
      forall i | 0 <= i < |pairs| ensures |pairs[i].key| < TWO32 && |pairs[i].value| < TWO32 {
        assert pairs[i].key in m;
      }
    }
  }

  lemma OversizedLoses(pairs: seq<Pair>, size: nat)
    requires Distinct(pairs) && |SerializePairs(pairs)| + 4 >= TWO32 && size == |SerializePairs(pairs)| % TWO32
    ensures !Represents(map[], pairs)
    ensures size + 4 < TWO32 ==>
              var qs := ParsePairs(SerializePairs(pairs)[..size]);
              qs.Some? ==> !Represents(EmplaceAll(map[], qs.value), pairs)
  {
    hide ParsePairs, EmplaceAll, Distinct, SerializeText, Sized, SizedMap;
    var body := SerializePairs(pairs);
    assert pairs != [];
    var none: map<Text, Text> := map[];
    assert pairs[0].key !in none;
    if size + 4 < TWO32 {
      ParsedIsSerialized(body[..size]);
      var parsed := ParsePairs(body[..size]);
      if parsed.Some? {
        if Sized(pairs) {
          assert body == body[..size] + body[size..];
          CutUnique(pairs, parsed.value, body[size..]);
          assert |body[..size]| < |body|;
          FewerPairs(pairs, parsed.value);
        } else {
          assert SizedMap(none) by { NothingSized(); }
          EmplaceAllSized(none, parsed.value);
          LongNotRepresented(EmplaceAll(none, parsed.value), pairs);
        }
      }
    }
  }

  lemma NothingSized()
    ensures SizedMap(map[])
  {
  }

  /** One value of 2^32 - 12 bytes is enough: the map comes back empty. */
  lemma LongValueLost()
    ensures var pairs := [Pair([], seq(TWO32 - 12, i => 0))];
            ParseMap(Serialize(pairs)) == Some(map[]) && !Represents(map[], pairs)
  {
    hide SerializeText, LittleEndian, ToLittleEndian, ParsePairs, Pow256;
    var value: Text := seq(TWO32 - 12, i => 0);
    var pairs := [Pair([], value)];
    SerializedLength([]);
    SerializedLength(value);
    assert pairs[1..] == [] && SerializePairs([]) == [];
    var body := SerializePairs(pairs);
    assert |body| == TWO32 - 4;
    FourByteSpace();
    LittleEndianInverts(TWO32 - 4, 4);
    assert Serialize(pairs)[..4] == ToLittleEndian(TWO32 - 4, 4);
    var none: map<Text, Text> := map[];
    assert pairs[0].key !in none;
  }

  lemma FewerPairs(pairs: seq<Pair>, qs: seq<Pair>)
    requires Distinct(pairs) && qs <= pairs && qs != pairs
    ensures !Represents(EmplaceAll(map[], qs), pairs)
  {
    hide EmplaceAll;
    EmplaceAllFirstWins(map[], qs);
    assert |qs| < |pairs|;
    assert pairs[|qs|].key !in EmplaceAll(map[], qs);
  }

  // ----- the code -----

  method KeyValueMapSize(pairs: seq<Pair>) returns (r: nat)
    ensures r == |SerializePairs(pairs)| % TWO32
  {
    var size := 0;
    assert pairs[0..] == pairs;
    for i := 0 to |pairs|
      invariant size + |SerializePairs(pairs[i..])| == |SerializePairs(pairs)|
    {
      assert pairs[i..][1..] == pairs[i + 1..];
      SerializedLength(pairs[i].key);
      SerializedLength(pairs[i].value);
      size := size + 4 + |pairs[i].key| + 4 + |pairs[i].value|;
    }
    r := size % TWO32;
  }

  method ParseUint32(data: seq<byte>, at: nat, maxSize: nat) returns (ok: bool, output: nat)
    requires at + maxSize <= |data|
    ensures ok <==> maxSize >= 4
    ensures ok ==> output == LittleEndian(data[at..at + 4])
  {
    if maxSize < 4 {
      return false, 0;
    }
    output := Assemble(data[at], data[at + 1], data[at + 2], data[at + 3]);
    FourBytes(data[at..at + 4]);
    ok := true;
  }

  /** The bytes shifted into place. */
  function Assemble(a: int, b: int, c: int, d: int): int {
    a + 0x100 * b + 0x1_0000 * c + 0x100_0000 * d
  }

  lemma FourBytes(p: seq<byte>)
    requires |p| == 4
    ensures LittleEndian(p) == Assemble(p[0], p[1], p[2], p[3])
  {
    var b: int, c: int, d: int := p[1], p[2], p[3];
    assert LittleEndian(p[4..]) == 0;
    assert p[3..][1..] == p[4..] && LittleEndian(p[3..]) == d;
    assert p[2..][1..] == p[3..] && LittleEndian(p[2..]) == c + 256 * d;
    assert p[1..][1..] == p[2..] && LittleEndian(p[1..]) == b + 256 * (c + 256 * d);
  }

  lemma Slice(data: seq<byte>, at: nat, n: nat, i: nat, j: nat)
    requires at + n <= |data| && i <= j <= n
    ensures data[at..at + n][i..j] == data[at + i..at + j]
  {
    var p := data[at..at + n];
    assert |p[i..j]| == |data[at + i..at + j]| == j - i;
    forall k | 0 <= k < j - i ensures p[i..j][k] == data[at + i..at + j][k] {
      assert p[i..j][k] == p[i + k] == data[at + (i + k)];
    }
  }

  method ParseStringView(data: seq<byte>, at: nat, maxSize: nat) returns (r: Option<Text>)
    requires at + maxSize <= |data|
    ensures r == ParseText(data[at..at + maxSize])
  {
    var ok, size := ParseUint32(data, at, maxSize);
    if !ok {
      return None;
    }
    ghost var p := data[at..at + maxSize];
    Slice(data, at, maxSize, 0, 4);
    if size > maxSize - 4 {
      return None;
    }
    Slice(data, at, maxSize, 4, 4 + size);
    return Some(data[at + 4..at + 4 + size]);
  }

  /** One round of the loop. */
  lemma ParseRound(p: seq<byte>, k: Text, v: Text, output: map<Text, Text>)
    requires p != [] && ParseText(p) == Some(k) && ParseText(p[4 + |k|..]) == Some(v)
    ensures var all, rest := ParsePairs(p), ParsePairs(p[4 + |k|..][4 + |v|..]);
            (all.Some? <==> rest.Some?) &&
            (all.Some? ==> EmplaceAll(output, all.value) == EmplaceAll(Emplace(output, k, v), rest.value))
  {
    hide ParseText;
    var rest := ParsePairs(p[4 + |k|..][4 + |v|..]);
    if rest.Some? {
      assert ([Pair(k, v)] + rest.value)[1..] == rest.value;
    }
  }

  method ParseKeyValueMap(data: seq<byte>) returns (r: Option<map<Text, Text>>)
    ensures r == ParseMap(data)
  {
    hide ParseText, EmplaceAll;
    var ok, sizeInBytes := ParseUint32(data, 0, |data|);
    if !ok {
      return None;
    }
    if sizeInBytes > |data| - 4 {
      return None;
    }
    ghost var size := sizeInBytes;
    assert Pow256(4) == TWO32;
    sizeInBytes := (sizeInBytes + 4) % TWO32;
    var output;
    output, ok := ParseEntries(data, sizeInBytes);
    return if ok then Some(output) else None;
  }

  /** The loop over the entries; a wrapped end offset lies before the first one. */
  method ParseEntries(data: seq<byte>, sizeInBytes: nat) returns (output: map<Text, Text>, ok: bool)
    requires sizeInBytes <= |data|
    ensures sizeInBytes < 4 ==> ok && output == map[]
    ensures sizeInBytes >= 4 ==>
              var all := ParsePairs(data[4..sizeInBytes]);
              (ok <==> all.Some?) && (ok ==> output == EmplaceAll(map[], all.value))
  {
    hide ParseText, EmplaceAll, Emplace, ParsePairs;
    output := map[];
    var pos := 4;
    ghost var all := if sizeInBytes >= 4 then ParsePairs(data[4..sizeInBytes]) else None;
    while pos < sizeInBytes
      invariant 4 <= pos && (sizeInBytes < 4 ==> output == map[])
      invariant sizeInBytes >= 4 ==> pos <= sizeInBytes && Remains(all, output, ParsePairs(data[pos..sizeInBytes]))
    {
      ghost var p := data[pos..sizeInBytes];
      var key := ParseStringView(data, pos, sizeInBytes - pos);
      if key.None? {
        NoText(p);
        return output, false;
      }
      assert p[4 + |key.value|..] == data[pos + 4 + |key.value|..sizeInBytes];
      pos := pos + 4 + |key.value|;
      var value := ParseStringView(data, pos, sizeInBytes - pos);
      if value.None? {
        NoText(p);
        return output, false;
      }
      assert p[4 + |key.value|..][4 + |value.value|..] == data[pos + 4 + |value.value|..sizeInBytes];
      pos := pos + 4 + |value.value|;
      ParseRound(p, key.value, value.value, output);
      output := Emplace(output, key.value, value.value);
    }
    if sizeInBytes >= 4 {
      NothingLeft(data[pos..sizeInBytes], output);
    }
    ok := true;
  }

  /** What is still to be parsed, added to the output, gives the whole. */
  ghost predicate Remains(all: Option<seq<Pair>>, output: map<Text, Text>, rest: Option<seq<Pair>>) {
    (all.Some? <==> rest.Some?) &&
    (all.Some? ==> EmplaceAll(map[], all.value) == EmplaceAll(output, rest.value))
  }

  lemma NoText(p: seq<byte>)
    requires p != [] && (ParseText(p).None? || ParseText(p[4 + |ParseText(p).value|..]).None?)
    ensures ParsePairs(p).None?
  {
  }

  lemma NothingLeft(p: seq<byte>, m: map<Text, Text>)
    requires p == []
    ensures ParsePairs(p) == Some([]) && EmplaceAll(m, []) == m
  {
  }
}
